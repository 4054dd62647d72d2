/** The AI explanation helper: when a Gemini key is configured it asks a
    configured model first, then every discovered text model (preferred
    names first), and returns the first non-blank reply, trimmed; in all
    other cases it returns a fixed fallback text. The Gemini SDK is an
    oracle from a model name and a prompt to the reply's text, if any. */
module AiClient {
  import opened Wrappers
  import opened Text

  const Fallback: string :=
    "AI key not configured. For demo: Many e-waste components can leach toxic substances like lead, "
    + "mercury, and brominated flame retardants. These can contaminate soil and water, harm the nervous "
    + "and endocrine systems, and persist in the environment. Always dispose of devices at certified "
    + "recycling centers to reduce exposure and enable safe material recovery."

  const PromptHead: string := "Explain why "
  const PromptTail: string :=
    " in electronic waste is harmful to human health and the environment in 3–4 sentences. "
    + "Keep it clear and beginner-friendly."

  /** The fixed template with the topic embedded. */
  function Prompt(topic: string): string {
    PromptHead + topic + PromptTail
  }

  /** Every model is sent the template around the topic, never the bare
      topic. */
  lemma PromptEmbeds(topic: string)
    ensures StartsWith(Prompt(topic), PromptHead) && EndsWith(Prompt(topic), PromptTail)
    ensures Prompt(topic)[|PromptHead|..|PromptHead| + |topic|] == topic
    ensures Prompt(topic) != topic
  {
    var p := Prompt(topic);
    assert p[..|PromptHead|] == PromptHead;
    assert p[|p| - |PromptTail|..] == PromptTail;
    assert |p| > |topic|;
  }

  // ------------------------------------------------------------ configuration

  /** The environment variables the helper reads (absent: `None`). */
  datatype Env = Env(geminiApiKey: Option<string>, googleApiKey: Option<string>, geminiModel: Option<string>)

  predicate Truthy(v: Option<string>) {
    v.Some? && v.value != []
  }

  /** `GEMINI_API_KEY or GOOGLE_API_KEY`, when either is non-empty. */
  function ApiKey(env: Env): (r: Option<string>)
    ensures r.Some? <==> Truthy(env.geminiApiKey) || Truthy(env.googleApiKey)
    ensures Truthy(env.geminiApiKey) ==> r == env.geminiApiKey
  {
    if Truthy(env.geminiApiKey) then env.geminiApiKey
    else if Truthy(env.googleApiKey) then env.googleApiKey
    else None
  }

  /** The configured model, tried before any discovered one. */
  function Explicit(env: Env): seq<string> {
    if Truthy(env.geminiModel) then [env.geminiModel.value] else []
  }

  // ------------------------------------------------------------ candidates

  /** A discovered model: its name (absent: empty) and its supported
      generation methods (absent: none). */
  datatype ModelInfo = ModelInfo(name: string, methods: seq<string>)

  predicate SupportsText(m: ModelInfo) {
    "generateContent" in m.methods || "generate_text" in m.methods
  }

  /** The names of the discovered models that can generate text, in
      discovery order; a failed listing (`None`) yields none. */
  function Candidates(listing: Option<seq<ModelInfo>>): (r: seq<string>)
    ensures listing.None? ==> r == []
    ensures listing.Some? ==> forall x :: x in r <==> exists m :: m in listing.value && SupportsText(m) && m.name == x
  {
    match listing
    case None => []
    case Some(ms) => NamesOf(ms)
  }

  function NamesOf(ms: seq<ModelInfo>): (r: seq<string>)
    ensures |r| <= |ms|
    ensures forall x :: x in r <==> exists m :: m in ms && SupportsText(m) && m.name == x
  {
    if ms == [] then []
    else
      var rest := NamesOf(ms[1..]);
      assert forall m :: m in ms <==> m == ms[0] || m in ms[1..];
      (if SupportsText(ms[0]) then [ms[0].name] else []) + rest
  }

  // ------------------------------------------------------------ try order

  const Preferred: seq<string> := [
    "gemini-1.5-flash-002",
    "gemini-1.5-flash-latest",
    "gemini-1.5-pro-002",
    "gemini-1.5-pro-latest",
    "gemini-pro"
  ]

  /** A name stands for a preferred model when it is that name or a path
      ending in "/" and that name. */
  predicate Matches(name: string, preferred: string) {
    name == preferred || EndsWith(name, "/" + preferred)
  }

  /** The position in `Preferred` of the first entry `name` stands for,
      from `k` on; `|Preferred|` when there is none. */
  function RankFrom(name: string, k: nat): (r: nat)
    requires k <= |Preferred|
    ensures k <= r <= |Preferred|
    ensures r < |Preferred| ==> Matches(name, Preferred[r])
    ensures forall j :: k <= j < r ==> !Matches(name, Preferred[j])
    decreases |Preferred| - k
  {
    if k == |Preferred| then k
    else if Matches(name, Preferred[k]) then k
    else RankFrom(name, k + 1)
  }

  function Rank(name: string): nat {
    RankFrom(name, 0)
  }

  /** Pass `k` of the ordering takes the names standing for `Preferred[k]`;
      the last pass (`k == |Preferred|`) takes every name. */
  predicate Accepts(k: nat, name: string) {
    k >= |Preferred| || Matches(name, Preferred[k])
  }

  /** Where `x` first occurs in `s`. */
  function FirstIndex(s: seq<string>, x: string): (r: nat)
    requires x in s
    ensures r < |s| && s[r] == x && x !in s[..r]
    ensures forall j :: 0 <= j < |s| && s[j] == x ==> r <= j
  {
    if s[0] == x then 0
    else
      var r := FirstIndex(s[1..], x) + 1;
      assert s[..r] == [s[0]] + s[1..][..r - 1];
      r
  }

  predicate NoDup(s: seq<string>) {
    forall i, j :: 0 <= i < j < |s| ==> s[i] != s[j]
  }

  /** `order` lists, once each, the candidates of rank below `k`, by rank
      and within a rank by first discovery. */
  ghost predicate Phase(order: seq<string>, cands: seq<string>, k: nat) {
    && NoDup(order)
    && (forall x :: x in order <==> x in cands && Rank(x) < k)
    && (forall i, j :: 0 <= i < j < |order| ==> Rank(order[i]) <= Rank(order[j]))
    && (forall i, j :: 0 <= i < j < |order| && Rank(order[i]) == Rank(order[j]) ==>
          FirstIndex(cands, order[i]) < FirstIndex(cands, order[j]))
  }

  /** The order models are tried in: each distinct candidate once; names
      standing for a preferred model first, grouped in the preferred
      order; the rest after them; and within a group, discovery order. */
  ghost function IsTryOrder(order: seq<string>, cands: seq<string>): (b: bool)
    ensures b ==> NoDup(order) && forall x :: x in order <==> x in cands
  {
    Phase(order, cands, |Preferred| + 1)
  }

  /** Ranked first, then discovered first: the order `IsTryOrder` lists
      candidates in. */
  ghost predicate Before(cands: seq<string>, x: string, y: string) {
    x in cands && y in cands
    && (Rank(x) < Rank(y) || (Rank(x) == Rank(y) && FirstIndex(cands, x) < FirstIndex(cands, y)))
  }

  ghost predicate SortedBy(order: seq<string>, cands: seq<string>) {
    forall i, j :: 0 <= i < j < |order| ==> Before(cands, order[i], order[j])
  }

  /** There is only one try order for a list of candidates. */
  lemma TryOrderUnique(o1: seq<string>, o2: seq<string>, cands: seq<string>)
    requires IsTryOrder(o1, cands) && IsTryOrder(o2, cands)
    ensures o1 == o2
  {
    TryOrderSorted(o1, cands);
    TryOrderSorted(o2, cands);
    SortedUnique(o1, o2, cands);
  }

  lemma TryOrderSorted(order: seq<string>, cands: seq<string>)
    requires IsTryOrder(order, cands)
    ensures SortedBy(order, cands)
  {
    forall i, j | 0 <= i < j < |order| ensures Before(cands, order[i], order[j]) {
      assert order[i] in order && order[j] in order;
    }
  }

  lemma {:induction false} SortedUnique(o1: seq<string>, o2: seq<string>, cands: seq<string>)
    requires SortedBy(o1, cands) && SortedBy(o2, cands)
    requires forall x :: x in o1 <==> x in o2
    ensures o1 == o2
    decreases |o1|
  {
    if o1 == [] {
      assert forall k :: 0 <= k < |o2| ==> o2[k] in o2;
    } else {
      assert o1[0] in o1;
      var x, y := o1[0], o2[0];
      assert y in o2;
      if x != y {
        assert false;
      }
      forall z ensures z in o1[1..] <==> z in o2[1..] {
        if z in o1[1..] {
          var i :| 1 <= i < |o1| && o1[i] == z;
          assert Before(cands, x, z);
          assert z in o2 && z != o2[0];
        }
        if z in o2[1..] {
          var i :| 1 <= i < |o2| && o2[i] == z;
          assert Before(cands, y, z);
          assert z in o1 && z != o1[0];
        }
      }
      SortedTail(o1, cands);
      SortedTail(o2, cands);
      SortedUnique(o1[1..], o2[1..], cands);
      assert o1 == [x] + o1[1..] && o2 == [y] + o2[1..];
    }
  }

  lemma SortedTail(o: seq<string>, cands: seq<string>)
    requires o != [] && SortedBy(o, cands)
    ensures SortedBy(o[1..], cands)
  {
    forall i, j | 0 <= i < j < |o| - 1 ensures Before(cands, o[1..][i], o[1..][j]) {
      assert o[1..][i] == o[i + 1] && o[1..][j] == o[j + 1];
    }
  }

  /** The state of pass `k` after the first `i` candidates. */
  ghost predicate Scan(r: seq<string>, cands: seq<string>, k: nat, i: nat)
    requires i <= |cands|
  {
    ScanSet(r, cands, k, i) && ScanOrder(r, cands, k, i)
  }

  /** What the pass has listed: each candidate once, those of lower rank
      and those of rank `k` among the first `i`. */
  ghost predicate ScanSet(r: seq<string>, cands: seq<string>, k: nat, i: nat)
    requires i <= |cands|
  {
    && NoDup(r)
    && (forall x :: x in r <==> x in cands && (Rank(x) < k || (Rank(x) == k && x in cands[..i])))
  }

  /** The order it has listed them in. */
  ghost predicate ScanOrder(r: seq<string>, cands: seq<string>, k: nat, i: nat) {
    && (forall a :: 0 <= a < |r| ==> r[a] in cands)
    && (forall a, b :: 0 <= a < b < |r| ==> Rank(r[a]) <= Rank(r[b]))
    && (forall a :: 0 <= a < |r| ==> Rank(r[a]) <= k)
    && (forall a :: 0 <= a < |r| && Rank(r[a]) == k ==> FirstIndex(cands, r[a]) < i)
    && (forall a, b :: 0 <= a < b < |r| && Rank(r[a]) == Rank(r[b]) ==>
          FirstIndex(cands, r[a]) < FirstIndex(cands, r[b]))
  }

  /** A candidate the pass accepts and has not listed yet is of this
      pass's rank and first occurs here, so appending it keeps the scan's
      state. */
  lemma ScanAppend(r: seq<string>, cands: seq<string>, k: nat, i: nat)
    requires i < |cands| && Scan(r, cands, k, i)
    requires Accepts(k, cands[i]) && cands[i] !in r
    ensures Scan(r + [cands[i]], cands, k, i + 1)
  {
    var c := cands[i];
    assert Rank(c) == k;
    assert forall j :: 0 <= j < i ==> cands[j] == cands[..i][j];
    assert FirstIndex(cands, c) == i;
    ScanAppendSet(r, cands, k, i);
    ScanAppendOrder(r, cands, k, i);
  }

  lemma ScanAppendSet(r: seq<string>, cands: seq<string>, k: nat, i: nat)
    requires i < |cands| && ScanSet(r, cands, k, i)
    requires Rank(cands[i]) == k && cands[i] !in r
    ensures ScanSet(r + [cands[i]], cands, k, i + 1)
  {
    var c := cands[i];
    assert cands[..i + 1] == cands[..i] + [c];
    var r' := r + [c];
    assert forall x :: x in r' <==> x in r || x == c;
  }

  lemma ScanAppendOrder(r: seq<string>, cands: seq<string>, k: nat, i: nat)
    requires i < |cands| && ScanOrder(r, cands, k, i)
    requires Rank(cands[i]) == k && FirstIndex(cands, cands[i]) == i
    ensures ScanOrder(r + [cands[i]], cands, k, i + 1)
  {
    var c := cands[i];
    var r' := r + [c];
    assert forall a :: 0 <= a < |r| ==> r'[a] == r[a];
    forall a, b | 0 <= a < b < |r'|
      ensures Rank(r'[a]) <= Rank(r'[b])
      ensures Rank(r'[a]) == Rank(r'[b]) ==> FirstIndex(cands, r'[a]) < FirstIndex(cands, r'[b])
    {
      if b == |r| {
        assert r'[b] == c;
      }
    }
  }

  /** Any other candidate is already listed or not this pass's. */
  lemma ScanSkip(r: seq<string>, cands: seq<string>, k: nat, i: nat)
    requires i < |cands| && Scan(r, cands, k, i)
    requires !(Accepts(k, cands[i]) && cands[i] !in r)
    ensures Scan(r, cands, k, i + 1)
  {
    var c := cands[i];
    assert cands[..i + 1] == cands[..i] + [c];
    if !Accepts(k, c) {
      assert Rank(c) != k;
    }
  }

  /** One pass over the candidates, appending those pass `k` accepts that
      are not yet listed. */
  method AppendAccepted(order: seq<string>, cands: seq<string>, k: nat) returns (r: seq<string>)
    requires k <= |Preferred| && Phase(order, cands, k)
    ensures Phase(r, cands, k + 1)
  {
    r := order;
    var i := 0;
    while i < |cands|
      invariant 0 <= i <= |cands|
      invariant Scan(r, cands, k, i)
    {
      if Accepts(k, cands[i]) && cands[i] !in r {
        ScanAppend(r, cands, k, i);
        r := r + [cands[i]];
      } else {
        ScanSkip(r, cands, k, i);
      }
      i := i + 1;
    }
    assert cands[..i] == cands;
  }

  /** `ordered_to_try`: a pass per preferred name, then a pass for the
      remaining candidates. */
  method TryOrder(cands: seq<string>) returns (order: seq<string>)
    ensures IsTryOrder(order, cands)
  {
    order := [];
    for k := 0 to |Preferred|
      invariant Phase(order, cands, k)
    {
      order := AppendAccepted(order, cands, k);
    }
    order := AppendAccepted(order, cands, |Preferred|);
  }

  // ------------------------------------------------------------ attempts

  /** Whether a reply carries text that is not blank. */
  predicate Answered(reply: Option<string>) {
    reply.Some? && Strip(reply.value) != []
  }

  /** The first answer among the models tried in order, trimmed. */
  function Answer(names: seq<string>, prompt: string, reply: (string, string) -> Option<string>): (r: Option<string>)
    ensures r.Some? ==> r.value != [] && Strip(r.value) == r.value
    ensures r.Some? <==> exists k :: 0 <= k < |names| && Answered(reply(names[k], prompt))
  {
    if names == [] then None
    else if Answered(reply(names[0], prompt)) then
      StripIdempotent(reply(names[0], prompt).value);
      Some(Strip(reply(names[0], prompt).value))
    else
      var r := Answer(names[1..], prompt, reply);
      assert forall k :: 1 <= k < |names| ==> names[k] == names[1..][k - 1];
      r
  }

  /** The models called: all of them up to and including the first that
      answers. */
  function Tried(names: seq<string>, prompt: string, reply: (string, string) -> Option<string>): (r: seq<string>)
    ensures |r| <= |names| && r == names[..|r|]
    ensures names != [] ==> r != []
  {
    if names == [] then []
    else if Answered(reply(names[0], prompt)) then [names[0]]
    else
      var rest := Tried(names[1..], prompt, reply);
      assert names[..|rest| + 1] == [names[0]] + names[1..][..|rest|];
      [names[0]] + rest
  }

  /** Every model called before the last got no answer. */
  lemma {:induction false} TriedBeforeLastSilent(names: seq<string>, prompt: string, reply: (string, string) -> Option<string>)
    ensures forall k :: 0 <= k < |Tried(names, prompt, reply)| - 1 ==>
      !Answered(reply(Tried(names, prompt, reply)[k], prompt))
    decreases |names|
  {
    if names != [] && !Answered(reply(names[0], prompt)) {
      TriedBeforeLastSilent(names[1..], prompt, reply);
      var rest := Tried(names[1..], prompt, reply);
      var r := Tried(names, prompt, reply);
      assert r == [names[0]] + rest;
      forall k | 0 <= k < |r| - 1
        ensures !Answered(reply(r[k], prompt))
      {
        if k == 0 {
          assert r[k] == names[0];
        } else {
          assert r[k] == rest[k - 1] && k - 1 < |rest| - 1;
          assert !Answered(reply(rest[k - 1], prompt));
        }
      }
    }
  }

  /** The answer, if any, is the trimmed reply of the last model called. */
  lemma {:induction false} TriedLastAnswers(names: seq<string>, prompt: string, reply: (string, string) -> Option<string>)
    ensures var r := Tried(names, prompt, reply);
      var a := Answer(names, prompt, reply);
      && (a.Some? <==> r != [] && Answered(reply(r[|r| - 1], prompt)))
      && (a.Some? ==> a.value == Strip(reply(r[|r| - 1], prompt).value))
    decreases |names|
  {
    if names != [] && !Answered(reply(names[0], prompt)) {
      TriedLastAnswers(names[1..], prompt, reply);
      var rest := Tried(names[1..], prompt, reply);
      var r := Tried(names, prompt, reply);
      assert r == [names[0]] + rest;
      if rest != [] {
        assert r[|r| - 1] == rest[|rest| - 1];
      }
    }
  }

  /** Without an answer every model was called. */
  lemma {:induction false} TriedAllWhenSilent(names: seq<string>, prompt: string, reply: (string, string) -> Option<string>)
    ensures Answer(names, prompt, reply).None? ==> Tried(names, prompt, reply) == names
    decreases |names|
  {
    if names != [] && !Answered(reply(names[0], prompt)) {
      TriedAllWhenSilent(names[1..], prompt, reply);
      assert names == [names[0]] + names[1..];
    }
  }

  /** The try-each-model loop, stopping at the first answer. */
  method TryModels(names: seq<string>, prompt: string, reply: (string, string) -> Option<string>)
    returns (answer: Option<string>, tried: seq<string>)
    ensures answer == Answer(names, prompt, reply)
    ensures tried == Tried(names, prompt, reply)
  {
    tried := [];
    var i := 0;
    while i < |names|
      invariant 0 <= i <= |names|
      invariant Answer(names[i..], prompt, reply) == Answer(names, prompt, reply)
      invariant tried + Tried(names[i..], prompt, reply) == Tried(names, prompt, reply)
    {
      TryStep(names, i, tried, prompt, reply);
      var r := reply(names[i], prompt);
      tried := tried + [names[i]];
      if r.Some? && Strip(r.value) != [] {
        answer := Some(Strip(r.value));
        return;
      }
      i := i + 1;
    }
    answer := None;
  }

  /** One round of `TryModels`: calling `names[i]` either ends the search
      with its answer or leaves the rest of the list to decide. */
  lemma TryStep(names: seq<string>, i: nat, tried: seq<string>, prompt: string, reply: (string, string) -> Option<string>)
    requires i < |names|
    ensures Answered(reply(names[i], prompt)) ==>
      Answer(names[i..], prompt, reply) == Some(Strip(reply(names[i], prompt).value))
      && tried + Tried(names[i..], prompt, reply) == tried + [names[i]]
    ensures !Answered(reply(names[i], prompt)) ==>
      Answer(names[i + 1..], prompt, reply) == Answer(names[i..], prompt, reply)
      && (tried + [names[i]]) + Tried(names[i + 1..], prompt, reply) == tried + Tried(names[i..], prompt, reply)
  {
    assert names[i..] == [names[i]] + names[i + 1..];
    AskFirst(names[i], names[i + 1..], prompt, reply);
  }

  /** Asking a model first: its answer wins, otherwise the rest decide. */
  lemma AskFirst(m: string, order: seq<string>, prompt: string, reply: (string, string) -> Option<string>)
    ensures Answered(reply(m, prompt)) ==>
      Answer([m] + order, prompt, reply) == Some(Strip(reply(m, prompt).value)) && Tried([m] + order, prompt, reply) == [m]
    ensures !Answered(reply(m, prompt)) ==>
      Answer([m] + order, prompt, reply) == Answer(order, prompt, reply)
      && Tried([m] + order, prompt, reply) == [m] + Tried(order, prompt, reply)
  {
    assert ([m] + order)[1..] == order;
  }

  lemma FallbackNotEmpty()
    ensures Fallback != []
  {
  }

  /** The configured path: the configured model, if any, then the
      discovered candidates in try order, until one answers. */
  method AskModels(prompt: string, explicit: seq<string>, cands: seq<string>, reply: (string, string) -> Option<string>)
    returns (answer: Option<string>, tried: seq<string>, order: seq<string>)
    requires |explicit| <= 1
    ensures IsTryOrder(order, cands)
    ensures answer == Answer(explicit + order, prompt, reply)
    ensures tried == Tried(explicit + order, prompt, reply)
  {
    tried := [];
    if explicit != [] {
      var model := explicit[0];
      var r := reply(model, prompt);
      tried := [model];
      if r.Some? && Strip(r.value) != [] {
        answer := Some(Strip(r.value));
        order := TryOrder(cands);
        assert explicit == [model];
        AskFirst(model, order, prompt, reply);
        return;
      }
    }
    var ordered := TryOrder(cands);
    order := ordered;
    var more;
    answer, more := TryModels(ordered, prompt, reply);
    if explicit != [] {
      assert explicit == [explicit[0]];
      AskFirst(explicit[0], order, prompt, reply);
    } else {
      assert explicit + order == order;
    }
    tried := tried + more;
  }

  /** `get_ai_explanation(topic)`. `sdkReady` says whether importing and
      configuring the SDK succeeded; `listing` is the result of listing
      the models (`None`: the listing raised). */
  method Explain(topic: string, env: Env, sdkReady: bool, listing: Option<seq<ModelInfo>>,
                 reply: (string, string) -> Option<string>)
    returns (text: string, tried: seq<string>, order: seq<string>)
    ensures text != []
    ensures ApiKey(env).None? || !sdkReady ==> text == Fallback && tried == []
    ensures ApiKey(env).Some? && sdkReady ==>
      && IsTryOrder(order, Candidates(listing))
      && text == Answer(Explicit(env) + order, Prompt(topic), reply).GetOr(Fallback)
      && tried == Tried(Explicit(env) + order, Prompt(topic), reply)
  {
    FallbackNotEmpty();
    text := Fallback;
    tried := [];
    order := [];
    if ApiKey(env).Some? && sdkReady {
      var answer;
      answer, tried, order := AskModels(Prompt(topic), Explicit(env), Candidates(listing), reply);
      if answer.Some? {
        text := answer.value;
      }
    }
  }

  /** A configured model is the first one called. */
  lemma ExplicitFirst(env: Env, order: seq<string>, prompt: string, reply: (string, string) -> Option<string>)
    requires Truthy(env.geminiModel)
    ensures Tried(Explicit(env) + order, prompt, reply)[0] == env.geminiModel.value
  {
  }
}

/** The Recycle-or-Reuse helper (`decision` in core/views.py): the generated
    answer is searched for a `RECOMMENDATION:` line; without one, a reuse
    keyword near the start of the answer decides. The call to the text
    generator is not part of this module: its answer is the input. */
module Decision {
  import opened Wrappers
  import opened Text

  datatype Verdict = Recycle | Reuse

  datatype Outcome = Outcome(decision: Verdict, reason: string)

  const Marker: string := "RECOMMENDATION:"

  /** The parse of `text`, as the view does it. The reason is the whole
      text unless the exact marker occurs in it. */
  function Decide(text: string): (r: Outcome)
    ensures Contains(text, Marker) || r.reason == text
  {
    if Contains(Upper(text), Marker) then
      match Partition(text, Marker)
      case Some((_, after)) => FromMarker(after)
      case None =>
        Outcome(Recycle, text)
    else if StartsWith(Lower(text), "reuse") || Contains(Prefix(Lower(text), 50), " reuse ") then
      Outcome(Reuse, text)
    else
      Outcome(Recycle, text)
  }

  /** The outcome read from the text after the marker: its first line,
      trimmed, decides, and the whole rest, trimmed, is the reason. */
  function FromMarker(after: string): Outcome {
    var recLine := Strip(FirstLine(after));
    Outcome(if Contains(Lower(recLine), "reuse") then Reuse else Recycle, Strip(after))
  }

  const PromptHead: string := "Analyze the item '"
  const PromptTail: string := "' and determine if it should be RECYCLED or REUSED. "
    + "Consider: Can it be repaired and used again? Is it too old or broken? "
    + "Respond in this exact format: First line: 'RECOMMENDATION: [Recycle OR Reuse]' "
    + "Second line: A brief 2-3 sentence explanation of why this is the best option, "
    + "focusing specifically on '"
  const PromptEnd: string := "' and its condition/age."

  /** The prompt sent for `item`; the item is quoted twice. */
  function Prompt(item: string): (r: string)
    ensures OccursAt(r, item, |PromptHead|)
    ensures OccursAt(r, item, |PromptHead| + |item| + |PromptTail|)
  {
    var r := PromptHead + item + PromptTail + item + PromptEnd;
    assert r[|PromptHead|..|PromptHead| + |item|] == item;
    assert r[|PromptHead| + |item| + |PromptTail|..|PromptHead| + |item| + |PromptTail| + |item|] == item;
    r
  }

  /** The view: a result only for a POST whose trimmed item is non-empty;
      the generator `answer` is asked about that trimmed item. */
  function View(isPost: bool, item: string, answer: string -> string): (r: Option<Outcome>)
    ensures r.Some? <==> isPost && Strip(item) != []
    ensures r.Some? ==> r.value == Decide(answer(Prompt(Strip(item))))
  {
    if isPost && Strip(item) != [] then Some(Decide(answer(Prompt(Strip(item))))) else None
  }

  /** With the exact marker present, the answer is decided by the rest of
      the line after its first occurrence: Reuse iff that line contains
      "reuse" in any case; the reason is everything after the marker,
      trimmed. */
  lemma MarkedDecision(text: string, i: nat)
    requires OccursAt(text, Marker, i)
    requires forall j :: 0 <= j < i ==> !OccursAt(text, Marker, j)
    ensures Decide(text).reason == Strip(text[i + |Marker|..])
    ensures Decide(text).decision == Reuse
      <==> Contains(Lower(FirstLine(text[i + |Marker|..])), "reuse")
  {
    MarkerUpper();
    UpperOccurs(text, Marker, i);
    SplitAtFirst(text, i);
    assert Decide(text) == FromMarker(text[i + |Marker|..]);
    ReuseIsWord();
    StripKeepsWord(FirstLine(text[i + |Marker|..]), "reuse");
  }

  lemma ReuseIsWord()
    ensures IsWord("reuse")
  {
  }

  /** The marker is written in capitals. */
  lemma MarkerUpper()
    ensures Upper(Marker) == Marker
  {
    forall i | 0 <= i < |Marker| ensures UpperChar(Marker[i]) == Marker[i] {
      assert 'A' <= Marker[i] <= 'Z' || Marker[i] == ':';
    }
  }

  /** Splitting at the marker cuts at its first occurrence. */
  lemma SplitAtFirst(text: string, i: nat)
    requires OccursAt(text, Marker, i)
    requires forall j :: 0 <= j < i ==> !OccursAt(text, Marker, j)
    ensures Partition(text, Marker) == Some((text[..i], text[i + |Marker|..]))
  {
    assert Find(text, Marker) == Some(i);
  }

  /** A marker written in another case is not recognised by the split, and
      the answer falls back to Recycle with the whole text as reason. */
  lemma MisCasedMarker(text: string)
    requires Contains(Upper(text), Marker) && !Contains(text, Marker)
    ensures Decide(text) == Outcome(Recycle, text)
  {
  }

  /** Without any marker the answer is Reuse iff the lowercased text starts
      with "reuse" or has " reuse " ending within its first 50 characters. */
  lemma UnmarkedDecision(text: string)
    requires !Contains(Upper(text), Marker)
    ensures Decide(text).reason == text
    ensures Decide(text).decision == Reuse <==>
      StartsWith(Lower(text), "reuse")
      || exists j :: OccursAt(Lower(text), " reuse ", j) && j + 7 <= 50
  {
    var l := Lower(text);
    if Contains(Prefix(l, 50), " reuse ") {
      var j := Find(Prefix(l, 50), " reuse ").value;
      PrefixOccurs(l, 50, " reuse ", j);
    }
    if exists j :: OccursAt(l, " reuse ", j) && j + 7 <= 50 {
      var j :| OccursAt(l, " reuse ", j) && j + 7 <= 50;
      PrefixOccurs(l, 50, " reuse ", j);
    }
  }

  /** The first line of `" " + word + "\n" + rest` is `" " + word`. */
  lemma FirstLineOfLabel(word: string, rest: string)
    requires '\n' !in word
    ensures FirstLine(" " + word + "\n" + rest) == " " + word
  {
    var after := " " + word + "\n" + rest;
    var r := FirstLine(after);
    assert after[|word| + 1] == '\n';
    assert '\n' !in " " + word;
    assert |r| == |word| + 1;
    assert after[..|word| + 1] == " " + word;
  }

  /** An answer that opens with the marker is decided by its first line. */
  lemma MarkerFirst(after: string)
    ensures Decide(Marker + after).reason == Strip(after)
    ensures Decide(Marker + after).decision == Reuse
      <==> Contains(Lower(FirstLine(after)), "reuse")
  {
    var text := Marker + after;
    assert text[..|Marker|] == Marker;
    assert text[|Marker|..] == after;
    MarkedDecision(text, 0);
  }

  /** An answer whose marker is followed by one word on its line is
      decided by that word alone. */
  lemma LabelledAnswer(word: string, rest: string)
    requires '\n' !in word
    ensures Decide(Marker + (" " + word + "\n" + rest)).decision == Reuse
      <==> Contains(Lower(" " + word), "reuse")
    ensures Decide(Marker + (" " + word + "\n" + rest)).reason == Strip(" " + word + "\n" + rest)
  {
    MarkerFirst(" " + word + "\n" + rest);
    FirstLineOfLabel(word, rest);
  }
}

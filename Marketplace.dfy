/** The reuse marketplace (`reuse_marketplace` in core/views.py): the
    generated advice is parsed into a recommendation, and when the
    recommendation calls for a repair, reuse or donation, nearby repair
    shops are gathered from two place searches under a cap of five, with
    fixed placeholder lists when a search cannot be made. The generator and
    the two place searches are inputs. */
module Marketplace {
  import opened Wrappers
  import opened Text
  import opened Numbers
  import opened Seqs

  const Marker: string := "RECOMMENDATION:"

  /** What the parse of the advice yields: `None` stands for Python's `None`. */
  datatype Parsed = Parsed(recommendation: Option<string>, reasoning: Option<string>)

  // ------------------------------------------------------------- parsing

  /** The recommendation and its reasoning, as the view reads them off the
      advice `ai`. */
  function ParseAdvice(ai: string): (r: Parsed)
    ensures r.recommendation.Some? <==> r.reasoning.Some?
    ensures r.recommendation.None? ==> Contains(Upper(ai), Marker) && !Contains(ai, Marker)
  {
    if Contains(Upper(ai), Marker) then
      match Partition(ai, Marker)
      case Some((_, after)) => Parsed(Some(Strip(FirstLine(after))), Some(Strip(after)))
      case None => Parsed(None, None)
    else
      var head := Prefix(Lower(ai), 100);
      var rec :=
        if Contains(head, "sell") then "Sell"
        else if Contains(head, "donate") then "Donate"
        else if Contains(head, "repair") then "Repair"
        else "Recycle";
      Parsed(Some(rec), Some(ai))
  }

  /** Whether the page asks for the visitor's location: the recommendation
      mentions a repair, reuse or donation in any case. */
  predicate NeedsLocation(rec: Option<string>) {
    rec.Some? && rec.value != []
    && (Contains(Lower(rec.value), "repair") || Contains(Lower(rec.value), "reuse")
        || Contains(Lower(rec.value), "donate"))
  }

  /** With the exact marker, the recommendation is the trimmed rest of the
      marker's line and the reasoning the trimmed text after the first
      marker. */
  lemma MarkedAdvice(ai: string, i: nat)
    requires OccursAt(ai, Marker, i)
    requires forall j :: 0 <= j < i ==> !OccursAt(ai, Marker, j)
    ensures ParseAdvice(ai)
      == Parsed(Some(Strip(FirstLine(ai[i + |Marker|..]))), Some(Strip(ai[i + |Marker|..])))
  {
    UpperOccurs(ai, Marker, i);
    assert Contains(Upper(ai), Marker);
    assert Find(ai, Marker) == Some(i);
  }

  /** A marker in another case only leaves both fields empty. */
  lemma MisCasedAdvice(ai: string)
    requires Contains(Upper(ai), Marker) && !Contains(ai, Marker)
    ensures ParseAdvice(ai) == Parsed(None, None)
  {
  }

  /** Without a marker, the first of sell, donate and repair found in the
      first 100 lowercased characters names the recommendation, otherwise
      Recycle; the reasoning is the whole advice. */
  lemma UnmarkedAdvice(ai: string)
    requires !Contains(Upper(ai), Marker)
    ensures ParseAdvice(ai).reasoning == Some(ai)
    ensures ParseAdvice(ai).recommendation.Some?
    ensures var rec := ParseAdvice(ai).recommendation.value;
      && (rec == "Sell" <==> Early(ai, "sell"))
      && (rec == "Donate" <==> !Early(ai, "sell") && Early(ai, "donate"))
      && (rec == "Repair" <==> !Early(ai, "sell") && !Early(ai, "donate") && Early(ai, "repair"))
      && (rec == "Recycle" <==> !Early(ai, "sell") && !Early(ai, "donate") && !Early(ai, "repair"))
  {
    var head := Prefix(Lower(ai), 100);
    EarlyIff(ai, "sell");
    EarlyIff(ai, "donate");
    EarlyIff(ai, "repair");
  }

  /** `w` occurs in the lowercased advice, ending within its first 100
      characters. */
  ghost predicate Early(ai: string, w: string) {
    exists j :: OccursAt(Lower(ai), w, j) && j + |w| <= 100
  }

  lemma EarlyIff(ai: string, w: string)
    ensures Contains(Prefix(Lower(ai), 100), w) <==> Early(ai, w)
  {
    var l := Lower(ai);
    if Contains(Prefix(l, 100), w) {
      var j := Find(Prefix(l, 100), w).value;
      PrefixOccurs(l, 100, w, j);
    }
    if Early(ai, w) {
      var j :| OccursAt(l, w, j) && j + |w| <= 100;
      PrefixOccurs(l, 100, w, j);
    }
  }

  /** Of the four fallback labels, exactly Donate and Repair ask for a
      location. */
  lemma FallbackLabels()
    ensures !NeedsLocation(Some("Sell"))
    ensures NeedsLocation(Some("Donate"))
    ensures NeedsLocation(Some("Repair"))
    ensures !NeedsLocation(Some("Recycle"))
  {
    assert Lower("Donate") == "donate";
    assert OccursAt("donate", "donate", 0);
    assert Lower("Repair") == "repair";
    assert OccursAt("repair", "repair", 0);
    var s := "recycle";
    assert Lower("Recycle") == s;
    forall w, j | w in ["repair", "reuse", "donate"] ensures !OccursAt(s, w, j) {
      if 0 <= j && j + |w| <= |s| {
        assert s[j..j + |w|][0] == s[j];
        assert s[j..j + |w|][2] == s[j + 2];
      }
    }
  }

  /** Without a marker, a location is needed exactly when the advice names
      donate or repair early and sell does not come first. */
  lemma UnmarkedNeedsLocation(ai: string)
    requires !Contains(Upper(ai), Marker)
    ensures NeedsLocation(ParseAdvice(ai).recommendation)
      <==> !Early(ai, "sell") && (Early(ai, "donate") || Early(ai, "repair"))
  {
    UnmarkedAdvice(ai);
    FallbackLabels();
  }

  // ------------------------------------------------------ device classes

  datatype Device = Phone | Laptop | Screen | OtherDevice

  const PhoneTerms: seq<string> := ["phone", "iphone", "samsung", "mobile", "smartphone", "android"]
  const LaptopTerms: seq<string> := ["laptop", "notebook", "macbook", "dell", "hp", "lenovo", "asus"]
  const ScreenTerms: seq<string> := ["tv", "television", "monitor", "display"]

  /** Whether some word of `words` occurs in `s`. */
  predicate ContainsAny(s: string, words: seq<string>) {
    words != [] && (Contains(s, words[0]) || ContainsAny(s, words[1..]))
  }

  /** The device class guessed from the lowercased model name; the phone
      terms are tried first, then laptop terms, then screen terms. */
  function Classify(model: string): (d: Device)
    ensures d == Phone <==> ContainsAny(Lower(model), PhoneTerms)
    ensures d == Laptop <==> !ContainsAny(Lower(model), PhoneTerms) && ContainsAny(Lower(model), LaptopTerms)
    ensures d == Screen <==>
      !ContainsAny(Lower(model), PhoneTerms) && !ContainsAny(Lower(model), LaptopTerms)
      && ContainsAny(Lower(model), ScreenTerms)
  {
    var m := Lower(model);
    if ContainsAny(m, PhoneTerms) then Phone
    else if ContainsAny(m, LaptopTerms) then Laptop
    else if ContainsAny(m, ScreenTerms) then Screen
    else OtherDevice
  }

  const RepairShop: string := "repair shop"

  /** The text query sent for each device class: a description of the
      device in front of "repair shop". */
  function SearchQuery(d: Device): (r: string)
    ensures EndsWith(r, RepairShop) && |r| > |RepairShop|
  {
    var device := match d
      case Phone => "mobile phone "
      case Laptop => "laptop computer "
      case Screen => "TV electronics "
      case OtherDevice => "electronics ";
    assert (device + RepairShop)[|device|..] == RepairShop;
    device + RepairShop
  }

  // --------------------------------------------------------- repair shops

  /** A place record as the place search returns it; `None` is an absent
      field. */
  datatype Place = Place(
    displayName: Option<string>, address: Option<string>, phone: Option<string>,
    rating: Option<real>, types: seq<string>)

  datatype Rating = Stars(value: real) | Label(text: string)

  /** One suggestion on the page. */
  datatype Shop = Shop(name: string, address: string, phone: string, rating: Rating)

  datatype Search = TextSearch | NearbySearch

  const RepairWords: seq<string> := ["repair", "service", "fix", "mobile", "phone", "laptop", "computer", "electronics"]
  const ExcludedWords: seq<string> := ["supermarket", "grocery", "mall", "department store", "retail"]

  /** The lowercased name used for filtering (empty when absent). */
  function NameKey(p: Place): string {
    Lower(p.displayName.GetOr([]))
  }

  /** Which places each search keeps: the text search keeps repair-like
      names and any store; the nearby search drops shopping names and keeps
      repair-like names or any typed place. */
  predicate Admits(search: Search, p: Place) {
    match search
    case TextSearch => ContainsAny(NameKey(p), RepairWords) || "electronics_store" in p.types || "store" in p.types
    case NearbySearch => !ContainsAny(NameKey(p), ExcludedWords) && (ContainsAny(NameKey(p), RepairWords) || p.types != [])
  }

  /** The suggestion made from a place, with the view's defaults. */
  function ShopOf(p: Place): Shop {
    Shop(p.displayName.GetOr("Unknown"), p.address.GetOr("Address not available"),
         p.phone.GetOr("Phone not available"),
         if p.rating.Some? then Stars(p.rating.value) else Label("N/A"))
  }

  function ShopsOf(ps: seq<Place>): (r: seq<Shop>)
    ensures |r| == |ps| && forall k :: 0 <= k < |ps| ==> r[k] == ShopOf(ps[k])
  {
    seq(|ps|, k requires 0 <= k < |ps| => ShopOf(ps[k]))
  }

  /** The admission test of a search, as a value. */
  function Keeper(search: Search): Place -> bool {
    p => Admits(search, p)
  }

  /** How many more suggestions a loop starting from `found` may add: up
      to five in all, and at least one (the loop tests the cap only after
      appending). */
  function Room(found: seq<Shop>): (n: nat)
    ensures n >= 1 && (|found| < 5 ==> |found| + n == 5)
  {
    if |found| < 5 then 5 - |found| else 1
  }

  /** What a search loop leaves when it starts from `found`: each admitted
      place appends its suggestion, and the loop stops as soon as five
      suggestions are held. */
  function Collected(found: seq<Shop>, keep: Place -> bool, ps: seq<Place>): seq<Shop>
    decreases |ps|
  {
    if ps == [] then found
    else if keep(ps[0]) then
      var more := found + [ShopOf(ps[0])];
      if |more| >= 5 then more else Collected(more, keep, ps[1..])
    else Collected(found, keep, ps[1..])
  }

  /** The loop keeps `found` and then the suggestions for the first
      admitted places, as many as there is room for. */
  lemma {:induction false} CollectedFirstAdmitted(found: seq<Shop>, keep: Place -> bool, ps: seq<Place>)
    ensures Collected(found, keep, ps) == found + ShopsOf(Take(Filter(keep, ps), Room(found)))
    decreases |ps|
  {
    if ps == [] {
      assert found + ShopsOf([]) == found;
    } else if keep(ps[0]) {
      var more := found + [ShopOf(ps[0])];
      assert Filter(keep, ps) == [ps[0]] + Filter(keep, ps[1..]);
      if |more| >= 5 {
        assert Room(found) == 1;
        assert Take(Filter(keep, ps), 1) == [ps[0]];
        assert ShopsOf([ps[0]]) == [ShopOf(ps[0])];
        assert Collected(found, keep, ps) == more;
      } else {
        CollectedFirstAdmitted(more, keep, ps[1..]);
        assert Room(more) == Room(found) - 1;
        var t := Take(Filter(keep, ps[1..]), Room(more));
        assert Take(Filter(keep, ps), Room(found)) == [ps[0]] + t;
        assert ShopsOf([ps[0]] + t) == [ShopOf(ps[0])] + ShopsOf(t);
        assert Collected(found, keep, ps) == Collected(more, keep, ps[1..]);
        AppendAssoc(found, [ShopOf(ps[0])], ShopsOf(t));
      }
    } else {
      assert Filter(keep, ps) == Filter(keep, ps[1..]);
      CollectedFirstAdmitted(found, keep, ps[1..]);
    }
  }

  lemma AppendAssoc<T>(a: seq<T>, b: seq<T>, c: seq<T>)
    ensures (a + b) + c == a + (b + c)
  {
  }

  /** The filtering loop over one search's places, appending admitted
      places and stopping once five suggestions are held. */
  method Collect(found: seq<Shop>, keep: Place -> bool, ps: seq<Place>) returns (r: seq<Shop>)
    ensures r == Collected(found, keep, ps)
  {
    r := found;
    var i := 0;
    while i < |ps|
      invariant 0 <= i <= |ps|
      invariant Collected(r, keep, ps[i..]) == Collected(found, keep, ps)
    {
      assert ps[i..][0] == ps[i] && ps[i..][1..] == ps[i + 1..];
      if keep(ps[i]) {
        r := r + [ShopOf(ps[i])];
        if |r| >= 5 {
          return;
        }
      }
      i := i + 1;
    }
  }

  /** Starting below the cap, a search loop never ends above five and
      keeps what it had. */
  lemma CollectedBounds(found: seq<Shop>, keep: Place -> bool, ps: seq<Place>)
    requires |found| < 5
    ensures |found| <= |Collected(found, keep, ps)| <= 5
    ensures Collected(found, keep, ps)[..|found|] == found
  {
    CollectedFirstAdmitted(found, keep, ps);
    var shops := ShopsOf(Take(Filter(keep, ps), Room(found)));
    assert (found + shops)[..|found|] == found;
  }

  /** Every suggestion a search loop adds is made from an admitted place
      of that search. */
  lemma CollectedAdmitted(found: seq<Shop>, keep: Place -> bool, ps: seq<Place>, k: nat)
    requires |found| <= k < |Collected(found, keep, ps)|
    ensures exists p :: p in ps && keep(p) && Collected(found, keep, ps)[k] == ShopOf(p)
  {
    CollectedFirstAdmitted(found, keep, ps);
    var f := Filter(keep, ps);
    var a := Take(f, Room(found));
    FilterFrom(keep, ps);
    var j := k - |found|;
    assert a[j] == f[j];
    assert f[j] in ps && keep(f[j]);
    assert Collected(found, keep, ps)[k] == ShopOf(f[j]);
  }

  const Placeholder: seq<Shop> :=
    [Shop("Enable location to find nearby shops", "Click 'Use my location' button", "", Label(""))]
  const MockShops: seq<Shop> := [
    Shop("QuickFix Mobiles", "Near your location", "+91 90000 11111", Label("4.2")),
    Shop("City Laptop Care", "Electronics repair", "+91 98888 22222", Label("4.5")),
    Shop("Green Repair Hub", "Device servicing", "+91 97777 33333", Label("4.0"))]

  /** A reply of the place service: the places of a 200 reply with a
      `places` list, or `None` when the request failed in any way. */
  type Reply = Option<seq<Place>>

  function PlacesOf(reply: Reply): seq<Place> {
    reply.GetOr([])
  }

  /** The suggestions for a visitor who needs a location: `lat` and `lng`
      are the posted coordinates (empty when absent) and `apiKey` the
      configured key (empty when unset). */
  function Suggestions(lat: string, lng: string, apiKey: string, textReply: Reply, nearbyReply: Reply): (r: seq<Shop>)
    ensures r != []
    ensures (lat == [] || lng == [] || apiKey == [] || PyFloat(lat).None? || PyFloat(lng).None?) ==>
              r == Placeholder || r == MockShops || r == MockShops[..2]
  {
    if lat == [] || lng == [] then Placeholder
    else if apiKey == [] then MockShops
    else if PyFloat(lat).None? || PyFloat(lng).None? then MockShops[..2]
    else
      var fromText := Collected([], Keeper(TextSearch), PlacesOf(textReply));
      var all := if |fromText| < 3 then Collected(fromText, Keeper(NearbySearch), PlacesOf(nearbyReply)) else fromText;
      if all == [] then MockShops else all
  }

  /** The same, with the two filtering loops run as methods. */
  method FindShops(lat: string, lng: string, apiKey: string, textReply: Reply, nearbyReply: Reply)
    returns (shops: seq<Shop>)
    ensures shops == Suggestions(lat, lng, apiKey, textReply, nearbyReply)
  {
    if lat == [] || lng == [] {
      return Placeholder;
    }
    if apiKey == [] {
      return MockShops;
    }
    if PyFloat(lat).None? || PyFloat(lng).None? {
      return MockShops[..2];
    }
    shops := Collect([], Keeper(TextSearch), PlacesOf(textReply));
    if |shops| < 3 {
      shops := Collect(shops, Keeper(NearbySearch), PlacesOf(nearbyReply));
    }
    if shops == [] {
      shops := MockShops;
    }
  }

  /** The page always lists between one and five suggestions. */
  lemma SuggestionsCount(lat: string, lng: string, apiKey: string, textReply: Reply, nearbyReply: Reply)
    ensures 1 <= |Suggestions(lat, lng, apiKey, textReply, nearbyReply)| <= 5
  {
    var fromText := Collected([], Keeper(TextSearch), PlacesOf(textReply));
    CollectedBounds([], Keeper(TextSearch), PlacesOf(textReply));
    var all := if |fromText| < 3 then Collected(fromText, Keeper(NearbySearch), PlacesOf(nearbyReply)) else fromText;
    if |fromText| < 3 {
      CollectedBounds(fromText, Keeper(NearbySearch), PlacesOf(nearbyReply));
    }
    assert |all| <= 5;
    assert |MockShops| == 3 && |MockShops[..2]| == 2 && |Placeholder| == 1;
  }

  /** The nearby search is consulted only when the text search kept fewer
      than three places. */
  lemma NearbyOnlyWhenShort(lat: string, lng: string, apiKey: string, textReply: Reply, nearbyReply: Reply, other: Reply)
    requires |Collected([], Keeper(TextSearch), PlacesOf(textReply))| >= 3
    ensures Suggestions(lat, lng, apiKey, textReply, nearbyReply) == Suggestions(lat, lng, apiKey, textReply, other)
  {
  }

  // --------------------------------------------------------------- page

  /** The rendered page. */
  datatype Page = Page(recommendation: Option<string>, reasoning: Option<string>,
                       shops: seq<Shop>, needsLocation: bool)

  /** The prompt sent to the generator; missing fields get defaults. */
  function AdvicePrompt(model: string, age: string, condition: string): (r: string)
    ensures StartsWith(r, "For a " + (if model == [] then "electronic device" else model) + " that is ")
  {
    var head := "For a " + (if model == [] then "electronic device" else model) + " that is ";
    var tail := (if age == [] then "unknown" else age) + AgeTail
      + (if condition == [] then "unspecified" else condition) + PromptTail;
    assert (head + tail)[..|head|] == head;
    head + tail
  }

  const AgeTail: string := " years old with condition: "
  const PromptTail: string := ", recommend the best action: SELL, DONATE, REPAIR, or RECYCLE. "
    + "Format your response as: 'RECOMMENDATION: [Action]' on first line, "
    + "then 2-3 sentences explaining why this is best, considering age, condition, and environmental impact."

  /** The view. A GET shows an empty page; a POST asks `answer` for advice
      on the trimmed model, age and lowercased condition, parses it and,
      when a location is needed, gathers suggestions. */
  method ReuseMarketplace(isPost: bool, model: string, condition: string, age: string,
                          lat: string, lng: string, apiKey: string, answer: string -> string,
                          textReply: Reply, nearbyReply: Reply)
    returns (page: Page)
    ensures !isPost ==> page == Page(None, None, [], false)
    ensures isPost ==>
      var parsed := ParseAdvice(answer(AdvicePrompt(Strip(model), Strip(age), Lower(Strip(condition)))));
      && page.recommendation == parsed.recommendation && page.reasoning == parsed.reasoning
      && page.needsLocation == NeedsLocation(parsed.recommendation)
      && (page.needsLocation ==> page.shops == Suggestions(lat, lng, apiKey, textReply, nearbyReply))
      && (!page.needsLocation ==> page.shops == [])
  {
    if !isPost {
      return Page(None, None, [], false);
    }
    var advice := answer(AdvicePrompt(Strip(model), Strip(age), Lower(Strip(condition))));
    var parsed := ParseAdvice(advice);
    var shops: seq<Shop> := [];
    var needs := NeedsLocation(parsed.recommendation);
    if needs {
      shops := FindShops(lat, lng, apiKey, textReply, nearbyReply);
    }
    page := Page(parsed.recommendation, parsed.reasoning, shops, needs);
  }
}

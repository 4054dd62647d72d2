/** The urban-mining value estimator (`value_estimator` in core/views.py):
    grams and per-gram prices of gold, copper and silver are read from the
    generated answer with six search patterns, missing readings keep their
    defaults, and the summed value is depreciated by age. The patterns are
    written out below as hand-made matchers; each behaves as Python's
    `re.search` with `re.IGNORECASE` does on them when digits are read as
    the ASCII digits 0 to 9 (Python's `\d` also takes other Unicode
    decimal digits, which these matchers do not). */
module Valuation {
  import opened Wrappers
  import opened Text
  import opened Numbers
  import opened Seqs

  datatype Metal = Gold | Copper | Silver

  /** The metal's name as it appears in the patterns, lowercased. */
  function Key(m: Metal): (r: string)
    ensures r != [] && Lower(r) == r
  {
    match m
    case Gold => "gold"
    case Copper => "copper"
    case Silver => "silver"
  }

  // ---------------------------------------------------------- matching

  /** `[:\s]`, `[\d.]` and `[\d,]`. */
  predicate IsSep(c: char) { c == ':' || IsSpace(c) }
  predicate IsDecimalChar(c: char) { IsDigit(c) || c == '.' }
  predicate IsDigitOrComma(c: char) { IsDigit(c) || c == ',' }

  /** The end of the longest run of `cls` characters starting at `i`: what
      a greedy `cls*` consumes. */
  function RunEnd(s: string, i: nat, cls: char -> bool): (e: nat)
    requires i <= |s|
    ensures i <= e <= |s|
    ensures forall k :: i <= k < e ==> cls(s[k])
    ensures e < |s| ==> !cls(s[e])
    decreases |s| - i
  {
    if i < |s| && cls(s[i]) then RunEnd(s, i + 1, cls) else i
  }

  /** A run is determined by where it starts. */
  lemma RunEndUnique(s: string, i: nat, cls: char -> bool, e: nat)
    requires i <= e <= |s|
    requires forall k :: i <= k < e ==> cls(s[k])
    requires e < |s| ==> !cls(s[e])
    ensures RunEnd(s, i, cls) == e
  {
  }

  /** The two patterns per metal: `<Metal>[:\s]+([\d.]+)\s*g` for grams and
      `<Metal>[:\s]+â‚¹?(<digits>+)` for the price, where `<digits>` is
      `[\d,]` for gold and `[\d.]` otherwise. */
  datatype Pattern = Grams(metal: Metal) | Price(metal: Metal)

  /** The character class of the captured group. */
  function Captures(p: Pattern): char -> bool {
    if p == Price(Gold) then IsDigitOrComma else IsDecimalChar
  }

  /** `â` of the mis-encoded currency sign, in either case. */
  predicate IsCurrencyLead(c: char) { c == 'â' || c == 'Â' }

  /** The rest of the grams pattern once the name is matched up to `a`:
      `[:\s]+([\d.]+)\s*g`. */
  function GramsAfter(s: string, a: nat): (r: Option<string>)
    requires a <= |s|
    ensures r.Some? ==> r.value != [] && forall k :: 0 <= k < |r.value| ==> IsDecimalChar(r.value[k])
  {
    var b := RunEnd(s, a, IsSep);
    var c := RunEnd(s, b, IsDecimalChar);
    var d := RunEnd(s, c, IsSpace);
    if b > a && c > b && d < |s| && LowerChar(s[d]) == 'g' then
      assert forall k :: 0 <= k < c - b ==> s[b..c][k] == s[b + k];
      Some(s[b..c])
    else None
  }

  /** The rest of a price pattern once the name is matched up to `a`:
      `[:\s]+â‚¹?(<digits>+)`. */
  function PriceAfter(s: string, a: nat, digits: char -> bool): (r: Option<string>)
    requires a <= |s|
    ensures r.Some? ==> r.value != [] && forall k :: 0 <= k < |r.value| ==> digits(r.value[k])
  {
    var b := RunEnd(s, a, IsSep);
    if b > a && b + 2 <= |s| && IsCurrencyLead(s[b]) && s[b + 1] == '‚' then
      var c := if b + 2 < |s| && s[b + 2] == '¹' then b + 3 else b + 2;
      var e := RunEnd(s, c, digits);
      if e > c then
        assert forall k :: 0 <= k < e - c ==> s[c..e][k] == s[c + k];
        Some(s[c..e])
      else None
    else None
  }

  /** The group a pattern captures when its match starts at `j`, if one
      does. */
  function MatchAt(s: string, j: nat, p: Pattern): (r: Option<string>)
    requires j <= |s|
    ensures r.Some? ==> OccursAt(Lower(s), Key(p.metal), j)
    ensures r.Some? ==> r.value != [] && forall k :: 0 <= k < |r.value| ==> Captures(p)(r.value[k])
  {
    if !OccursAt(Lower(s), Key(p.metal), j) then None
    else if p.Grams? then GramsAfter(s, j + |Key(p.metal)|)
    else PriceAfter(s, j + |Key(p.metal)|, Captures(p))
  }

  /** `re.search`'s scan: the first position from `i` up to `n` at which
      `at` reports a match. */
  function FirstFrom(at: nat -> Option<string>, i: nat, n: nat): (r: Option<nat>)
    requires i <= n
    ensures r.Some? ==> i <= r.value <= n && at(r.value).Some?
    ensures r.Some? ==> forall j :: i <= j < r.value ==> at(j).None?
    ensures r.None? ==> forall j :: i <= j <= n ==> at(j).None?
    decreases n - i
  {
    if at(i).Some? then Some(i)
    else if i == n then None
    else FirstFrom(at, i + 1, n)
  }

  /** The pattern tried at each position of `s`. */
  function Matcher(s: string, p: Pattern): nat -> Option<string> {
    (j: nat) => if j <= |s| then MatchAt(s, j, p) else None
  }

  /** The captured group of the first match in the whole text. */
  function Search(s: string, p: Pattern): (r: Option<string>)
    ensures r.Some? <==> exists j :: 0 <= j <= |s| && MatchAt(s, j, p).Some?
    ensures r.Some? ==> exists j :: 0 <= j <= |s| && MatchAt(s, j, p) == r
                                 && forall i :: 0 <= i < j ==> MatchAt(s, i, p).None?
  {
    var at := Matcher(s, p);
    match FirstFrom(at, 0, |s|)
    case Some(j) =>
      assert forall i :: 0 <= i < j ==> MatchAt(s, i, p) == at(i);
      MatchAt(s, j, p)
    case None =>
      assert forall i :: 0 <= i <= |s| ==> MatchAt(s, i, p) == at(i);
      None
  }

  // ---------------------------------------------------------- readings

  /** The three amounts the estimator keeps per metal. */
  datatype Amounts = Amounts(gold: real, copper: real, silver: real) {
    function Of(m: Metal): real {
      match m
      case Gold => gold
      case Copper => copper
      case Silver => silver
    }
  }

  const DefaultPrices: Amounts := Amounts(7000.0, 0.9, 90.0)

  /** The text converted to a number: the gold price has its commas
      removed first. */
  function Cleaned(p: Pattern, captured: string): string {
    if p.Price? && p.metal != Copper then Filter((c: char) => c != ',', captured) else captured
  }

  /** One reading: the default when the pattern does not match, otherwise
      the captured group converted with `float`, which fails (`None`) on
      text such as "." or "1.2.3". */
  function Reading(s: string, p: Pattern, default: real): (r: Option<real>)
  {
    match Search(s, p)
    case None => Some(default)
    case Some(g) => PyFloat(Cleaned(p, g))
  }

  /** A captured group, once cleaned, holds only digits and points. */
  lemma CleanedNumeric(p: Pattern, g: string)
    requires forall k :: 0 <= k < |g| ==> Captures(p)(g[k])
    ensures forall k :: 0 <= k < |Cleaned(p, g)| ==> IsDecimalChar(Cleaned(p, g)[k])
  {
    if p.Price? && p.metal != Copper {
      var keep := (c: char) => c != ',';
      FilterFrom(keep, g);
      forall k | 0 <= k < |Cleaned(p, g)| ensures IsDecimalChar(Cleaned(p, g)[k]) {
        var c := Cleaned(p, g)[k];
        assert c in g && c != ',';
      }
    }
  }

  /** `float` of digits and points is never negative. */
  lemma NumericNonNegative(t: string)
    requires forall k :: 0 <= k < |t| ==> IsDecimalChar(t[k])
    ensures PyFloat(t).Some? ==> PyFloat(t).value >= 0.0
  {
    if t != [] {
      StripTrimmed(t);
    }
  }

  /** No reading is negative when its default is not. */
  lemma ReadingNonNegative(s: string, p: Pattern, default: real)
    requires default >= 0.0
    ensures Reading(s, p, default).Some? ==> Reading(s, p, default).value >= 0.0
  {
    if Search(s, p).Some? {
      var g := Search(s, p).value;
      CleanedNumeric(p, g);
      NumericNonNegative(Cleaned(p, g));
    }
  }

  /** All six readings, in the order the view takes them; the first
      failing conversion aborts the request. */
  function Readings(s: string): (r: Option<(Amounts, Amounts)>)
    ensures r.Some? && Search(s, Price(Gold)).None? ==> r.value.1.gold == 7000.0
    ensures r.Some? && Search(s, Price(Copper)).None? ==> r.value.1.copper == 0.9
    ensures r.Some? && Search(s, Price(Silver)).None? ==> r.value.1.silver == 90.0
  {
    var gg := Reading(s, Grams(Gold), 0.0);
    var gp := Reading(s, Price(Gold), 7000.0);
    var cg := Reading(s, Grams(Copper), 0.0);
    var cp := Reading(s, Price(Copper), 0.9);
    var sg := Reading(s, Grams(Silver), 0.0);
    var sp := Reading(s, Price(Silver), 90.0);
    if gg.None? || gp.None? || cg.None? || cp.None? || sg.None? || sp.None? then None
    else Some((Amounts(gg.value, cg.value, sg.value), Amounts(gp.value, cp.value, sp.value)))
  }

  /** When all readings succeed, each metal's grams and price are its own
      readings: the default unless its pattern matches. */
  lemma ReadingsOf(s: string, m: Metal)
    requires Readings(s).Some?
    ensures Reading(s, Grams(m), 0.0) == Some(Readings(s).value.0.Of(m))
    ensures Reading(s, Price(m), DefaultPrices.Of(m)) == Some(Readings(s).value.1.Of(m))
    ensures Readings(s).value.0.Of(m) >= 0.0 && Readings(s).value.1.Of(m) >= 0.0
  {
    ReadingNonNegative(s, Grams(m), 0.0);
    ReadingNonNegative(s, Price(m), DefaultPrices.Of(m));
  }

  /** No reading is negative. */
  lemma ReadingsNonNegative(s: string)
    requires Readings(s).Some?
    ensures var (g, p) := Readings(s).value;
      g.gold >= 0.0 && g.copper >= 0.0 && g.silver >= 0.0
      && p.gold >= 0.0 && p.copper >= 0.0 && p.silver >= 0.0
  {
    ReadingNonNegative(s, Grams(Gold), 0.0);
    ReadingNonNegative(s, Price(Gold), 7000.0);
    ReadingNonNegative(s, Grams(Copper), 0.0);
    ReadingNonNegative(s, Price(Copper), 0.9);
    ReadingNonNegative(s, Grams(Silver), 0.0);
    ReadingNonNegative(s, Price(Silver), 90.0);
  }

  /** The readings fail exactly when one of them fails. */
  lemma ReadingsFail(s: string)
    ensures Readings(s).None? <==> exists m: Metal ::
      Reading(s, Grams(m), 0.0).None? || Reading(s, Price(m), DefaultPrices.Of(m)).None?
  {
    if Readings(s).Some? {
      forall m: Metal ensures Reading(s, Grams(m), 0.0).Some? && Reading(s, Price(m), DefaultPrices.Of(m)).Some? {
        ReadingsOf(s, m);
      }
    }
  }

  // -------------------------------------------------------- the estimate

  /** `max(0.3, 1 - 0.05 * age)`: five percent per year, at least 30%. */
  function Depreciation(age: real): (f: real)
    ensures f >= 3.0 / 10.0
    ensures f == 3.0 / 10.0 || f == 1.0 - age / 20.0
  {
    var linear := 1.0 - age * (5.0 / 100.0);
    if linear < 3.0 / 10.0 then 3.0 / 10.0 else linear
  }

  /** The factor is 1 for a new device, within [0.3, 1] for any age that
      is not negative, exactly 0.3 from fourteen years on, and never grows
      with age. */
  lemma DepreciationBounds(age: real, older: real)
    ensures Depreciation(0.0) == 1.0
    ensures age >= 0.0 ==> 3.0 / 10.0 <= Depreciation(age) <= 1.0
    ensures age >= 14.0 ==> Depreciation(age) == 3.0 / 10.0
    ensures age <= 14.0 ==> Depreciation(age) == 1.0 - age / 20.0
    ensures age <= older ==> Depreciation(older) <= Depreciation(age)
  {
  }

  /** Scaling by a factor in [0.3, 1] keeps a value within [0.3, 1] of
      itself. */
  lemma ScaleBounds(v: real, f: real)
    requires v >= 0.0 && 3.0 / 10.0 <= f <= 1.0
    ensures 3.0 / 10.0 * v <= v * f <= v
  {
    assert v * f - 3.0 / 10.0 * v == v * (f - 3.0 / 10.0);
    assert v - v * f == v * (1.0 - f);
  }

  /** What the page shows; the two values are not rounded here. */
  datatype Estimate = Estimate(model: string, age: real, grams: Amounts, prices: Amounts,
                               baseValue: real, payout: real)

  /** The value of the metals at the given prices. */
  function BaseValue(grams: Amounts, prices: Amounts): (v: real)
    ensures grams.gold >= 0.0 && grams.copper >= 0.0 && grams.silver >= 0.0 ==>
            prices.gold >= 0.0 && prices.copper >= 0.0 && prices.silver >= 0.0 ==> v >= 0.0
  {
    grams.gold * prices.gold + grams.copper * prices.copper + grams.silver * prices.silver
  }

  /** `float((age or '0').strip() or 0)`: a missing or blank age is zero
      (the text "0" and the number 0 both convert to it); otherwise the
      trimmed text is converted. */
  function Age(age: string): (r: Option<real>)
    ensures Strip(age) == [] ==> r == Some(0.0)
    ensures Strip(age) != [] ==> r == PyFloat(age)
  {
    if Strip(age) == [] then Some(0.0)
    else
      StripIdempotent(age);
      PyFloat(Strip(age))
  }

  /** The estimate made from the readings. */
  function Valued(model: string, age: real, grams: Amounts, prices: Amounts): (e: Estimate)
    ensures e.model == model && e.age == age && e.grams == grams && e.prices == prices
    ensures e.baseValue == BaseValue(grams, prices)
    ensures e.payout == e.baseValue * Depreciation(age)
  {
    var base := BaseValue(grams, prices);
    Estimate(model, age, grams, prices, base, base * Depreciation(age))
  }

  /** The estimate for an answer `response`, or `None` when a conversion
      fails. */
  function EstimateOf(model: string, age: real, response: string): (r: Option<Estimate>)
    ensures r.Some? <==> Readings(response).Some?
  {
    match Readings(response)
    case None => None
    case Some(amounts) => Some(Valued(model, age, amounts.0, amounts.1))
  }

  /** Made from readings that are not negative, the metal value is not
      negative, and for a device of some age the payout lies between 30%
      and 100% of it. */
  lemma ValuedBounds(model: string, age: real, grams: Amounts, prices: Amounts)
    requires grams.gold >= 0.0 && grams.copper >= 0.0 && grams.silver >= 0.0
    requires prices.gold >= 0.0 && prices.copper >= 0.0 && prices.silver >= 0.0
    ensures Valued(model, age, grams, prices).baseValue >= 0.0
    ensures age >= 0.0 ==> var e := Valued(model, age, grams, prices);
      3.0 / 10.0 * e.baseValue <= e.payout <= e.baseValue
  {
    var e := Valued(model, age, grams, prices);
    assert e.baseValue >= 0.0;
    if age >= 0.0 {
      var f := Depreciation(age);
      DepreciationBounds(age, age);
      assert 3.0 / 10.0 <= f <= 1.0;
      ScaleBounds(e.baseValue, f);
      assert e.payout == e.baseValue * f;
      assert e.baseValue * f <= e.baseValue;
      assert e.payout <= e.baseValue;
    }
  }

  /** The view accepts a negative age: "-n" converts to -n years. */
  lemma NegativeAge(n: nat)
    ensures Age("-" + NatToString(n)) == Some(-(n as real))
  {
    PyFloatOfNat(n);
  }

  /** A negative age gives a factor above 1, so a device with some metal
      value is paid more than that value. */
  lemma NegativeAgeOverpays(model: string, age: real, grams: Amounts, prices: Amounts)
    requires age < 0.0
    ensures Depreciation(age) == 1.0 - age / 20.0 > 1.0
    ensures var e := Valued(model, age, grams, prices);
      e.baseValue > 0.0 ==> e.payout > e.baseValue
  {
    var e := Valued(model, age, grams, prices);
    var f := Depreciation(age);
    assert f == 1.0 - age / 20.0;
    if e.baseValue > 0.0 {
      Overpay(e.baseValue, f);
    }
  }

  lemma Overpay(v: real, f: real)
    requires v > 0.0 && f > 1.0
    ensures v * f > v
  {
    assert v * f - v == v * (f - 1.0);
  }

  /** Hence every estimate the view shows has these bounds. */
  lemma EstimateBounds(model: string, age: real, response: string)
    requires EstimateOf(model, age, response).Some?
    ensures EstimateOf(model, age, response).value.baseValue >= 0.0
    ensures age >= 0.0 ==> var e := EstimateOf(model, age, response).value;
      3.0 / 10.0 * e.baseValue <= e.payout <= e.baseValue
  {
    var (g, p) := Readings(response).value;
    ReadingsNonNegative(response);
    ValuedBounds(model, age, g, p);
  }

  /** What the view ends in: nothing to show, a failed request (an
      uncaught `ValueError`), or an estimate. */
  datatype Outcome = NoResult | ServerError | Shown(estimate: Estimate)

  /** The view. `answer` stands for the text generator asked about the
      trimmed model name and the parsed age. */
  function View(isPost: bool, model: string, age: string, answer: (string, real) -> string): (r: Outcome)
    ensures !isPost <==> r.NoResult?
    ensures isPost && Age(age).None? ==> r.ServerError?
    ensures isPost && Age(age).Some? ==>
      (r.ServerError? <==> Readings(answer(Strip(model), Age(age).value)).None?)
    ensures r.Shown? ==> r.estimate.model == Strip(model) && Some(r.estimate.age) == Age(age)
    ensures r.Shown? ==> r.estimate.baseValue >= 0.0
    ensures r.Shown? && r.estimate.age >= 0.0 ==>
      3.0 / 10.0 * r.estimate.baseValue <= r.estimate.payout <= r.estimate.baseValue
  {
    if !isPost then NoResult
    else match Age(age)
      case None => ServerError
      case Some(years) =>
        match EstimateOf(Strip(model), years, answer(Strip(model), years))
        case None => ServerError
        case Some(e) =>
          EstimateBounds(Strip(model), years, answer(Strip(model), years));
          Shown(e)
  }

  // ---------------------------------------------------------- properties

  /** A grams entry in the format the prompt asks for, `<Metal>: <d> g`. */
  function GramsLine(name: string, d: string): string {
    name + ": " + d + " g"
  }

  /** Where the pieces of an entry sit when `pre` stands before it. */
  lemma EntryShape(pre: string, name: string, d: string, rest: string)
    ensures var s := pre + GramsLine(name, d) + rest; var a := |pre| + |name|;
      && a + |d| + 4 <= |s| && s[|pre|..a] == name
      && s[a] == ':' && s[a + 1] == ' ' && s[a + 2..a + 2 + |d|] == d
      && s[a + 2 + |d|] == ' ' && s[a + 3 + |d|] == 'g'
  {
    var e := GramsLine(name, d);
    var s := pre + e + rest;
    var a := |pre| + |name|;
    assert |e| == |name| + |d| + 4;
    assert forall i :: 0 <= i < |e| ==> s[|pre| + i] == e[i];
    assert e[|name|] == ':' && e[|name| + 1] == ' ';
    assert e[|name| + 2 + |d|] == ' ' && e[|name| + 3 + |d|] == 'g';
    assert forall i :: 0 <= i < |d| ==> e[|name| + 2 + i] == d[i];
    assert s[|pre|..a] == name;
    assert s[a + 2..a + 2 + |d|] == d;
  }

  /** The name of the metal, in any case, sits at position `|pre|`. */
  lemma NameOpens(m: Metal, pre: string, name: string, d: string, rest: string)
    requires Lower(name) == Key(m)
    ensures var s := pre + GramsLine(name, d) + rest;
      |pre| + |name| <= |s| && OccursAt(Lower(s), Key(m), |pre|)
  {
    var s := pre + GramsLine(name, d) + rest;
    EntryShape(pre, name, d, rest);
    LowerInfix(s, |pre|, |pre| + |name|);
  }

  /** After the name: a colon, a space, digits and points, a space and
      `g`. */
  lemma GramsAfterEntry(s: string, a: nat, d: string)
    requires d != [] && (forall k :: 0 <= k < |d| ==> IsDecimalChar(d[k])) && a + |d| + 4 <= |s|
    requires s[a] == ':' && s[a + 1] == ' ' && s[a + 2..a + 2 + |d|] == d
    requires s[a + 2 + |d|] == ' ' && s[a + 3 + |d|] == 'g'
    ensures GramsAfter(s, a) == Some(d)
  {
    var c := a + 2 + |d|;
    assert forall k :: a + 2 <= k < c ==> s[k] == d[k - a - 2];
    RunEndUnique(s, a, IsSep, a + 2);
    RunEndUnique(s, a + 2, IsDecimalChar, c);
    RunEndUnique(s, c, IsSpace, c + 1);
  }

  /** A grams entry `<Metal>: <d> g`, with `d` a run of digits and points
      such as "12" or "0.35" and the name in any case, matches the grams
      pattern wherever it stands and captures `d`. */
  lemma GramsEntryMatch(m: Metal, pre: string, name: string, d: string, rest: string)
    requires Lower(name) == Key(m)
    requires d != [] && forall k :: 0 <= k < |d| ==> IsDecimalChar(d[k])
    ensures var s := pre + GramsLine(name, d) + rest;
      |pre| <= |s| && MatchAt(s, |pre|, Grams(m)) == Some(d)
  {
    var s := pre + GramsLine(name, d) + rest;
    NameOpens(m, pre, name, d, rest);
    EntryShape(pre, name, d, rest);
    var a := |pre| + |name|;
    assert a == |pre| + |Key(m)|;
    GramsAfterEntry(s, a, d);
    GramsMatchAt(s, |pre|, m, d, a);
  }

  lemma GramsMatchAt(s: string, j: nat, m: Metal, d: string, a: nat)
    requires a == j + |Key(m)| && a <= |s| && OccursAt(Lower(s), Key(m), j)
    requires GramsAfter(s, a) == Some(d)
    ensures MatchAt(s, j, Grams(m)) == Some(d)
  {
  }

  /** The grams entry is not read as a price: after the name and its
      separators the price pattern needs the currency sign, not a digit
      or a point. */
  lemma GramsEntryIsNoPrice(m: Metal, pre: string, name: string, d: string, rest: string)
    requires Lower(name) == Key(m)
    requires d != [] && forall k :: 0 <= k < |d| ==> IsDecimalChar(d[k])
    ensures var s := pre + GramsLine(name, d) + rest;
      |pre| <= |s| && MatchAt(s, |pre|, Price(m)).None?
  {
    var s := pre + GramsLine(name, d) + rest;
    EntryShape(pre, name, d, rest);
    var a := |pre| + |name|;
    assert |Key(m)| == |name|;
    assert s[a + 2..a + 2 + |d|][0] == d[0];
    assert s[a + 2] == d[0] && IsDecimalChar(d[0]);
    RunEndUnique(s, a, IsSep, a + 2);
    NoPriceAfter(s, a, Captures(Price(m)));
  }

  /** Without the sign after the separators, no price follows. */
  lemma NoPriceAfter(s: string, a: nat, digits: char -> bool)
    requires a <= |s|
    requires RunEnd(s, a, IsSep) < |s| && !IsCurrencyLead(s[RunEnd(s, a, IsSep)])
    ensures PriceAfter(s, a, digits).None?
  {
  }

  /** An answer opening with such an entry reports the grams `float`
      makes of `d`: "<Metal>: 0.35 g" reads 0.35, "<Metal>: 12 g" reads
      12, and a run such as "1.2.3" fails the request. */
  lemma GramsEntry(m: Metal, name: string, d: string, rest: string)
    requires Lower(name) == Key(m)
    requires d != [] && forall k :: 0 <= k < |d| ==> IsDecimalChar(d[k])
    ensures Reading(GramsLine(name, d) + rest, Grams(m), 0.0) == PyFloat(d)
  {
    var s := GramsLine(name, d) + rest;
    GramsEntryMatch(m, [], name, d, rest);
    assert [] + GramsLine(name, d) == GramsLine(name, d);
    assert Matcher(s, Grams(m))(0) == Some(d);
  }

  /** In particular a whole number of grams is read as itself. */
  lemma GramsEntryWhole(m: Metal, name: string, n: nat, rest: string)
    requires Lower(name) == Key(m)
    ensures Reading(GramsLine(name, NatToString(n)) + rest, Grams(m), 0.0) == Some(n as real)
  {
    GramsEntry(m, name, NatToString(n), rest);
    PyFloatOfNat(n);
  }

  /** The price patterns require the mis-encoded currency sign: an answer
      without `â` or `Â` leaves every price at its default. */
  lemma PricesNeedEncodedSign(s: string, m: Metal)
    requires forall k :: 0 <= k < |s| ==> !IsCurrencyLead(s[k])
    ensures Reading(s, Price(m), DefaultPrices.Of(m)) == Some(DefaultPrices.Of(m))
  {
    forall j | 0 <= j <= |s| ensures MatchAt(s, j, Price(m)).None? {
      NoPriceWithoutSign(s, j, m);
    }
  }

  lemma NoPriceWithoutSign(s: string, j: nat, m: Metal)
    requires j <= |s|
    requires forall k :: 0 <= k < |s| ==> !IsCurrencyLead(s[k])
    ensures MatchAt(s, j, Price(m)).None?
  {
    if OccursAt(Lower(s), Key(m), j) {
      var b := RunEnd(s, j + |Key(m)|, IsSep);
      if b < |s| {
        assert !IsCurrencyLead(s[b]);
      }
    }
  }
}

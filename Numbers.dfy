/** Python's `float(s)` on the decimal forms the application meets
    (request parameters and digits captured from generated text), and the
    rounding used for credit points. A failed conversion, Python's
    `ValueError`, is `None`. */
module Numbers {
  import opened Wrappers
  import opened Text

  /** `float(s)` for an unsigned decimal: digits with at most one point and
      at least one digit, such as "12", "1.", ".5" or "3.25". */
  function Decimal(s: string): (r: Option<real>)
    ensures r.Some? ==> r.value >= 0.0
    ensures r.Some? ==> s != [] && forall i :: 0 <= i < |s| ==> IsDigit(s[i]) || s[i] == '.'
  {
    match Partition(s, ".")
    case None =>
      if s != [] && AllDigits(s) then Some(DigitsValue(s) as real) else None
    case Some((whole, frac)) =>
      if AllDigits(whole) && AllDigits(frac) && (whole != [] || frac != []) then
        assert forall i :: |whole| < i < |s| ==> s[i] == frac[i - |whole| - 1];
        Some(DigitsValue(whole) as real + DigitsValue(frac) as real / Pow10(|frac|) as real)
      else None
  }

  /** `float(s)`: surrounding whitespace is ignored and one sign is allowed. */
  function PyFloat(s: string): (r: Option<real>)
    ensures r.Some? ==> Strip(s) != []
  {
    var t := Strip(s);
    if t != [] && t[0] == '-' then
      match Decimal(t[1..])
      case Some(v) => Some(-v)
      case None => None
    else if t != [] && t[0] == '+' then Decimal(t[1..])
    else Decimal(t)
  }

  /** A rendered whole number converts back to itself. */
  lemma DecimalOfNat(n: nat)
    ensures Decimal(NatToString(n)) == Some(n as real)
  {
    var s := NatToString(n);
    NatToStringRoundTrip(n);
  }

  /** A lone point or a second point is not a number. */
  lemma DecimalRejects()
    ensures Decimal(".") == None
    ensures Decimal("") == None
    ensures Decimal("1.2.3") == None
  {
    assert OccursAt(".", ".", 0);
    assert Partition(".", ".") == Some(([], []));
    var s := "1.2.3";
    assert OccursAt(s, ".", 1);
    assert s[0..1][0] == '1';
    assert Find(s, ".") == Some(1);
    assert s[..1] == "1" && s[2..] == "2.3";
    assert Partition(s, ".") == Some(("1", "2.3"));
    assert !IsDigit("2.3"[1]);
  }

  /** A rendered whole number converts to itself, and a minus sign in
      front negates it. */
  lemma PyFloatOfNat(n: nat)
    ensures PyFloat(NatToString(n)) == Some(n as real)
    ensures PyFloat("-" + NatToString(n)) == Some(-(n as real))
  {
    var s := NatToString(n);
    DecimalOfNat(n);
    StripTrimmed(s);
    var m := "-" + s;
    assert m[1..] == s;
    assert m[|m| - 1] == s[|s| - 1];
    StripTrimmed(m);
  }

  /** A plus sign in front keeps the number. */
  lemma PyFloatOfPlusNat(n: nat)
    ensures PyFloat("+" + NatToString(n)) == Some(n as real)
  {
    var s := NatToString(n);
    DecimalOfNat(n);
    var m := "+" + s;
    assert m[1..] == s;
    assert m[|m| - 1] == s[|s| - 1];
    StripTrimmed(m);
  }

  /** Python's `round(x)` on a real: the nearest integer, ties to even. */
  function RoundHalfEven(x: real): (r: int)
    ensures x - 1.0 / 2.0 <= r as real <= x + 1.0 / 2.0
    ensures r as real == x - 1.0 / 2.0 || r as real == x + 1.0 / 2.0 ==> r % 2 == 0
  {
    var f := x.Floor;
    var d := x - f as real;
    if d < 1.0 / 2.0 then f
    else if d > 1.0 / 2.0 then f + 1
    else if f % 2 == 0 then f else f + 1
  }

  /** Integers are fixed points of the rounding, and it is monotone. */
  lemma RoundHalfEvenProperties(x: real, y: real, k: int)
    ensures RoundHalfEven(k as real) == k
    ensures x <= y ==> RoundHalfEven(x) <= RoundHalfEven(y)
  {
    var fx := x.Floor;
    var fy := y.Floor;
    if x <= y {
      assert fx <= fy;
    }
  }
}

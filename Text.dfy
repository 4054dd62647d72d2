/** The handful of Python string operations the application relies on:
    `isspace`/`strip`, ASCII `upper`/`lower`, `startswith`, `in`, `find`,
    `split`, `splitlines`, `replace`, and decimal rendering and parsing. */
module Text {
  import opened Wrappers

  /** Python's `str.isspace` set, which is also what `\s` matches in a
      `str` regular expression. */
  predicate IsSpace(c: char) {
    c == ' ' || ('\t' <= c <= '\r') || ('\U{1C}' <= c <= '\U{1F}')
    || c == '\U{85}' || c == '\U{A0}' || c == '\U{1680}'
    || ('\U{2000}' <= c <= '\U{200A}') || c == '\U{2028}' || c == '\U{2029}'
    || c == '\U{202F}' || c == '\U{205F}' || c == '\U{3000}'
  }

  /** The characters at which `str.splitlines` breaks a line. */
  predicate IsLineBreak(c: char) {
    ('\n' <= c <= '\r') || ('\U{1C}' <= c <= '\U{1E}')
    || c == '\U{85}' || c == '\U{2028}' || c == '\U{2029}'
  }

  predicate IsDigit(c: char) {
    '0' <= c <= '9'
  }

  predicate AllDigits(s: string) {
    forall i :: 0 <= i < |s| ==> IsDigit(s[i])
  }

  // ---------------------------------------------------------------- strip

  /** How many whitespace characters `s` starts with. */
  function LeadingSpaces(s: string): (k: nat)
    ensures k <= |s|
    ensures forall i :: 0 <= i < k ==> IsSpace(s[i])
    ensures k < |s| ==> !IsSpace(s[k])
  {
    if s != [] && IsSpace(s[0]) then 1 + LeadingSpaces(s[1..]) else 0
  }

  /** How many whitespace characters `s` ends with. */
  function TrailingSpaces(s: string): (k: nat)
    ensures k <= |s|
    ensures forall i :: |s| - k <= i < |s| ==> IsSpace(s[i])
    ensures k < |s| ==> !IsSpace(s[|s| - k - 1])
  {
    if s != [] && IsSpace(s[|s| - 1]) then 1 + TrailingSpaces(s[..|s| - 1]) else 0
  }

  /** The number of leading whitespace characters `strip` removes. */
  function StripStart(s: string): (k: nat)
    ensures k <= |s|
  {
    LeadingSpaces(s)
  }

  /** `s.strip()`: the infix left once surrounding whitespace is removed
      (its ends are described by `StripShape`). */
  function Strip(s: string): (r: string)
    ensures StripStart(s) + |r| <= |s| && r == s[StripStart(s)..StripStart(s) + |r|]
  {
    var k := LeadingSpaces(s);
    var t := s[k..];
    s[k..k + |t| - TrailingSpaces(t)]
  }

  /** What `strip` removes is whitespace, and what it keeps neither starts
      nor ends with whitespace. */
  lemma StripShape(s: string)
    ensures var r := Strip(s); r == [] || (!IsSpace(r[0]) && !IsSpace(r[|r| - 1]))
    ensures forall i :: 0 <= i < StripStart(s) ==> IsSpace(s[i])
    ensures forall i :: StripStart(s) + |Strip(s)| <= i < |s| ==> IsSpace(s[i])
  {
    StripFirst(s);
    StripLast(s);
    StripTail(s);
  }

  lemma StripFirst(s: string)
    ensures var r := Strip(s); r == [] || !IsSpace(r[0])
  {
    var r := Strip(s);
    if r != [] {
      assert r[0] == s[LeadingSpaces(s)];
    }
  }

  lemma StripLast(s: string)
    ensures var r := Strip(s); r == [] || !IsSpace(r[|r| - 1])
  {
    var t := s[LeadingSpaces(s)..];
    var r := Strip(s);
    if r != [] {
      assert r[|r| - 1] == t[|t| - TrailingSpaces(t) - 1];
    }
  }

  lemma StripTail(s: string)
    ensures forall i :: StripStart(s) + |Strip(s)| <= i < |s| ==> IsSpace(s[i])
  {
    var k := LeadingSpaces(s);
    var t := s[k..];
    forall i | k + |Strip(s)| <= i < |s| ensures IsSpace(s[i]) {
      assert s[i] == t[i - k];
    }
  }

  /** A text of whitespace only strips to nothing. */
  lemma StripBlank(s: string)
    requires forall i :: 0 <= i < |s| ==> IsSpace(s[i])
    ensures Strip(s) == []
  {
    StripShape(s);
  }

  /** A string without whitespace at either end is left as it is. */
  lemma StripTrimmed(s: string)
    requires s == [] || (!IsSpace(s[0]) && !IsSpace(s[|s| - 1]))
    ensures Strip(s) == s
  {
    assert LeadingSpaces(s) == 0;
    assert s[0..] == s;
    assert TrailingSpaces(s) == 0;
  }

  /** Stripping twice is stripping once. */
  lemma StripIdempotent(s: string)
    ensures Strip(Strip(s)) == Strip(s)
  {
    StripShape(s);
    StripTrimmed(Strip(s));
  }

  /** Strips every chunk and drops the chunks that strip to nothing. */
  function StripNonEmpty(chunks: seq<string>): (ps: seq<string>)
    ensures |ps| <= |chunks|
    ensures forall k :: 0 <= k < |ps| ==> ps[k] != [] && !IsSpace(ps[k][0]) && !IsSpace(ps[k][|ps[k]| - 1])
  {
    if chunks == [] then []
    else
      var p := Strip(chunks[0]);
      StripShape(chunks[0]);
      (if p == [] then [] else [p]) + StripNonEmpty(chunks[1..])
  }

  // ------------------------------------------------------- case (ASCII)

  function UpperChar(c: char): char {
    if 'a' <= c <= 'z' then (c as int - 32) as char else c
  }

  function LowerChar(c: char): char {
    if 'A' <= c <= 'Z' then (c as int + 32) as char else c
  }

  /** `s.upper()` restricted to ASCII letters. */
  function Upper(s: string): (r: string)
    ensures |r| == |s| && forall i :: 0 <= i < |s| ==> r[i] == UpperChar(s[i])
  {
    seq(|s|, i requires 0 <= i < |s| => UpperChar(s[i]))
  }

  /** `s.lower()` restricted to ASCII letters. */
  function Lower(s: string): (r: string)
    ensures |r| == |s| && forall i :: 0 <= i < |s| ==> r[i] == LowerChar(s[i])
  {
    seq(|s|, i requires 0 <= i < |s| => LowerChar(s[i]))
  }

  /** `s[:n]` with Python's clipping of an over-long slice. */
  function Prefix(s: string, n: nat): (r: string)
    ensures |r| <= n && |r| <= |s| && r == s[..|r|]
    ensures |s| <= n ==> r == s
    ensures |s| > n ==> |r| == n
  {
    if |s| <= n then s else s[..n]
  }

  /** `s[n:]` with Python's clipping of an over-long slice. */
  function Suffix(s: string, n: nat): (r: string)
    ensures n <= |s| ==> r == s[n..]
    ensures n > |s| ==> r == []
  {
    if n <= |s| then s[n..] else []
  }

  // ------------------------------------------------------------- search

  predicate StartsWith(s: string, p: string) {
    |p| <= |s| && s[..|p|] == p
  }

  predicate EndsWith(s: string, p: string) {
    |p| <= |s| && s[|s| - |p|..] == p
  }

  /** An occurrence of `p` in `s` at index `j`. */
  predicate OccursAt(s: string, p: string, j: int) {
    0 <= j && j + |p| <= |s| && s[j..j + |p|] == p
  }

  function FindFrom(s: string, p: string, i: nat): (r: Option<nat>)
    requires i <= |s|
    ensures r.Some? ==> i <= r.value && OccursAt(s, p, r.value)
    ensures r.Some? ==> forall j :: i <= j < r.value ==> !OccursAt(s, p, j)
    ensures r.None? ==> forall j :: i <= j ==> !OccursAt(s, p, j)
    decreases |s| - i
  {
    if i + |p| > |s| then None
    else if s[i..i + |p|] == p then Some(i)
    else if i == |s| then None
    else FindFrom(s, p, i + 1)
  }

  /** `s.find(p)`: the first index at which `p` occurs, if any. */
  function Find(s: string, p: string): (r: Option<nat>)
    ensures r.Some? ==> OccursAt(s, p, r.value)
    ensures r.Some? ==> forall j :: 0 <= j < r.value ==> !OccursAt(s, p, j)
    ensures r.None? ==> forall j :: !OccursAt(s, p, j)
  {
    FindFrom(s, p, 0)
  }

  /** Python's `p in s` for strings. */
  predicate Contains(s: string, p: string) {
    Find(s, p).Some?
  }

  lemma ContainsIff(s: string, p: string)
    ensures Contains(s, p) <==> exists j :: OccursAt(s, p, j)
  {
  }

  // -------------------------------------------------------------- split

  /** `s.split(sep, 1)`: `None` for the one-element result, otherwise the
      text before and after the first occurrence of `sep`. */
  function Partition(s: string, sep: string): (r: Option<(string, string)>)
    ensures r.None? <==> !Contains(s, sep)
    ensures r.Some? ==> s == r.value.0 + sep + r.value.1
    ensures r.Some? ==> forall j :: 0 <= j < |r.value.0| ==> !OccursAt(s, sep, j)
  {
    var f := Find(s, sep);
    if f.None? then None
    else
      var i := f.value;
      var before := s[..i];
      var after := s[i + |sep|..];
      assert s[i..i + |sep|] == sep;
      assert s == before + s[i..i + |sep|] + after;
      Some((before, after))
  }

  /** `s.split(sep)` for a non-empty separator. */
  function SplitOn(s: string, sep: string): (r: seq<string>)
    requires sep != []
    ensures |r| >= 1
    decreases |s|
  {
    match Find(s, sep)
    case None => [s]
    case Some(i) => [s[..i]] + SplitOn(s[i + |sep|..], sep)
  }

  function Join(parts: seq<string>, sep: string): string {
    if parts == [] then []
    else if |parts| == 1 then parts[0]
    else parts[0] + sep + Join(parts[1..], sep)
  }

  /** Splitting and joining again with the same separator is the identity. */
  lemma {:induction false} JoinSplitOn(s: string, sep: string)
    requires sep != []
    ensures Join(SplitOn(s, sep), sep) == s
    decreases |s|
  {
    match Find(s, sep)
    case None =>
      assert SplitOn(s, sep) == [s];
    case Some(i) =>
      var rest := s[i + |sep|..];
      var tail := SplitOn(rest, sep);
      JoinSplitOn(rest, sep);
      var parts := [s[..i]] + tail;
      assert SplitOn(s, sep) == parts;
      assert parts[1..] == tail;
      assert Join(parts, sep) == s[..i] + sep + Join(tail, sep);
      assert s == s[..i] + sep + rest by {
        assert s[i..i + |sep|] == sep;
      }
  }

  /** No piece produced by `SplitOn` contains the separator. */
  lemma {:induction false} SplitOnPieces(s: string, sep: string)
    requires sep != []
    ensures forall k :: 0 <= k < |SplitOn(s, sep)| ==> !Contains(SplitOn(s, sep)[k], sep)
    decreases |s|
  {
    match Find(s, sep)
    case None =>
    case Some(i) =>
      var rest := s[i + |sep|..];
      SplitOnPieces(rest, sep);
      PrefixFree(s, sep, i);
  }

  /** Before the first occurrence there is none. */
  lemma PrefixFree(s: string, sep: string, i: nat)
    requires i <= |s| && sep != []
    requires forall j :: 0 <= j < i ==> !OccursAt(s, sep, j)
    ensures !Contains(s[..i], sep)
  {
    forall j ensures !OccursAt(s[..i], sep, j) {
      if 0 <= j && j + |sep| <= i {
        assert s[..i][j..j + |sep|] == s[j..j + |sep|];
        assert !OccursAt(s, sep, j);
      }
    }
  }

  /** `str.splitlines()`: the text cut at every line-break character, a
      `\r\n` pair counting as one break; a break at the very end opens no
      further line, so the empty text has no lines at all. */
  function SplitLines(s: string): (r: seq<string>)
    ensures r == [] <==> s == []
    ensures forall k, i :: 0 <= k < |r| && 0 <= i < |r[k]| ==> !IsLineBreak(r[k][i])
  {
    SplitLinesFrom(s, [])
  }

  /** The lines of `s` when the line being read so far is `cur`. */
  function SplitLinesFrom(s: string, cur: string): (r: seq<string>)
    requires forall i :: 0 <= i < |cur| ==> !IsLineBreak(cur[i])
    ensures r == [] <==> s == [] && cur == []
    ensures forall k, i :: 0 <= k < |r| && 0 <= i < |r[k]| ==> !IsLineBreak(r[k][i])
    decreases |s|
  {
    if s == [] then (if cur == [] then [] else [cur])
    else if |s| >= 2 && s[0] == '\r' && s[1] == '\n' then [cur] + SplitLinesFrom(s[2..], [])
    else if IsLineBreak(s[0]) then [cur] + SplitLinesFrom(s[1..], [])
    else SplitLinesFrom(s[1..], cur + [s[0]])
  }

  /** Each line followed by a newline. */
  function JoinLines(ls: seq<string>): string {
    if ls == [] then [] else ls[0] + "\n" + JoinLines(ls[1..])
  }

  /** The text with a final newline added when it lacks one. */
  function Terminated(t: string): string {
    if t == [] || t[|t| - 1] == '\n' then t else t + "\n"
  }

  /** A text whose only line break is `\n` is its lines, each ended by a
      newline, except that a missing final newline is added. */
  lemma SplitLinesJoin(s: string)
    requires forall i :: 0 <= i < |s| && IsLineBreak(s[i]) ==> s[i] == '\n'
    ensures JoinLines(SplitLines(s)) == if s == [] || s[|s| - 1] == '\n' then s else s + "\n"
  {
    SplitLinesFromJoin(s, []);
    assert [] + s == s;
  }

  lemma {:induction false} SplitLinesFromJoin(s: string, cur: string)
    requires forall i :: 0 <= i < |cur| ==> !IsLineBreak(cur[i])
    requires forall i :: 0 <= i < |s| && IsLineBreak(s[i]) ==> s[i] == '\n'
    ensures JoinLines(SplitLinesFrom(s, cur)) == Terminated(cur + s)
    decreases |s|
  {
    if s == [] {
      LastLineJoin(cur);
      assert cur + s == cur;
    } else if IsLineBreak(s[0]) {
      var rest := s[1..];
      SplitLinesFromJoin(rest, []);
      assert [] + rest == rest;
      BreakJoin(s, cur);
    } else {
      var cur' := cur + [s[0]];
      SplitLinesFromJoin(s[1..], cur');
      assert cur' + s[1..] == cur + s;
    }
  }

  lemma LastLineJoin(cur: string)
    requires forall i :: 0 <= i < |cur| ==> !IsLineBreak(cur[i])
    ensures JoinLines(SplitLinesFrom([], cur)) == Terminated(cur)
  {
    if cur != [] {
      JoinCons(cur, []);
      assert [cur] + [] == [cur];
      assert !IsLineBreak(cur[|cur| - 1]);
    }
  }

  lemma BreakJoin(s: string, cur: string)
    requires forall i :: 0 <= i < |cur| ==> !IsLineBreak(cur[i])
    requires s != [] && s[0] == '\n'
    requires JoinLines(SplitLinesFrom(s[1..], [])) == Terminated(s[1..])
    ensures JoinLines(SplitLinesFrom(s, cur)) == Terminated(cur + s)
  {
    var rest := s[1..];
    var ls := SplitLinesFrom(rest, []);
    BreakUnfold(s, cur);
    JoinCons(cur, ls);
    assert s == "\n" + rest;
    JoinAfterBreak(cur, rest);
  }

  lemma BreakUnfold(s: string, cur: string)
    requires forall i :: 0 <= i < |cur| ==> !IsLineBreak(cur[i])
    requires s != [] && s[0] == '\n'
    ensures SplitLinesFrom(s, cur) == [cur] + SplitLinesFrom(s[1..], [])
  {
  }

  lemma JoinCons(cur: string, ls: seq<string>)
    ensures JoinLines([cur] + ls) == cur + "\n" + JoinLines(ls)
  {
    assert ([cur] + ls)[1..] == ls;
  }

  lemma JoinAfterBreak(cur: string, rest: string)
    ensures cur + "\n" + Terminated(rest) == Terminated(cur + ("\n" + rest))
  {
    var t := cur + ("\n" + rest);
    assert t == cur + "\n" + rest;
    if rest != [] {
      assert t[|t| - 1] == rest[|rest| - 1];
    }
  }

  /** The first line of `s`, as `s.split('\n')[0]`. */
  function FirstLine(s: string): (r: string)
    ensures |r| <= |s| && r == s[..|r|] && '\n' !in r
    ensures |r| < |s| ==> s[|r|] == '\n'
  {
    match Find(s, "\n")
    case None =>
      CharOccurs(s, '\n', |s|);
      s
    case Some(i) =>
      CharOccurs(s, '\n', i);
      assert s[i..i + 1] == "\n";
      s[..i]
  }

  /** For a one-character pattern, an occurrence is that character. */
  lemma CharOccurs(s: string, c: char, n: nat)
    requires n <= |s|
    requires forall j :: 0 <= j < n ==> !OccursAt(s, [c], j)
    ensures c !in s[..n]
  {
    forall j | 0 <= j < n ensures s[j] != c {
      if s[j] == c {
        assert s[j..j + 1] == [c];
        assert OccursAt(s, [c], j);
      }
    }
  }

  // ------------------------------------------------------------ replace

  /** `s.replace(pat, rep)`: leftmost, non-overlapping replacement. */
  function Replace(s: string, pat: string, rep: string): string
    requires pat != []
    decreases |s|
  {
    if |s| < |pat| then s
    else if s[..|pat|] == pat then rep + Replace(s[|pat|..], pat, rep)
    else [s[0]] + Replace(s[1..], pat, rep)
  }

  /** Every character of `s` is either part of the pattern or still
      there after the replacement. */
  lemma {:induction false} ReplaceKeepsChars(s: string, pat: string, rep: string)
    requires pat != []
    ensures forall i :: 0 <= i < |s| ==> s[i] in pat || s[i] in Replace(s, pat, rep)
    decreases |s|
  {
    if |s| >= |pat| {
      if s[..|pat|] == pat {
        var t := s[|pat|..];
        ReplaceKeepsChars(t, pat, rep);
        forall i | 0 <= i < |s| ensures s[i] in pat || s[i] in Replace(s, pat, rep) {
          if i < |pat| {
            assert s[i] == s[..|pat|][i];
          } else {
            assert s[i] == t[i - |pat|];
          }
        }
      } else {
        var t := s[1..];
        ReplaceKeepsChars(t, pat, rep);
        forall i | 0 <= i < |s| ensures s[i] in pat || s[i] in Replace(s, pat, rep) {
          if i > 0 {
            assert s[i] == t[i - 1];
          }
        }
      }
    }
  }

  /** Where no occurrence of `pat` starts, one character is copied. */
  lemma ReplaceStep(s: string, pat: string, rep: string)
    requires pat != [] && s != [] && !OccursAt(s, pat, 0)
    ensures Replace(s, pat, rep) == [s[0]] + Replace(s[1..], pat, rep)
  {
    if |s| < |pat| {
      assert Replace(s[1..], pat, rep) == s[1..];
    } else {
      assert s[0..|pat|] == s[..|pat|];
    }
  }

  lemma OccursShift(s: string, pat: string, i: nat)
    requires s != []
    ensures OccursAt(s[1..], pat, i) <==> OccursAt(s, pat, i + 1)
  {
    if i + |pat| <= |s| - 1 {
      assert s[1..][i..i + |pat|] == s[i + 1..i + 1 + |pat|];
    }
  }

  /** A prefix in which no occurrence of `pat` starts is copied unchanged. */
  lemma {:induction false} ReplaceSkip(s: string, pat: string, rep: string, k: nat)
    requires pat != [] && k <= |s|
    requires forall i :: 0 <= i < k ==> !OccursAt(s, pat, i)
    ensures Replace(s, pat, rep) == s[..k] + Replace(s[k..], pat, rep)
    decreases k
  {
    if k > 0 {
      assert !OccursAt(s, pat, 0);
      ReplaceStep(s, pat, rep);
      var t := s[1..];
      forall i | 0 <= i < k - 1 ensures !OccursAt(t, pat, i) {
        OccursShift(s, pat, i);
      }
      ReplaceSkip(t, pat, rep, k - 1);
      assert t[k - 1..] == s[k..];
      assert s[..k] == [s[0]] + t[..k - 1];
      calc {
        Replace(s, pat, rep);
        [s[0]] + Replace(t, pat, rep);
        [s[0]] + (t[..k - 1] + Replace(t[k - 1..], pat, rep));
        s[..k] + Replace(s[k..], pat, rep);
      }
    }
  }

  /** A string that begins with `pat` has that occurrence replaced. */
  lemma ReplaceHead(s: string, pat: string, rep: string)
    requires pat != [] && StartsWith(s, pat)
    ensures Replace(s, pat, rep) == rep + Replace(s[|pat|..], pat, rep)
  {
  }

  /** A string in which `pat` never occurs is left as it is. */
  lemma {:induction false} ReplaceAbsent(s: string, pat: string, rep: string)
    requires pat != [] && !Contains(s, pat)
    ensures Replace(s, pat, rep) == s
  {
    ReplaceSkip(s, pat, rep, |s|);
    assert s[|s|..] == [];
  }

  // ------------------------------------------------------------ numbers

  function DigitChar(d: nat): (c: char)
    requires d < 10
    ensures IsDigit(c) && c as int - '0' as int == d
  {
    ('0' as int + d) as char
  }

  function DigitValue(c: char): nat
    requires IsDigit(c)
  {
    c as int - '0' as int
  }

  /** Decimal rendering, as `str(n)` for a non-negative integer. */
  function NatToString(n: nat): (r: string)
    ensures r != [] && AllDigits(r)
    ensures |r| > 1 ==> r[0] != '0'
  {
    if n < 10 then [DigitChar(n)] else NatToString(n / 10) + [DigitChar(n % 10)]
  }

  /** `str(i)` for any integer. */
  function IntToString(i: int): (r: string)
    ensures r != []
    ensures i < 0 <==> r[0] == '-'
  {
    if i < 0 then "-" + NatToString(-i) else NatToString(i)
  }

  /** The value of a run of decimal digits (empty: zero). */
  function DigitsValue(s: string): nat
    requires AllDigits(s)
  {
    if s == [] then 0 else DigitsValue(s[..|s| - 1]) * 10 + DigitValue(s[|s| - 1])
  }

  /** `int(s)` restricted to unsigned runs of ASCII digits. */
  function ParseNat(s: string): (r: Option<nat>)
    ensures r.Some? <==> s != [] && AllDigits(s)
  {
    if s != [] && AllDigits(s) then Some(DigitsValue(s)) else None
  }

  /** Rendering a number and parsing it back gives the number. */
  lemma {:induction false} NatToStringRoundTrip(n: nat)
    ensures ParseNat(NatToString(n)) == Some(n)
    ensures DigitsValue(NatToString(n)) == n
  {
    var r := NatToString(n);
    if n < 10 {
      assert r[..0] == [];
    } else {
      NatToStringRoundTrip(n / 10);
      assert r[..|r| - 1] == NatToString(n / 10);
      assert DigitsValue(r) == (n / 10) * 10 + n % 10;
    }
  }

  /** Distinct numbers render differently. */
  lemma NatToStringInjective(m: nat, n: nat)
    requires NatToString(m) == NatToString(n)
    ensures m == n
  {
    NatToStringRoundTrip(m);
    NatToStringRoundTrip(n);
  }

  function Pow10(k: nat): (r: nat)
    ensures r >= 1
  {
    if k == 0 then 1 else 10 * Pow10(k - 1)
  }

  // ----------------------------------------------------- words and case

  /** A word: non-empty and without whitespace. */
  predicate IsWord(w: string) {
    w != [] && forall i :: 0 <= i < |w| ==> !IsSpace(w[i])
  }

  /** An occurrence inside the infix `s[k..e]` is one in `s` that lies
      between `k` and `e`. */
  lemma InfixOccurs(s: string, k: nat, e: nat, w: string, j: nat)
    requires k <= e <= |s|
    ensures OccursAt(s[k..e], w, j) <==> OccursAt(s, w, k + j) && k + j + |w| <= e
  {
    if k + j + |w| <= e {
      var a := s[k..e][j..j + |w|];
      var b := s[k + j..k + j + |w|];
      forall m | 0 <= m < |w| ensures a[m] == b[m] {
        assert a[m] == s[k..e][j + m] == s[k + j + m];
      }
      assert a == b;
    }
  }

  /** A pattern absent from a string is absent from each of its infixes. */
  lemma InfixFree(s: string, k: nat, e: nat, w: string)
    requires k <= e <= |s| && !Contains(s, w)
    ensures !Contains(s[k..e], w)
  {
    forall j ensures !OccursAt(s[k..e], w, j) {
      if 0 <= j {
        InfixOccurs(s, k, e, w, j);
      }
    }
  }

  /** Cutting off padding never changes whether a word occurs, when the
      word neither starts nor ends with a padding character. */
  lemma InfixContains(s: string, k: nat, n: nat, w: string, pad: char -> bool)
    requires k + n <= |s| && w != [] && !pad(w[0]) && !pad(w[|w| - 1])
    requires forall i :: 0 <= i < k ==> pad(s[i])
    requires forall i :: k + n <= i < |s| ==> pad(s[i])
    ensures Contains(s[k..k + n], w) <==> Contains(s, w)
  {
    if Contains(s[k..k + n], w) {
      InfixOccurs(s, k, k + n, w, Find(s[k..k + n], w).value);
    }
    if Contains(s, w) {
      var j := Find(s, w).value;
      OccurrenceInside(s, k, n, w, pad, j);
      InfixOccurs(s, k, k + n, w, j - k);
    }
  }

  /** An occurrence of such a word lies inside the unpadded part. */
  lemma OccurrenceInside(s: string, k: nat, n: nat, w: string, pad: char -> bool, j: nat)
    requires k + n <= |s| && w != [] && !pad(w[0]) && !pad(w[|w| - 1])
    requires forall i :: 0 <= i < k ==> pad(s[i])
    requires forall i :: k + n <= i < |s| ==> pad(s[i])
    requires OccursAt(s, w, j)
    ensures k <= j && j + |w| <= k + n
  {
    assert s[j..j + |w|][0] == s[j] && s[j..j + |w|][|w| - 1] == s[j + |w| - 1];
  }

  /** Whether a word occurs, case-insensitively, in a stripped text is
      whether it occurs in the text before stripping. */
  lemma StripKeepsWord(s: string, w: string)
    requires IsWord(w)
    ensures Contains(Lower(Strip(s)), w) <==> Contains(Lower(s), w)
  {
    var k := StripStart(s);
    var n := |Strip(s)|;
    var ls := Lower(s);
    LowerInfix(s, k, k + n);
    StripShape(s);
    forall i | 0 <= i < k ensures IsSpace(ls[i]) {
      LowerKeepsSpace(s[i]);
    }
    forall i | k + n <= i < |s| ensures IsSpace(ls[i]) {
      LowerKeepsSpace(s[i]);
    }
    InfixContains(ls, k, n, w, IsSpace);
  }

  lemma LowerKeepsSpace(c: char)
    requires IsSpace(c)
    ensures LowerChar(c) == c
  {
  }

  /** Lower-casing commutes with slicing. */
  lemma LowerInfix(s: string, k: nat, e: nat)
    requires k <= e <= |s|
    ensures Lower(s[k..e]) == Lower(s)[k..e]
  {
  }

  /** An occurrence in `Prefix(s, n)` is one that ends within the first
      `n` characters of `s`. */
  lemma PrefixOccurs(s: string, n: nat, w: string, j: int)
    ensures OccursAt(Prefix(s, n), w, j) <==> OccursAt(s, w, j) && j + |w| <= n
  {
    var p := Prefix(s, n);
    if 0 <= j && j + |w| <= |p| {
      assert p[j..j + |w|] == s[j..j + |w|];
    }
  }

  /** A string upper-cases to itself when it has no lower-case letter. */
  lemma UpperOccurs(s: string, p: string, j: int)
    requires Upper(p) == p
    requires OccursAt(s, p, j)
    ensures OccursAt(Upper(s), p, j)
  {
    assert Upper(s)[j..j + |p|] == Upper(s[j..j + |p|]);
  }
}

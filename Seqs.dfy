/** Sequence helpers shared by the search filters: Python's list
    comprehension with a condition, and a clipped slice. */
module Seqs {
  /** `[x for x in s if keep(x)]`. */
  function Filter<T>(keep: T -> bool, s: seq<T>): (r: seq<T>)
    ensures |r| <= |s|
    ensures forall k :: 0 <= k < |r| ==> keep(r[k])
  {
    if s == [] then []
    else (if keep(s[0]) then [s[0]] else []) + Filter(keep, s[1..])
  }

  /** Everything kept comes from the sequence. */
  lemma {:induction false} FilterFrom<T>(keep: T -> bool, s: seq<T>)
    ensures forall k :: 0 <= k < |Filter(keep, s)| ==> Filter(keep, s)[k] in s
    decreases |s|
  {
    if s != [] {
      FilterFrom(keep, s[1..]);
      var f := Filter(keep, s);
      var rest := Filter(keep, s[1..]);
      forall k | 0 <= k < |f| ensures f[k] in s {
        if keep(s[0]) && k == 0 {
          assert f[0] == s[0];
        } else {
          var j := if keep(s[0]) then k - 1 else k;
          assert f[k] == rest[j];
          assert rest[j] in s[1..];
        }
      }
    }
  }

  /** Everything of the sequence that passes the test is kept. */
  lemma {:induction false} FilterKeeps<T>(keep: T -> bool, s: seq<T>)
    ensures forall k :: 0 <= k < |s| && keep(s[k]) ==> s[k] in Filter(keep, s)
    decreases |s|
  {
    if s != [] {
      FilterKeeps(keep, s[1..]);
      forall k | 0 <= k < |s| && keep(s[k]) ensures s[k] in Filter(keep, s) {
        if k > 0 {
          assert s[k] == s[1..][k - 1];
        }
      }
    }
  }

  /** Filtering distributes over concatenation. */
  lemma {:induction false} FilterAppend<T>(keep: T -> bool, a: seq<T>, b: seq<T>)
    ensures Filter(keep, a + b) == Filter(keep, a) + Filter(keep, b)
    decreases |a|
  {
    if a == [] {
      assert a + b == b;
    } else {
      assert (a + b)[1..] == a[1..] + b;
      FilterAppend(keep, a[1..], b);
    }
  }

  /** One more element seen by a filtering loop. */
  lemma FilterSnoc<T>(keep: T -> bool, s: seq<T>, i: nat)
    requires i < |s|
    ensures Filter(keep, s[..i + 1]) == Filter(keep, s[..i]) + (if keep(s[i]) then [s[i]] else [])
  {
    FilterAppend(keep, s[..i], [s[i]]);
    assert s[..i + 1] == s[..i] + [s[i]];
    assert [s[i]][1..] == [];
  }

  /** Every element is kept exactly when the filter changes nothing. */
  lemma {:induction false} FilterAll<T>(keep: T -> bool, s: seq<T>)
    ensures Filter(keep, s) == s <==> forall k :: 0 <= k < |s| ==> keep(s[k])
    decreases |s|
  {
    if s != [] {
      FilterAll(keep, s[1..]);
      if !keep(s[0]) {
        assert |Filter(keep, s)| < |s|;
      } else {
        assert Filter(keep, s) == [s[0]] + Filter(keep, s[1..]);
        if Filter(keep, s) == s {
          assert Filter(keep, s[1..]) == s[1..];
        }
        assert forall k :: 1 <= k < |s| ==> s[k] == s[1..][k - 1];
      }
    }
  }

  /** `s[:n]`, clipped. */
  function Take<T>(s: seq<T>, n: nat): (r: seq<T>)
    ensures |r| <= n && |r| <= |s| && r == s[..|r|]
    ensures |s| <= n ==> r == s
    ensures |s| > n ==> |r| == n
  {
    if |s| <= n then s else s[..n]
  }

  /** Once a filtered prefix holds `n` elements, the first `n` kept
      elements of the whole sequence are exactly those. */
  lemma FilterFull<T>(keep: T -> bool, s: seq<T>, i: nat, n: nat)
    requires i <= |s| && |Filter(keep, s[..i])| == n
    ensures Take(Filter(keep, s), n) == Filter(keep, s[..i])
  {
    FilterAppend(keep, s[..i], s[i..]);
    assert s[..i] + s[i..] == s;
  }

  /** `rel` holds between every element and each later one. */
  ghost predicate Pairwise<T>(s: seq<T>, rel: (T, T) -> bool) {
    forall i, j :: 0 <= i < j < |s| ==> rel(s[i], s[j])
  }

  /** Putting in front an element related to all others keeps the
      relation. */
  lemma PrependPairwise<T>(x: T, s: seq<T>, rel: (T, T) -> bool)
    requires Pairwise(s, rel)
    requires forall k :: 0 <= k < |s| ==> rel(x, s[k])
    ensures Pairwise([x] + s, rel)
  {
    var t := [x] + s;
    forall i, j | 0 <= i < j < |t| ensures rel(t[i], t[j]) {
      assert t[j] == s[j - 1];
      if i > 0 {
        assert t[i] == s[i - 1];
      }
    }
  }

  /** Filtering keeps a relation between earlier and later elements. */
  lemma {:induction false} FilterPairwise<T>(keep: T -> bool, s: seq<T>, rel: (T, T) -> bool)
    requires Pairwise(s, rel)
    ensures Pairwise(Filter(keep, s), rel)
    decreases |s|
  {
    if s != [] {
      var rest := Filter(keep, s[1..]);
      assert Pairwise(s[1..], rel) by {
        forall i, j | 0 <= i < j < |s[1..]| ensures rel(s[1..][i], s[1..][j]) {
          assert s[1..][i] == s[i + 1] && s[1..][j] == s[j + 1];
        }
      }
      FilterPairwise(keep, s[1..], rel);
      if keep(s[0]) {
        FilterFrom(keep, s[1..]);
        forall k | 0 <= k < |rest| ensures rel(s[0], rest[k]) {
          var m :| 0 <= m < |s[1..]| && s[1..][m] == rest[k];
          assert rest[k] == s[m + 1];
        }
        PrependPairwise(s[0], rest, rel);
      }
    }
  }
}

/** The informal-collector directory: a fixed list of collectors, a city
    filter compared without regard to case, a verified-only filter, the
    nomination check, and the sorted list of distinct cities offered for
    the city filter. */
module Collectors {
  import opened Wrappers
  import opened Text
  import opened Seqs

  datatype Collector = Collector(name: string, city: string, phone: string, verified: bool)

  /** The directory's fixed entries, in listing order. */
  const AllCollectors: seq<Collector> := [
    Collector("GreenScrap Delhi", "Delhi", "9999988888", true),
    Collector("EcoCycle Mumbai", "Mumbai", "9898989898", false),
    Collector("RecycleHub Bangalore", "Bangalore", "9777799999", true),
    Collector("GreenTech Chennai", "Chennai", "9666699999", true),
    Collector("EcoCollect Pune", "Pune", "9555599999", false),
    Collector("WasteWise Hyderabad", "Hyderabad", "9444499999", true)
  ]

  function InCity(city: string): Collector -> bool {
    (c: Collector) => Lower(c.city) == Lower(city)
  }

  predicate IsVerified(c: Collector) {
    c.verified
  }

  /** The listing for the query parameters `city` (absent: empty) and
      `verified_only` (the filter is on only for the value "on"). */
  function Listing(all: seq<Collector>, city: string, verifiedOnly: Option<string>): (r: seq<Collector>)
    ensures |r| <= |all|
    ensures verifiedOnly == Some("on") ==> forall k :: 0 <= k < |r| ==> r[k].verified
    ensures Strip(city) == [] && verifiedOnly != Some("on") ==> r == all
  {
    var selected := Strip(city);
    var byCity := if selected != [] then Filter(InCity(selected), all) else all;
    if verifiedOnly == Some("on") then Filter(IsVerified, byCity) else byCity
  }

  /** What the listing keeps. */
  predicate Shown(c: Collector, city: string, verifiedOnly: Option<string>) {
    && (Strip(city) == [] || Lower(c.city) == Lower(Strip(city)))
    && (verifiedOnly != Some("on") || c.verified)
  }

  function Shows(city: string, verifiedOnly: Option<string>): Collector -> bool {
    (c: Collector) => Shown(c, city, verifiedOnly)
  }

  /** The two filters in a row keep, in their order, exactly the
      collectors that pass both tests. */
  lemma ListingIsOneFilter(all: seq<Collector>, city: string, verifiedOnly: Option<string>)
    ensures Listing(all, city, verifiedOnly) == Filter(Shows(city, verifiedOnly), all)
  {
    var selected := Strip(city);
    var on := verifiedOnly == Some("on");
    if selected != [] {
      if on {
        FilterBoth(InCity(selected), IsVerified, Shows(city, verifiedOnly), all);
      } else {
        FilterSame(InCity(selected), Shows(city, verifiedOnly), all);
      }
    } else {
      if on {
        FilterSame(IsVerified, Shows(city, verifiedOnly), all);
      } else {
        FilterAll(Shows(city, verifiedOnly), all);
      }
    }
  }

  lemma {:induction false} FilterSame<T>(p: T -> bool, q: T -> bool, s: seq<T>)
    requires forall x :: p(x) == q(x)
    ensures Filter(p, s) == Filter(q, s)
    decreases |s|
  {
    if s != [] {
      FilterSame(p, q, s[1..]);
    }
  }

  lemma {:induction false} FilterBoth<T>(p: T -> bool, q: T -> bool, both: T -> bool, s: seq<T>)
    requires forall x :: both(x) == (p(x) && q(x))
    ensures Filter(q, Filter(p, s)) == Filter(both, s)
    decreases |s|
  {
    if s != [] {
      FilterBoth(p, q, both, s[1..]);
      var t := Filter(p, s);
      if p(s[0]) {
        assert t == [s[0]] + Filter(p, s[1..]);
        assert t[1..] == Filter(p, s[1..]);
        assert Filter(q, t) == (if q(s[0]) then [s[0]] else []) + Filter(q, t[1..]);
      } else {
        assert t == Filter(p, s[1..]);
      }
    }
  }

  /** A collector is listed iff it passes both tests. */
  lemma ListingMembers(all: seq<Collector>, city: string, verifiedOnly: Option<string>, c: Collector)
    requires c in all
    ensures c in Listing(all, city, verifiedOnly) <==> Shown(c, city, verifiedOnly)
  {
    ListingIsOneFilter(all, city, verifiedOnly);
    FilterFrom(Shows(city, verifiedOnly), all);
    FilterKeeps(Shows(city, verifiedOnly), all);
    var f := Filter(Shows(city, verifiedOnly), all);
    if c in f {
      var k :| 0 <= k < |f| && f[k] == c;
      assert Shows(city, verifiedOnly)(f[k]);
    }
    if Shown(c, city, verifiedOnly) {
      var k :| 0 <= k < |all| && all[k] == c;
      assert Shows(city, verifiedOnly)(all[k]);
    }
  }

  /** A nomination succeeds only for a POST with action "nominate" and a
      name and a city that are not blank; the phone is not checked. */
  function Nominated(isPost: bool, action: Option<string>, name: string, city: string, phone: string): (ok: bool)
    ensures ok ==> isPost && action == Some("nominate")
    ensures ok <==> isPost && action == Some("nominate") && Strip(name) != [] && Strip(city) != []
  {
    isPost && action == Some("nominate") && Strip(name) != [] && Strip(city) != []
  }

  /** The phone number plays no part, and a name or a city made of
      whitespace alone is refused. */
  lemma NominationRules(isPost: bool, action: Option<string>, name: string, city: string, phone: string, phone': string)
    ensures Nominated(isPost, action, name, city, phone) == Nominated(isPost, action, name, city, phone')
    ensures (forall i :: 0 <= i < |name| ==> IsSpace(name[i])) ==> !Nominated(isPost, action, name, city, phone)
    ensures (forall i :: 0 <= i < |city| ==> IsSpace(city[i])) ==> !Nominated(isPost, action, name, city, phone)
  {
    if forall i :: 0 <= i < |name| ==> IsSpace(name[i]) {
      StripBlank(name);
    }
    if forall i :: 0 <= i < |city| ==> IsSpace(city[i]) {
      StripBlank(city);
    }
  }

  // ------------------------------------------------------------ cities

  /** Python's `<` on strings: by code point, a proper prefix first. */
  predicate Below(a: string, b: string) {
    if a == [] then b != []
    else if b == [] then false
    else if a[0] != b[0] then a[0] < b[0]
    else Below(a[1..], b[1..])
  }

  lemma BelowIrreflexive(a: string)
    ensures !Below(a, a)
  {
  }

  lemma {:induction false} BelowTransitive(a: string, b: string, c: string)
    requires Below(a, b) && Below(b, c)
    ensures Below(a, c)
    decreases |a|
  {
    if a != [] && b != [] && c != [] && a[0] == b[0] && b[0] == c[0] {
      BelowTransitive(a[1..], b[1..], c[1..]);
    }
  }

  lemma {:induction false} BelowTotal(a: string, b: string)
    requires a != b
    ensures Below(a, b) || Below(b, a)
    decreases |a|
  {
    if a != [] && b != [] && a[0] == b[0] {
      assert a == [a[0]] + a[1..] && b == [b[0]] + b[1..];
      BelowTotal(a[1..], b[1..]);
    }
  }

  predicate Ascending(s: seq<string>) {
    forall i, j :: 0 <= i < j < |s| ==> Below(s[i], s[j])
  }

  /** Adds `x` to an ascending list of distinct strings. */
  function Insert(s: seq<string>, x: string): (r: seq<string>)
    requires Ascending(s)
    ensures Ascending(r)
    ensures forall y :: y in r <==> y in s || y == x
  {
    if s == [] then [x]
    else if x == s[0] then s
    else if Below(x, s[0]) then
      assert forall k :: 0 <= k < |s| ==> Below(x, s[k]) by {
        forall k | 0 <= k < |s| ensures Below(x, s[k]) {
          if k > 0 {
            BelowTransitive(x, s[0], s[k]);
          }
        }
      }
      [x] + s
    else
      var rest := Insert(s[1..], x);
      assert Below(s[0], x) by {
        BelowTotal(x, s[0]);
      }
      assert forall k :: 0 <= k < |rest| ==> Below(s[0], rest[k]) by {
        forall k | 0 <= k < |rest| ensures Below(s[0], rest[k]) {
          assert rest[k] in s[1..] || rest[k] == x;
        }
      }
      [s[0]] + rest
  }

  /** `sorted(set(xs))`. */
  function SortedSet(xs: seq<string>): (r: seq<string>)
    ensures Ascending(r)
    ensures forall y :: y in r <==> y in xs
  {
    if xs == [] then []
    else Insert(SortedSet(xs[..|xs| - 1]), xs[|xs| - 1])
  }

  function Cities(cs: seq<Collector>): seq<string> {
    seq(|cs|, k requires 0 <= k < |cs| => cs[k].city)
  }

  /** The cities offered for the filter: each city of the directory once,
      in ascending order. */
  function UniqueCities(cs: seq<Collector>): (r: seq<string>)
    ensures Ascending(r)
    ensures forall i, j :: 0 <= i < j < |r| ==> r[i] != r[j]
    ensures forall y :: y in r <==> exists k :: 0 <= k < |cs| && cs[k].city == y
  {
    var r := SortedSet(Cities(cs));
    assert forall i, j :: 0 <= i < j < |r| ==> r[i] != r[j] by {
      forall i, j | 0 <= i < j < |r| ensures r[i] != r[j] {
        BelowIrreflexive(r[i]);
      }
    }
    assert forall y :: y in Cities(cs) <==> exists k :: 0 <= k < |cs| && cs[k].city == y by {
      forall y | y in Cities(cs) ensures exists k :: 0 <= k < |cs| && cs[k].city == y {
        var k :| 0 <= k < |cs| && Cities(cs)[k] == y;
      }
      forall y, k | 0 <= k < |cs| && cs[k].city == y ensures y in Cities(cs) {
        assert Cities(cs)[k] == y;
      }
    }
    r
  }

  /** Choosing a trimmed city from the offered list shows each collector
      of that city (and, with the verified-only filter, each verified
      one). */
  lemma OfferedCitySelects(cs: seq<Collector>, k: nat, verifiedOnly: Option<string>)
    requires k < |cs| && Strip(cs[k].city) == cs[k].city
    requires verifiedOnly == Some("on") ==> cs[k].verified
    ensures cs[k].city in UniqueCities(cs)
    ensures cs[k] in Listing(cs, cs[k].city, verifiedOnly)
  {
    ListingMembers(cs, cs[k].city, verifiedOnly, cs[k]);
  }
}

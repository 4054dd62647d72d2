/** The nearby recycling-centre endpoint (`centers_nearby_api` in
    core/views.py). The request parameters, which provider keys are set and
    the replies of the place services are the inputs; the result is the
    JSON answer's status and centre list. The Google place service is
    preferred: a text query without coordinates is first resolved to a
    position, then a nearby search runs, with a text search as fallback
    when the nearby search fails and as a broader second try when it finds
    nothing usable. Without a Google key the Yelp search is used. */
module Nearby {
  import opened Wrappers
  import opened Text
  import opened Numbers

  // --------------------------------------------------------- parameters

  /** The query parameters, each the empty string when absent. */
  datatype Query = Query(q: string, country: string, lat: string, lng: string, radiusKm: string,
                         swLat: string, swLng: string, neLat: string, neLng: string)

  /** The environment: two names for the Google key and the Yelp key,
      each empty when unset. */
  datatype Keys = Keys(googleMaps: string, googlePlaces: string, yelp: string)

  /** The search centre: both coordinates when both are given and both
      convert; otherwise neither. */
  function Coordinates(lat: string, lng: string): (r: Option<(real, real)>)
    ensures r.Some? <==> lat != [] && lng != [] && PyFloat(lat).Some? && PyFloat(lng).Some?
  {
    if lat != [] && lng != [] && PyFloat(lat).Some? && PyFloat(lng).Some? then
      Some((PyFloat(lat).value, PyFloat(lng).value))
    else None
  }

  /** The requested radius in kilometres: 10 when absent or not a number. */
  function RadiusKm(text: string): (km: real)
    ensures Strip(text) == [] ==> km == 10.0
    ensures PyFloat(text).Some? ==> km == PyFloat(text).value
  {
    PyFloat(text).GetOr(10.0)
  }

  /** `int(min(max(km, 1), 50) * 1000)`. */
  function RadiusMetres(km: real): (m: int)
    ensures 1000 <= m <= 50000
  {
    var clamped := if km < 1.0 then 1.0 else if km > 50.0 then 50.0 else km;
    (clamped * 1000.0).Floor
  }

  /** Within the accepted range the radius is the requested one, in
      metres; outside it the nearer end of the range is used. */
  lemma RadiusClamp(km: real)
    ensures 1.0 <= km <= 50.0 ==> RadiusMetres(km) == (km * 1000.0).Floor
    ensures km <= 1.0 ==> RadiusMetres(km) == 1000
    ensures km >= 50.0 ==> RadiusMetres(km) == 50000
  {
  }

  /** The map bounds; `None` where a bound is absent or not a number. */
  datatype Bounds = Bounds(swLat: Option<real>, swLng: Option<real>, neLat: Option<real>, neLng: Option<real>) {
    predicate Complete() {
      swLat.Some? && swLng.Some? && neLat.Some? && neLng.Some?
    }
  }

  function ParseBounds(q: Query): Bounds {
    Bounds(PyFloat(q.swLat), PyFloat(q.swLng), PyFloat(q.neLat), PyFloat(q.neLng))
  }

  /** The bounds test: every point passes unless all four bounds are set,
      and then the box is closed on all four edges. */
  function Within(b: Bounds, lat: real, lng: real): (ok: bool)
    ensures ok && b.Complete() ==> b.swLat.value <= b.neLat.value && b.swLng.value <= b.neLng.value
  {
    !b.Complete()
    || (b.swLat.value <= lat <= b.neLat.value && b.swLng.value <= lng <= b.neLng.value)
  }

  /** Missing bounds let every point through, and the four corners of a
      complete box pass. */
  lemma WithinEdges(b: Bounds, lat: real, lng: real)
    ensures !b.Complete() ==> Within(b, lat, lng)
    ensures b.Complete() && b.swLat.value <= b.neLat.value && b.swLng.value <= b.neLng.value ==>
              Within(b, b.swLat.value, b.swLng.value) && Within(b, b.neLat.value, b.neLng.value)
              && Within(b, b.swLat.value, b.neLng.value) && Within(b, b.neLat.value, b.swLng.value)
  {
  }

  /** The normalised country code. */
  function CountryCode(q: Query): string {
    Lower(Strip(q.country))
  }

  /** The country named in the text query for a code. */
  function CountryLabel(cc: string): (r: string)
    ensures cc == [] <==> r == []
  {
    if cc == "in" then "India"
    else if cc == "us" then "USA"
    else if cc == "gb" then "UK"
    else if cc == "ca" then "Canada"
    else if cc == "au" then "Australia"
    else Upper(cc)
  }

  /** The text used to resolve a place name: the name, followed by the
      country when one is selected. */
  function TextQuery(query: string, cc: string): (r: string)
    ensures cc == [] ==> r == query
    ensures cc != [] ==> r == query + ", " + CountryLabel(cc)
  {
    var name := CountryLabel(cc);
    if name != [] then query + ", " + name else query
  }

  /** The query always starts with the place name; a selected country is
      appended as ", " and its name, the five listed codes by their full
      names and any other code upper-cased. */
  lemma TextQueryNames(query: string, cc: string)
    ensures StartsWith(TextQuery(query, cc), query)
    ensures cc == "in" ==> TextQuery(query, cc) == query + ", India"
    ensures cc == "us" ==> TextQuery(query, cc) == query + ", USA"
    ensures cc == "gb" ==> TextQuery(query, cc) == query + ", UK"
    ensures cc == "ca" ==> TextQuery(query, cc) == query + ", Canada"
    ensures cc == "au" ==> TextQuery(query, cc) == query + ", Australia"
    ensures cc != [] && cc !in ["in", "us", "gb", "ca", "au"] ==> TextQuery(query, cc) == query + ", " + Upper(cc)
  {
    var r := TextQuery(query, cc);
    assert r[..|query|] == query;
  }

  // ------------------------------------------------------------ replies

  /** A place as the Google service returns it; `None` is an absent field. */
  datatype Place = Place(name: Option<string>, address: Option<string>,
                         latitude: Option<real>, longitude: Option<real>)

  /** A business as the Yelp service returns it. */
  datatype Business = Business(name: Option<string>, displayAddress: seq<string>,
                               latitude: Option<real>, longitude: Option<real>)

  /** A reply of a provider: the request raised (network failure or a
      malformed answer), or it came back with a status and its records. */
  datatype Reply<T> = Raised | Replied(status: int, items: seq<T>)

  datatype Source = GoogleNearby | GoogleText | Yelp

  /** One centre of the answer. */
  datatype Center = Center(name: string, address: string, latitude: real, longitude: real, source: Source)

  /** The answer: a centre list (200), an unresolved place name (400), a
      failed provider (502), or no provider configured (412). */
  datatype Response = Centers(centers: seq<Center>) | Unresolved(query: string) | Upstream | NotConfigured {
    function Status(): int {
      match this
      case Centers(_) => 200
      case Unresolved(_) => 400
      case Upstream => 502
      case NotConfigured => 412
    }
  }

  // ------------------------------------------------------------ filters

  function OrDefault(s: Option<string>, default: string): string {
    if s.Some? && s.value != [] then s.value else default
  }

  /** An address the US filter rejects. */
  predicate LooksUS(address: string) {
    Contains(address, "United States") || EndsWith(address, ", USA")
  }

  predicate HasLocation(p: Place) {
    p.latitude.Some? && p.longitude.Some?
  }

  /** Whether a Google place becomes a centre: it has a location inside the
      bounds and, when US results are excluded, neither a US-looking
      address nor a longitude west of 30 degrees west. */
  predicate Admits(p: Place, excludeUS: bool, b: Bounds) {
    var address := OrDefault(p.address, "Address unavailable");
    !(excludeUS && LooksUS(address))
    && HasLocation(p)
    && !(excludeUS && p.longitude.value < -30.0)
    && Within(b, p.latitude.value, p.longitude.value)
  }

  /** The centre made from a place (only places with a location are). */
  function CenterOf(p: Place, source: Source): Center {
    Center(OrDefault(p.name, "Recycling Center"), OrDefault(p.address, "Address unavailable"),
           p.latitude.GetOr(0.0), p.longitude.GetOr(0.0), source)
  }

  /** The records a loop over `xs` turns into centres, in order: those
      `keep` admits, each made into a centre by `make`. */
  function Kept<T>(xs: seq<T>, keep: T -> bool, make: T -> Center): (r: seq<Center>)
    ensures |r| <= |xs|
  {
    if xs == [] then []
    else (if keep(xs[0]) then [make(xs[0])] else []) + Kept(xs[1..], keep, make)
  }

  /** A loop over a reply's records appending the centres. */
  method Collect<T>(xs: seq<T>, keep: T -> bool, make: T -> Center) returns (results: seq<Center>)
    ensures results == Kept(xs, keep, make)
  {
    results := [];
    var i := 0;
    while i < |xs|
      invariant 0 <= i <= |xs|
      invariant results + Kept(xs[i..], keep, make) == Kept(xs, keep, make)
    {
      assert xs[i..][0] == xs[i] && xs[i..][1..] == xs[i + 1..];
      var rest := Kept(xs[i + 1..], keep, make);
      if keep(xs[i]) {
        assert results + Kept(xs[i..], keep, make) == (results + [make(xs[i])]) + rest;
        results := results + [make(xs[i])];
      } else {
        assert Kept(xs[i..], keep, make) == rest;
      }
      i := i + 1;
    }
    assert xs[|xs|..] == [];
  }

  /** Every centre is made from an admitted record. */
  lemma {:induction false} KeptFrom<T>(xs: seq<T>, keep: T -> bool, make: T -> Center, k: nat)
    requires k < |Kept(xs, keep, make)|
    ensures exists j :: 0 <= j < |xs| && keep(xs[j]) && Kept(xs, keep, make)[k] == make(xs[j])
    decreases |xs|
  {
    var head := if keep(xs[0]) then [make(xs[0])] else [];
    var rest := Kept(xs[1..], keep, make);
    if k < |head| {
      assert Kept(xs, keep, make)[k] == make(xs[0]);
    } else {
      KeptFrom(xs[1..], keep, make, k - |head|);
      var j :| 0 <= j < |xs[1..]| && keep(xs[1..][j]) && rest[k - |head|] == make(xs[1..][j]);
      assert xs[1..][j] == xs[j + 1];
      assert Kept(xs, keep, make)[k] == rest[k - |head|];
    }
  }

  /** The loop finds nothing exactly when no record is admitted. */
  lemma {:induction false} KeptEmpty<T>(xs: seq<T>, keep: T -> bool, make: T -> Center)
    ensures Kept(xs, keep, make) == [] <==> forall j :: 0 <= j < |xs| ==> !keep(xs[j])
    decreases |xs|
  {
    if xs != [] {
      KeptEmpty(xs[1..], keep, make);
      assert forall j :: 1 <= j < |xs| ==> xs[j] == xs[1..][j - 1];
    }
  }

  /** The centres of a Google reply's places. */
  function PlaceCenters(ps: seq<Place>, excludeUS: bool, b: Bounds, source: Source): seq<Center> {
    Kept(ps, p => Admits(p, excludeUS, b), p => CenterOf(p, source))
  }

  /** Every such centre is made from an admitted place, so it lies within
      the bounds, and, when US results are excluded, it is not west of 30
      degrees west and its address does not look American. */
  lemma PlaceCentersInside(ps: seq<Place>, excludeUS: bool, b: Bounds, source: Source, k: nat)
    requires k < |PlaceCenters(ps, excludeUS, b, source)|
    ensures exists j :: 0 <= j < |ps| && Admits(ps[j], excludeUS, b)
                        && PlaceCenters(ps, excludeUS, b, source)[k] == CenterOf(ps[j], source)
    ensures var c := PlaceCenters(ps, excludeUS, b, source)[k];
      Within(b, c.latitude, c.longitude) && c.source == source
      && (excludeUS ==> c.longitude >= -30.0 && !LooksUS(c.address))
  {
    KeptFrom(ps, p => Admits(p, excludeUS, b), p => CenterOf(p, source), k);
  }

  // ------------------------------------------------------------- Google

  /** A place-service reply that a 200 status carries. */
  predicate Ok<T>(r: Reply<T>) {
    r.Replied? && r.status == 200
  }

  /** The Google branch once the search centre is known: the nearby
      search, its text-search fallback, and the broader text search when
      the nearby results are all filtered out. */
  function AfterCentre(cc: string, b: Bounds, nearby: Reply<Place>, text: Reply<Place>): (r: Response)
    ensures r.Centers? || r.Upstream?
  {
    if nearby.Raised? then Upstream
    else if nearby.status != 200 then
      if Ok(text) then Centers(PlaceCenters(text.items, false, b, GoogleText)) else Upstream
    else
      var excludeUS := cc != [] && cc != "us";
      var found := PlaceCenters(nearby.items, excludeUS, b, GoogleNearby);
      if found != [] then Centers(found)
      else if Ok(text) then Centers(PlaceCenters(text.items, excludeUS, b, GoogleText))
      else Upstream
  }

  /** Whether a geocoding reply resolves the place name: a 200 reply whose
      first place has a location. */
  predicate Resolves(geo: Reply<Place>) {
    Ok(geo) && geo.items != [] && HasLocation(geo.items[0])
  }

  /** The Google branch. */
  function Google(q: Query, geo: Reply<Place>, nearby: Reply<Place>, text: Reply<Place>): (r: Response)
    ensures r.Status() in {200, 400, 502}
  {
    var query := Strip(q.q);
    var cc := CountryCode(q);
    if query != [] && Coordinates(q.lat, q.lng).None? && !Resolves(geo) then
      if geo.Raised? then Upstream else Unresolved(TextQuery(query, cc))
    else AfterCentre(cc, ParseBounds(q), nearby, text)
  }

  // --------------------------------------------------------------- Yelp

  /** Python truthiness of an optional number. */
  predicate Truthy(x: Option<real>) {
    x.Some? && x.value != 0.0
  }

  /** Whether a business is listed: both coordinates truthy. */
  predicate Listed(b: Business) {
    Truthy(b.latitude) && Truthy(b.longitude)
  }

  /** The centre made from a listed business. */
  function YelpCenter(b: Business): Center {
    var joined := Join(b.displayAddress, ", ");
    Center(OrDefault(b.name, "Recycling Center"), if joined != [] then joined else "Address unavailable",
           b.latitude.GetOr(0.0), b.longitude.GetOr(0.0), Yelp)
  }

  function YelpCenters(bs: seq<Business>): seq<Center> {
    Kept(bs, Listed, YelpCenter)
  }

  /** Every Yelp centre is made from a business of the reply whose two
      coordinates are both set and non-zero. */
  lemma YelpFrom(bs: seq<Business>, k: nat)
    requires k < |YelpCenters(bs)|
    ensures exists j :: 0 <= j < |bs| && Listed(bs[j]) && YelpCenters(bs)[k] == YelpCenter(bs[j])
    ensures YelpCenters(bs)[k].latitude != 0.0 && YelpCenters(bs)[k].longitude != 0.0
  {
    KeptFrom(bs, Listed, YelpCenter, k);
  }

  /** The Yelp branch: `raise_for_status` fails on 4xx and 5xx. */
  function YelpSearch(yelp: Reply<Business>): (r: Response)
    ensures r.Status() == 200 || r.Status() == 502
  {
    if yelp.Raised? || 400 <= yelp.status < 600 then Upstream
    else Centers(YelpCenters(yelp.items))
  }

  // ----------------------------------------------------------- endpoint

  predicate HasGoogleKey(keys: Keys) {
    keys.googleMaps != [] || keys.googlePlaces != []
  }

  /** The endpoint's answer. */
  function CentersNearby(q: Query, keys: Keys, geo: Reply<Place>, nearby: Reply<Place>,
                         text: Reply<Place>, yelp: Reply<Business>): (r: Response)
    ensures HasGoogleKey(keys) ==> r == Google(q, geo, nearby, text)
    ensures !HasGoogleKey(keys) && keys.yelp != [] ==> r == YelpSearch(yelp)
    ensures r.NotConfigured? <==> !HasGoogleKey(keys) && keys.yelp == []
  {
    if HasGoogleKey(keys) then Google(q, geo, nearby, text)
    else if keys.yelp != [] then YelpSearch(yelp)
    else NotConfigured
  }

  /** The endpoint with its loops, as the view runs it. */
  method Respond(q: Query, keys: Keys, geo: Reply<Place>, nearby: Reply<Place>,
                 text: Reply<Place>, yelp: Reply<Business>) returns (r: Response)
    ensures r == CentersNearby(q, keys, geo, nearby, text, yelp)
  {
    if HasGoogleKey(keys) {
      var query := Strip(q.q);
      var cc := CountryCode(q);
      var b := ParseBounds(q);
      if query != [] && Coordinates(q.lat, q.lng).None? && !Resolves(geo) {
        if geo.Raised? {
          return Upstream;
        }
        return Unresolved(TextQuery(query, cc));
      }
      if nearby.Raised? {
        return Upstream;
      }
      if nearby.status != 200 {
        if !Ok(text) {
          return Upstream;
        }
        var results := Collect(text.items, p => Admits(p, false, b), p => CenterOf(p, GoogleText));
        return Centers(results);
      }
      var excludeUS := cc != [] && cc != "us";
      var results := Collect(nearby.items, p => Admits(p, excludeUS, b), p => CenterOf(p, GoogleNearby));
      if results == [] {
        if !Ok(text) {
          return Upstream;
        }
        results := Collect(text.items, p => Admits(p, excludeUS, b), p => CenterOf(p, GoogleText));
      }
      return Centers(results);
    }
    if keys.yelp != [] {
      if yelp.Raised? || 400 <= yelp.status < 600 {
        return Upstream;
      }
      var results := Collect(yelp.items, Listed, YelpCenter);
      return Centers(results);
    }
    return NotConfigured;
  }

  // --------------------------------------------------------- properties

  /** With a Google key the Yelp reply plays no part, and the status is
      200, 400 or 502. */
  lemma GoogleFirst(q: Query, keys: Keys, geo: Reply<Place>, nearby: Reply<Place>,
                    text: Reply<Place>, yelp: Reply<Business>, other: Reply<Business>)
    requires HasGoogleKey(keys)
    ensures CentersNearby(q, keys, geo, nearby, text, yelp) == CentersNearby(q, keys, geo, nearby, text, other)
    ensures CentersNearby(q, keys, geo, nearby, text, yelp).Status() in {200, 400, 502}
  {
  }

  /** Without any key the answer is 412. */
  lemma NoProvider(q: Query, keys: Keys, geo: Reply<Place>, nearby: Reply<Place>,
                   text: Reply<Place>, yelp: Reply<Business>)
    requires keys.googleMaps == [] && keys.googlePlaces == [] && keys.yelp == []
    ensures CentersNearby(q, keys, geo, nearby, text, yelp).Status() == 412
  {
  }

  /** The text search is consulted only when the nearby search failed or
      all its places were filtered out. */
  lemma TextOnlyWhenNeeded(cc: string, b: Bounds, nearby: Reply<Place>, text: Reply<Place>, other: Reply<Place>)
    requires Ok(nearby)
    requires exists j :: 0 <= j < |nearby.items| && Admits(nearby.items[j], cc != [] && cc != "us", b)
    ensures AfterCentre(cc, b, nearby, text) == AfterCentre(cc, b, nearby, other)
    ensures AfterCentre(cc, b, nearby, text) == Centers(PlaceCenters(nearby.items, cc != [] && cc != "us", b, GoogleNearby))
  {
    var excludeUS := cc != [] && cc != "us";
    KeptEmpty(nearby.items, p => Admits(p, excludeUS, b), p => CenterOf(p, GoogleNearby));
  }

  /** The country is ignored on the fallback after a failed nearby search:
      no US exclusion applies there. */
  lemma FallbackIgnoresCountry(cc: string, other: string, b: Bounds, nearby: Reply<Place>, text: Reply<Place>)
    requires nearby.Replied? && nearby.status != 200
    ensures AfterCentre(cc, b, nearby, text) == AfterCentre(other, b, nearby, text)
  {
  }

  /** An unresolved place name is reported only with a place name and no
      usable coordinates. */
  lemma UnresolvedNeedsName(q: Query, geo: Reply<Place>, nearby: Reply<Place>, text: Reply<Place>)
    requires Google(q, geo, nearby, text).Unresolved?
    ensures Strip(q.q) != [] && Coordinates(q.lat, q.lng).None? && !Resolves(geo)
    ensures Google(q, geo, nearby, text).query == TextQuery(Strip(q.q), CountryCode(q))
  {
  }
}

/** The credits page: looking up a device model without regard to case
    and awarding ten points per gram of recoverable metal, kept for
    logged-in users and only shown to anonymous ones. */
module Credits {
  import opened Wrappers
  import opened Text
  import opened Numbers
  import opened Models

  predicate SameModel(d: Device, name: string) {
    Lower(d.modelName) == Lower(name)
  }

  /** `Device.objects.filter(model_name__iexact=name).first()`: the
      position of the first device whose model name equals `name` up to
      case. */
  function FindDevice(ds: seq<Device>, name: string): (r: Option<nat>)
    ensures r.Some? ==> r.value < |ds| && SameModel(ds[r.value], name)
    ensures r.Some? ==> forall j :: 0 <= j < r.value ==> !SameModel(ds[j], name)
    ensures r.None? <==> forall j :: 0 <= j < |ds| ==> !SameModel(ds[j], name)
  {
    if ds == [] then None
    else if SameModel(ds[0], name) then Some(0)
    else match FindDevice(ds[1..], name)
      case None => None
      case Some(k) => Some(k + 1)
  }

  /** `int(round(metal_value * 10))`, rounding half to even. */
  function PointsFor(d: Device): (p: int)
    ensures d.metalValue * 10.0 - 1.0 / 2.0 <= p as real <= d.metalValue * 10.0 + 1.0 / 2.0
    ensures d.metalValue >= 0.0 ==> p >= 0
  {
    RoundHalfEven(d.metalValue * 10.0)
  }

  datatype Award = Award(modelName: string, metalValue: real, pointsAwarded: int, saved: bool)

  /** What the page shows: the award, if any, and the balance of a
      logged-in user. */
  datatype CreditsPage = CreditsPage(result: Option<Award>, balance: Option<int>)

  /** The device a submission names, if it is a POST with a non-blank
      model that exists. */
  function Submitted(ds: seq<Device>, isPost: bool, deviceModel: string): Option<Device> {
    var name := Strip(deviceModel);
    if isPost && name != [] then
      match FindDevice(ds, name)
      case None => None
      case Some(k) => Some(ds[k])
    else None
  }

  function AwardOf(d: Device, saved: bool): Award {
    Award(d.modelName, d.metalValue, PointsFor(d), saved)
  }

  /** The page and the credit table after a request. */
  function CreditsOutcome(ds: seq<Device>, credits: map<nat, int>, visitor: Visitor, isPost: bool, deviceModel: string)
    : (r: (CreditsPage, map<nat, int>))
    ensures r.1.Keys == credits.Keys + (if visitor.Member? then {visitor.user} else {})
    ensures forall v :: v in credits && !(visitor.Member? && v == visitor.user) ==> r.1[v] == credits[v]
    ensures r.0.result.Some? <==> Submitted(ds, isPost, deviceModel).Some?
  {
    var found := Submitted(ds, isPost, deviceModel);
    match visitor
    case Anonymous =>
      (CreditsPage(if found.Some? then Some(AwardOf(found.value, false)) else None, None), credits)
    case Member(u) =>
      var points := if found.Some? then PointsFor(found.value) else 0;
      var after := credits[u := PointsOf(credits, u) + points];
      (CreditsPage(if found.Some? then Some(AwardOf(found.value, true)) else None, Some(after[u])), after)
  }

  /** A member ends with a credit row whose balance grew by the award
      (from 0 if the row is new) and sees that balance; nobody else's
      balance moves. An anonymous visitor sees the award unsaved and no
      balance, and nothing is stored. */
  lemma CreditsEffect(ds: seq<Device>, credits: map<nat, int>, visitor: Visitor, isPost: bool, deviceModel: string)
    ensures var (page, after) := CreditsOutcome(ds, credits, visitor, isPost, deviceModel);
      var found := Submitted(ds, isPost, deviceModel);
      && (page.result.Some? <==> found.Some?)
      && (found.Some? ==> page.result.value.pointsAwarded == PointsFor(found.value)
                          && page.result.value.saved == visitor.Member?)
      && (visitor.Anonymous? ==> page.balance.None? && after == credits)
      && (visitor.Member? ==>
            && visitor.user in after && page.balance == Some(after[visitor.user])
            && after[visitor.user] == PointsOf(credits, visitor.user) + (if found.Some? then PointsFor(found.value) else 0)
            && after.Keys == credits.Keys + {visitor.user}
            && forall v :: v in credits && v != visitor.user ==> after[v] == credits[v])
  {
  }

  /** Submitting the same model twice awards its points twice. */
  lemma CreditsTwice(ds: seq<Device>, credits: map<nat, int>, u: nat, deviceModel: string)
    requires Submitted(ds, true, deviceModel).Some?
    ensures var (_, once) := CreditsOutcome(ds, credits, Member(u), true, deviceModel);
      var (page, twice) := CreditsOutcome(ds, once, Member(u), true, deviceModel);
      page.balance == Some(PointsOf(credits, u) + 2 * PointsFor(Submitted(ds, true, deviceModel).value))
  {
  }

  /** A blank or unknown model awards nothing; a member's balance is
      still shown, starting from 0. */
  lemma NoAward(ds: seq<Device>, credits: map<nat, int>, u: nat, isPost: bool, deviceModel: string)
    requires !isPost || Strip(deviceModel) == [] || FindDevice(ds, Strip(deviceModel)).None?
    ensures CreditsOutcome(ds, credits, Member(u), isPost, deviceModel).0 == CreditsPage(None, Some(PointsOf(credits, u)))
    ensures CreditsOutcome(ds, credits, Anonymous, isPost, deviceModel).0 == CreditsPage(None, None)
  {
  }

  /** `credits`: awards points for a submitted device model and shows
      the member's balance. */
  method CreditsView(db: Store, visitor: Visitor, isPost: bool, deviceModel: string) returns (page: CreditsPage)
    requires db.Valid()
    requires visitor.Member? ==> visitor.user in db.users
    modifies db
    ensures db.Valid()
    ensures (page, db.credits) == CreditsOutcome(db.devices, old(db.credits), visitor, isPost, deviceModel)
    ensures db.users == old(db.users) && db.challenges == old(db.challenges)
    ensures db.completions == old(db.completions) && db.devices == old(db.devices)
  {
    var result: Option<Award> := None;
    var balance: Option<int> := None;
    ghost var found := Submitted(db.devices, isPost, deviceModel);
    ghost var (spec, after) := CreditsOutcome(db.devices, db.credits, visitor, isPost, deviceModel);
    var name := Strip(deviceModel);
    if isPost && name != [] {
      var k := FindDevice(db.devices, name);
      if k.Some? {
        var device := db.devices[k.value];
        var points := PointsFor(device);
        assert found == Some(device);
        if visitor.Member? {
          var _ := db.GetOrCreateCredit(visitor.user);
          db.AddPoints(visitor.user, points);
          assert db.credits == after;
          balance := Some(db.credits[visitor.user]);
          result := Some(AwardOf(device, true));
        } else {
          result := Some(AwardOf(device, false));
        }
      } else {
        assert found == None;
      }
    } else {
      assert found == None;
    }
    assert result == spec.result;
    if visitor.Member? {
      var points := db.GetOrCreateCredit(visitor.user);
      assert db.credits == after;
      balance := Some(points);
      assert balance == spec.balance;
    } else {
      assert db.credits == after && balance == spec.balance;
    }
    page := CreditsPage(result, balance);
    assert page == spec;
  }
}

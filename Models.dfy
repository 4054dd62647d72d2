/** The database schema: record types, the rules the schema imposes
    (one completion per user and challenge, the default listing orders,
    cascading deletes, a fresh credit starting at zero) and an in-memory
    store whose operations keep those rules. */
module Models {
  import opened Text
  import opened Seqs

  datatype RecyclingCenter = RecyclingCenter(name: string, address: string, latitude: real, longitude: real)

  /** A device model with its grams of recoverable metal. */
  datatype Device = Device(modelName: string, metalValue: real)

  datatype DriveType = SinglePickup | CommunityDrive

  /** Dates and times are opaque instants. */
  datatype Pickup = Pickup(name: string, email: string, phone: string, address: string, wasteType: string,
                           driveType: DriveType, pickupDate: int, pickupTime: int, createdAt: int)

  /** The fields of a user account the forms read and write; `password`
      is what `set_password` stored. */
  datatype Account = Account(username: string, email: string, firstName: string, lastName: string, password: string)

  datatype Challenge = Challenge(id: nat, title: string, co2Saved: real, isActive: bool, order: int, createdAt: int)

  datatype Completion = Completion(user: nat, challenge: nat, completedAt: int)

  /** Who makes a request: a logged-in user, by id, or an anonymous
      visitor. */
  datatype Visitor = Member(user: nat) | Anonymous

  /** What `get_or_create` on completions did: found the row, created it,
      or failed on the foreign key to an unknown challenge. */
  datatype Creation = Found | Created | Rejected

  // ------------------------------------------------------------ orders

  /** The default challenge order: `order` ascending, newest first on ties. */
  predicate ListedBefore(a: Challenge, b: Challenge) {
    a.order < b.order || (a.order == b.order && a.createdAt >= b.createdAt)
  }

  predicate DistinctChallenges(a: Challenge, b: Challenge) {
    a.id != b.id
  }

  /** The default completion order: newest first. */
  predicate NewerOrSame(a: Completion, b: Completion) {
    a.completedAt >= b.completedAt
  }

  /** `unique_together = (user, challenge)`. */
  predicate DistinctPairs(a: Completion, b: Completion) {
    a.user != b.user || a.challenge != b.challenge
  }

  function ChallengeIds(cs: seq<Challenge>): set<nat> {
    set c | c in cs :: c.id
  }

  predicate IsActive(c: Challenge) {
    c.isActive
  }

  /** `Challenge.objects.filter(is_active=True)`. */
  function ActiveChallenges(cs: seq<Challenge>): seq<Challenge> {
    Filter(IsActive, cs)
  }

  function ByUser(u: nat): Completion -> bool {
    (c: Completion) => c.user == u
  }

  /** `user.challenge_completions.all()`. */
  function CompletionsOf(cs: seq<Completion>, u: nat): seq<Completion> {
    Filter(ByUser(u), cs)
  }

  /** Active challenges keep the default order. */
  lemma ActiveInOrder(cs: seq<Challenge>)
    requires Pairwise(cs, ListedBefore)
    ensures Pairwise(ActiveChallenges(cs), ListedBefore)
    ensures forall k :: 0 <= k < |ActiveChallenges(cs)| ==> ActiveChallenges(cs)[k].isActive
  {
    FilterPairwise(IsActive, cs, ListedBefore);
  }

  /** A user's completions are listed newest first, each at most once. */
  lemma UserCompletionsInOrder(cs: seq<Completion>, u: nat)
    requires Pairwise(cs, NewerOrSame) && Pairwise(cs, DistinctPairs)
    ensures Pairwise(CompletionsOf(cs, u), NewerOrSame)
    ensures forall i, j :: 0 <= i < j < |CompletionsOf(cs, u)| ==>
      CompletionsOf(cs, u)[i].challenge != CompletionsOf(cs, u)[j].challenge
  {
    FilterPairwise(ByUser(u), cs, NewerOrSame);
    FilterPairwise(ByUser(u), cs, DistinctPairs);
    var f := CompletionsOf(cs, u);
    forall i, j | 0 <= i < j < |f| ensures f[i].challenge != f[j].challenge {
      assert ByUser(u)(f[i]) && ByUser(u)(f[j]);
      assert DistinctPairs(f[i], f[j]);
    }
  }

  // ------------------------------------------------------------ get_or_create

  predicate HasCompletion(cs: seq<Completion>, u: nat, n: nat) {
    exists k :: 0 <= k < |cs| && cs[k].user == u && cs[k].challenge == n
  }

  /** `ChallengeCompletion.objects.get_or_create(user=u, challenge_id=n)`
      over completions `cs` when the challenges have ids `ids`. */
  function GetOrCreate(cs: seq<Completion>, ids: set<nat>, u: nat, n: nat, now: int): (Creation, seq<Completion>) {
    if HasCompletion(cs, u, n) then (Found, cs)
    else if n in ids then (Created, [Completion(u, n, now)] + cs)
    else (Rejected, cs)
  }

  /** Afterwards the pair is recorded unless the challenge is unknown, and
      a row is added exactly when the outcome is `Created`. */
  lemma GetOrCreateEffect(cs: seq<Completion>, ids: set<nat>, u: nat, n: nat, now: int)
    ensures var (c, after) := GetOrCreate(cs, ids, u, n, now);
      && (c == Rejected <==> !HasCompletion(cs, u, n) && n !in ids)
      && (c != Rejected ==> HasCompletion(after, u, n))
      && (c == Created <==> |after| == |cs| + 1)
      && after[|after| - |cs|..] == cs
  {
    var (c, after) := GetOrCreate(cs, ids, u, n, now);
    if c == Created {
      assert after[0].user == u && after[0].challenge == n;
    }
  }

  /** `get_or_create` never records a pair twice and keeps the newest-first
      order when the clock has not gone back. */
  lemma {:induction false} GetOrCreateKeeps(cs: seq<Completion>, ids: set<nat>, u: nat, n: nat, now: int)
    requires Pairwise(cs, DistinctPairs) && Pairwise(cs, NewerOrSame)
    requires forall k :: 0 <= k < |cs| ==> cs[k].completedAt <= now
    ensures Pairwise(GetOrCreate(cs, ids, u, n, now).1, DistinctPairs)
    ensures Pairwise(GetOrCreate(cs, ids, u, n, now).1, NewerOrSame)
  {
    if !HasCompletion(cs, u, n) && n in ids {
      var c := Completion(u, n, now);
      forall k | 0 <= k < |cs| ensures DistinctPairs(c, cs[k]) {
        if cs[k].user == u {
          assert cs[k].challenge != n;
        }
      }
      PrependPairwise(c, cs, DistinctPairs);
      PrependPairwise(c, cs, NewerOrSame);
    }
  }

  // ------------------------------------------------------------ deletes

  function OtherUser(u: nat): Completion -> bool {
    (c: Completion) => c.user != u
  }

  function OtherChallenge(n: nat): Challenge -> bool {
    (c: Challenge) => c.id != n
  }

  function NotOfChallenge(n: nat): Completion -> bool {
    (c: Completion) => c.challenge != n
  }

  /** Removing a challenge removes exactly its id. */
  lemma IdsAfterDelete(cs: seq<Challenge>, n: nat)
    ensures ChallengeIds(Filter(OtherChallenge(n), cs)) == ChallengeIds(cs) - {n}
  {
    var f := Filter(OtherChallenge(n), cs);
    FilterFrom(OtherChallenge(n), cs);
    FilterKeeps(OtherChallenge(n), cs);
    forall i | i in ChallengeIds(cs) - {n} ensures i in ChallengeIds(f) {
      var c :| c in cs && c.id == i;
      var k :| 0 <= k < |cs| && cs[k] == c;
      assert OtherChallenge(n)(cs[k]);
    }
    forall i | i in ChallengeIds(f) ensures i in ChallengeIds(cs) - {n} {
      var c :| c in f && c.id == i;
      var k :| 0 <= k < |f| && f[k] == c;
      assert OtherChallenge(n)(f[k]);
    }
  }

  // ------------------------------------------------------------ credits

  /** `str(credit)`: "<username> - <points> pts". */
  function CreditLabel(username: string, points: int): (r: string)
    ensures StartsWith(r, username + " - ") && EndsWith(r, " pts")
  {
    username + " - " + IntToString(points) + " pts"
  }

  lemma IntToStringInjective(p: int, q: int)
    requires IntToString(p) == IntToString(q)
    ensures p == q
  {
    if p < 0 {
      assert NatToString(-p) == IntToString(p)[1..] == IntToString(q)[1..] == NatToString(-q);
      NatToStringInjective(-p, -q);
    } else {
      NatToStringInjective(p, q);
    }
  }

  /** A user's label tells the balance. */
  lemma CreditLabelInjective(username: string, p: int, q: int)
    requires CreditLabel(username, p) == CreditLabel(username, q)
    ensures p == q
  {
    var a := CreditLabel(username, p);
    var b := CreditLabel(username, q);
    var lo := |username| + 3;
    assert a[lo..|a| - 4] == IntToString(p);
    assert b[lo..|b| - 4] == IntToString(q);
    IntToStringInjective(p, q);
  }

  /** The balance a user sees: the stored points, or the 0 a fresh credit
      starts from. */
  function PointsOf(credits: map<nat, int>, u: nat): int {
    if u in credits then credits[u] else 0
  }

  // ------------------------------------------------------------ store

  /** The tables the views read and write. Users are keyed by id; a user
      has at most one credit row, so credits are a map. */
  class Store {
    var users: map<nat, Account>
    var nextUser: nat
    var challenges: seq<Challenge>
    var completions: seq<Completion>
    var credits: map<nat, int>
    /** In primary-key order: `Device` declares no ordering, so a
        filtered `.first()` takes the match with the lowest key, which is
        the first match in this sequence. */
    var devices: seq<Device>

    /** The schema's constraints and listing orders. */
    ghost predicate Valid()
      reads this
    {
      && (forall u :: u in users ==> u < nextUser)
      && Pairwise(challenges, DistinctChallenges)
      && Pairwise(challenges, ListedBefore)
      && Pairwise(completions, DistinctPairs)
      && Pairwise(completions, NewerOrSame)
      && (forall k :: 0 <= k < |completions| ==>
            completions[k].user in users && completions[k].challenge in ChallengeIds(challenges))
      && credits.Keys <= users.Keys
    }

    /** `now` is no earlier than any recorded completion. */
    ghost predicate NotBefore(now: int)
      reads this
    {
      forall k :: 0 <= k < |completions| ==> completions[k].completedAt <= now
    }

    constructor (challenges: seq<Challenge>, devices: seq<Device>)
      requires Pairwise(challenges, DistinctChallenges) && Pairwise(challenges, ListedBefore)
      ensures Valid()
      ensures this.challenges == challenges && this.devices == devices
      ensures users == map[] && completions == [] && credits == map[]
    {
      users := map[];
      nextUser := 0;
      this.challenges := challenges;
      completions := [];
      credits := map[];
      this.devices := devices;
    }

    /** Inserts a user under a fresh id. */
    method AddUser(a: Account) returns (u: nat)
      requires Valid()
      modifies this
      ensures Valid()
      ensures u !in old(users) && users == old(users)[u := a]
      ensures challenges == old(challenges) && completions == old(completions)
      ensures credits == old(credits) && devices == old(devices)
    {
      u := nextUser;
      users := users[u := a];
      nextUser := nextUser + 1;
    }

    /** Saves a changed account. */
    method UpdateUser(u: nat, a: Account)
      requires Valid() && u in users
      modifies this
      ensures Valid()
      ensures users == old(users)[u := a]
      ensures challenges == old(challenges) && completions == old(completions)
      ensures credits == old(credits) && devices == old(devices)
    {
      users := users[u := a];
    }

    /** `ChallengeCompletion.objects.get_or_create(user=u, challenge_id=n)`. */
    method GetOrCreateCompletion(u: nat, n: nat, now: int) returns (c: Creation)
      requires Valid() && u in users && NotBefore(now)
      modifies this
      ensures Valid() && NotBefore(now)
      ensures (c, completions) == GetOrCreate(old(completions), ChallengeIds(challenges), u, n, now)
      ensures users == old(users) && challenges == old(challenges)
      ensures credits == old(credits) && devices == old(devices)
    {
      var r := GetOrCreate(completions, ChallengeIds(challenges), u, n, now);
      GetOrCreateKeeps(completions, ChallengeIds(challenges), u, n, now);
      c := r.0;
      completions := r.1;
    }

    /** `UserCredit.objects.get_or_create(user=u, defaults={"points": 0})`. */
    method GetOrCreateCredit(u: nat) returns (points: int)
      requires Valid() && u in users
      modifies this
      ensures Valid()
      ensures u in credits && points == credits[u] == PointsOf(old(credits), u)
      ensures credits == old(credits)[u := PointsOf(old(credits), u)]
      ensures users == old(users) && challenges == old(challenges)
      ensures completions == old(completions) && devices == old(devices)
    {
      if u !in credits {
        credits := credits[u := 0];
      }
      points := credits[u];
    }

    /** `credit.points = F('points') + p; credit.save()`. */
    method AddPoints(u: nat, p: int)
      requires Valid() && u in credits
      modifies this
      ensures Valid()
      ensures credits == old(credits)[u := old(credits)[u] + p]
      ensures users == old(users) && challenges == old(challenges)
      ensures completions == old(completions) && devices == old(devices)
    {
      credits := credits[u := credits[u] + p];
    }

    /** Deleting a user cascades to their credit and completions. */
    method DeleteUser(u: nat)
      requires Valid()
      modifies this
      ensures Valid()
      ensures users == old(users) - {u} && credits == old(credits) - {u}
      ensures completions == Filter(OtherUser(u), old(completions))
      ensures forall k :: 0 <= k < |completions| ==> completions[k].user != u
      ensures challenges == old(challenges) && devices == old(devices)
    {
      FilterPairwise(OtherUser(u), completions, DistinctPairs);
      FilterPairwise(OtherUser(u), completions, NewerOrSame);
      FilterFrom(OtherUser(u), completions);
      users := users - {u};
      credits := credits - {u};
      completions := Filter(OtherUser(u), completions);
    }

    /** Deleting a challenge cascades to its completions. */
    method DeleteChallenge(n: nat)
      requires Valid()
      modifies this
      ensures Valid()
      ensures challenges == Filter(OtherChallenge(n), old(challenges))
      ensures completions == Filter(NotOfChallenge(n), old(completions))
      ensures n !in ChallengeIds(challenges)
      ensures users == old(users) && credits == old(credits) && devices == old(devices)
    {
      FilterPairwise(OtherChallenge(n), challenges, DistinctChallenges);
      FilterPairwise(OtherChallenge(n), challenges, ListedBefore);
      FilterPairwise(NotOfChallenge(n), completions, DistinctPairs);
      FilterPairwise(NotOfChallenge(n), completions, NewerOrSame);
      FilterFrom(NotOfChallenge(n), completions);
      IdsAfterDelete(challenges, n);
      challenges := Filter(OtherChallenge(n), challenges);
      completions := Filter(NotOfChallenge(n), completions);
    }
  }
}

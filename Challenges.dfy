/** The green-challenges page (completing a challenge, the CO2 total,
    the progress percentage and the badge) and the merge of a visitor's
    session progress into their account when they log in. */
module Challenges {
  import opened Wrappers
  import opened Text
  import opened Seqs
  import opened Models

  // ------------------------------------------------------------ keys

  /** The id a challenge carries on the page, `ch<id>`. */
  function ChallengeKey(n: nat): (r: string)
    ensures StartsWith(r, "ch") && |r| > 2
  {
    "ch" + NatToString(n)
  }

  /** `int(key.replace('ch', ''))`, accepting plain digit runs only: a
      key holding any character but a digit, `c` or `h` does not parse. */
  function ParseChallengeKey(key: string): (r: Option<nat>)
    ensures r.Some? ==> forall i :: 0 <= i < |key| ==> IsDigit(key[i]) || key[i] == 'c' || key[i] == 'h'
  {
    ReplaceKeepsChars(key, "ch", "");
    ParseNat(Replace(key, "ch", ""))
  }

  lemma DigitsHaveNoMarker(d: string)
    requires AllDigits(d)
    ensures !Contains(d, "ch")
  {
    ContainsIff(d, "ch");
    forall j ensures !OccursAt(d, "ch", j) {
      if 0 <= j && j + 2 <= |d| {
        assert d[j..j + 2][0] == d[j];
        assert IsDigit(d[j]);
      }
    }
  }

  /** A page id parses back to its challenge. */
  lemma ChallengeKeyRoundTrip(n: nat)
    ensures ParseChallengeKey(ChallengeKey(n)) == Some(n)
  {
    var d := NatToString(n);
    ReplaceHead(ChallengeKey(n), "ch", "");
    assert ChallengeKey(n)[2..] == d;
    DigitsHaveNoMarker(d);
    ReplaceAbsent(d, "ch", "");
    assert Replace(ChallengeKey(n), "ch", "") == d;
    NatToStringRoundTrip(n);
  }

  /** Ids other than the page's own can name the same challenge. */
  lemma KeyAliases()
    ensures ParseChallengeKey("7") == Some(7)
    ensures ParseChallengeKey("ch07") == Some(7)
  {
    DigitsHaveNoMarker("7");
    DigitsHaveNoMarker("07");
    ReplaceAbsent("7", "ch", "");
    ReplaceAbsent("07", "ch", "");
    ReplaceHead("ch07", "ch", "");
    assert "ch07"[2..] == "07";
    assert DigitsValue("07") == 7 by {
      assert "07"[..1] == "0";
      assert "0"[..0] == [];
    }
    assert DigitsValue("7") == 7 by {
      assert "7"[..0] == [];
    }
  }

  // ------------------------------------------------------------ page

  /** One challenge as the page lists it. */
  datatype Row = Row(key: string, dbId: nat, title: string, co2Saved: real)

  function RowOf(c: Challenge): Row {
    Row(ChallengeKey(c.id), c.id, c.title, c.co2Saved)
  }

  /** The active challenges, in the default order, as rows. */
  function Rows(cs: seq<Challenge>): seq<Row> {
    var a := ActiveChallenges(cs);
    seq(|a|, k requires 0 <= k < |a| => RowOf(a[k]))
  }

  function RowKeys(rows: seq<Row>): set<string> {
    set r | r in rows :: r.key
  }

  /** `sum(c['co2_saved'] for c in challenges if c['id'] in done)`. */
  function TotalCo2(rows: seq<Row>, done: set<string>): (r: real)
    ensures (forall k :: 0 <= k < |rows| ==> rows[k].co2Saved >= 0.0) ==> r >= 0.0
    ensures (forall k :: 0 <= k < |rows| ==> rows[k].key !in done) ==> r == 0.0
  {
    if rows == [] then 0.0
    else (if rows[0].key in done then rows[0].co2Saved else 0.0) + TotalCo2(rows[1..], done)
  }

  /** Only the listed challenges' membership matters to the total. */
  lemma {:induction false} TotalCo2Agree(rows: seq<Row>, d1: set<string>, d2: set<string>)
    requires forall k :: 0 <= k < |rows| ==> (rows[k].key in d1 <==> rows[k].key in d2)
    ensures TotalCo2(rows, d1) == TotalCo2(rows, d2)
  {
    if rows != [] {
      TotalCo2Agree(rows[1..], d1, d2);
    }
  }

  /** Ids in the completed set that no active challenge carries add
      nothing to the CO2 total. */
  lemma TotalCo2OnlyListed(rows: seq<Row>, done: set<string>)
    ensures TotalCo2(rows, done) == TotalCo2(rows, done * RowKeys(rows))
  {
    TotalCo2Agree(rows, done, done * RowKeys(rows));
  }

  /** Completing more never lowers the total while savings are
      non-negative. */
  lemma {:induction false} TotalCo2Monotone(rows: seq<Row>, d1: set<string>, d2: set<string>)
    requires d1 <= d2
    requires forall k :: 0 <= k < |rows| ==> rows[k].co2Saved >= 0.0
    ensures TotalCo2(rows, d1) <= TotalCo2(rows, d2)
  {
    if rows != [] {
      TotalCo2Monotone(rows[1..], d1, d2);
    }
  }

  /** `int(count / total * 100)`, over exact rationals. */
  function Progress(count: nat, total: nat): (r: nat)
    ensures total > 0 ==> r * total <= count * 100 < (r + 1) * total
    ensures total == 0 ==> r == 0
  {
    if total > 0 then count * 100 / total else 0
  }

  /** Progress stays within 100 while the count does not pass the number
      of listed challenges, and reaches 100 when they are equal; a larger
      completed set takes it past 100. */
  lemma ProgressBounds(count: nat, total: nat)
    ensures count <= total ==> Progress(count, total) <= 100
    ensures count == total > 0 ==> Progress(count, total) == 100
    ensures count > total > 0 ==> Progress(count, total) >= 100
    ensures Progress(2, 1) == 200
  {
    if total > 0 {
      var r := Progress(count, total);
      if count <= total {
        assert count * 100 <= total * 100;
        MulCancel(r, 100, total);
      }
      if count >= total {
        assert total * 100 <= count * 100;
        MulCancel(100, r + 1, total);
      }
    }
  }

  /** Cancelling a positive factor. */
  lemma MulCancel(a: int, b: int, c: int)
    requires c > 0
    ensures a * c <= b * c ==> a <= b
    ensures a * c < b * c ==> a < b
  {
    var x := a - b;
    assert a * c - b * c == x * c;
    MulSign(x, c);
  }

  lemma {:induction false} MulSign(x: int, c: nat)
    requires c > 0
    ensures x > 0 ==> x * c > 0
    ensures x >= 0 ==> x * c >= 0
    decreases c
  {
    if c > 1 {
      MulSign(x, c - 1);
      assert x * c == x * (c - 1) + x;
    }
  }

  datatype Badge = NoBadge | EcoStarter | GreenInfluencer | EcoHero

  /** The badge for a number of completed challenges. */
  function BadgeFor(count: nat): (b: Badge)
    ensures b == NoBadge <==> count == 0
    ensures b == EcoStarter <==> 1 <= count <= 2
    ensures b == GreenInfluencer <==> 3 <= count <= 4
    ensures b == EcoHero <==> count >= 5
  {
    var b := NoBadge;
    var b := if count >= 1 then EcoStarter else b;
    var b := if count >= 3 then GreenInfluencer else b;
    if count >= 5 then EcoHero else b
  }

  function Rank(b: Badge): nat {
    match b
    case NoBadge => 0
    case EcoStarter => 1
    case GreenInfluencer => 2
    case EcoHero => 3
  }

  /** More completions never earn a lesser badge. */
  lemma BadgeMonotone(m: nat, n: nat)
    requires m <= n
    ensures Rank(BadgeFor(m)) <= Rank(BadgeFor(n))
  {
  }

  /** What the page shows. */
  datatype Page = Page(rows: seq<Row>, completed: set<string>, totalCo2: real, progress: nat, badge: Badge)

  datatype Response = Shown(page: Page) | ServerError

  function PageOf(cs: seq<Challenge>, done: set<string>): Page {
    var rows := Rows(cs);
    Page(rows, done, TotalCo2(rows, done), Progress(|done|, |rows|), BadgeFor(|done|))
  }

  /** The completed set after a submission of `posted`: the stripped id
      joins unless it is empty or already there. */
  function Submitted(done: set<string>, posted: string): (r: set<string>)
    ensures r == done <==> Strip(posted) == [] || Strip(posted) in done
    ensures r != done ==> r == done + {Strip(posted)} && |r| == |done| + 1
  {
    var key := Strip(posted);
    if key != [] && key !in done then done + {key} else done
  }

  /** Submitting the same id again changes nothing. */
  lemma SubmittedIdempotent(done: set<string>, posted: string)
    ensures Submitted(Submitted(done, posted), posted) == Submitted(done, posted)
  {
  }

  // ------------------------------------------------------------ the view

  /** The visitor's session: its `challenges_completed` list, with an
      absent key read as the empty list. */
  class Session {
    var completed: seq<string>

    constructor (completed: seq<string>)
      ensures this.completed == completed
    {
      this.completed := completed;
    }
  }

  /** The ids a member has completed, as the page writes them. */
  function DoneKeys(comps: seq<Completion>, u: nat): set<string> {
    set k | 0 <= k < |comps| && comps[k].user == u :: ChallengeKey(comps[k].challenge)
  }

  function Elements(s: seq<string>): set<string> {
    set x | x in s
  }

  /** A member's visit: the response and the completions afterwards. */
  function MemberVisit(cs: seq<Challenge>, comps: seq<Completion>, u: nat, isPost: bool, posted: string, now: int)
    : (r: (Response, seq<Completion>))
    ensures !isPost ==> r == (Shown(PageOf(cs, DoneKeys(comps, u))), comps)
    ensures r.0.ServerError? ==> r.1 == comps
    ensures |r.1| >= |comps| && r.1[|r.1| - |comps|..] == comps
  {
    var done := DoneKeys(comps, u);
    var key := Strip(posted);
    if isPost && key != [] && key !in done then
      match ParseChallengeKey(key)
      case None => (Shown(PageOf(cs, done + {key})), comps)
      case Some(n) =>
        var (c, after) := GetOrCreate(comps, ChallengeIds(cs), u, n, now);
        if c == Rejected then (ServerError, comps) else (Shown(PageOf(cs, done + {key})), after)
    else (Shown(PageOf(cs, done)), comps)
  }

  /** An anonymous visit: the response and the session list afterwards. */
  function AnonymousVisit(cs: seq<Challenge>, session: seq<string>, isPost: bool, posted: string)
    : (r: (Response, seq<string>))
    ensures r.0.Shown? && r.0.page.completed == Elements(r.1)
    ensures |session| <= |r.1| <= |session| + 1 && r.1[..|session|] == session
    ensures !isPost ==> r.1 == session
  {
    var done := Elements(session);
    var key := Strip(posted);
    if isPost && key != [] && key !in done then (Shown(PageOf(cs, done + {key})), session + [key])
    else (Shown(PageOf(cs, done)), session)
  }

  /** A member sees the submitted id among the completed ones whenever
      the page is shown, whether or not its number parsed; only an id
      naming no challenge at all fails the request. */
  lemma MemberSees(cs: seq<Challenge>, comps: seq<Completion>, u: nat, isPost: bool, posted: string, now: int)
    ensures var (r, after) := MemberVisit(cs, comps, u, isPost, posted, now);
      && (r.Shown? ==> r.page.completed == (if isPost then Submitted(DoneKeys(comps, u), posted) else DoneKeys(comps, u)))
      && (r.ServerError? <==> isPost && Submitted(DoneKeys(comps, u), posted) != DoneKeys(comps, u)
                              && ParseChallengeKey(Strip(posted)).Some?
                              && !HasCompletion(comps, u, ParseChallengeKey(Strip(posted)).value)
                              && ParseChallengeKey(Strip(posted)).value !in ChallengeIds(cs))
      && after[|after| - |comps|..] == comps
  {
    var done := DoneKeys(comps, u);
    var key := Strip(posted);
    if isPost && key != [] && key !in done {
      match ParseChallengeKey(key)
      case None =>
      case Some(n) =>
        GetOrCreateEffect(comps, ChallengeIds(cs), u, n, now);
    }
  }

  /** When a member submits the page's own id of an existing challenge,
      the stored completions then show exactly what the page showed. */
  lemma MemberKeyPersisted(cs: seq<Challenge>, comps: seq<Completion>, u: nat, n: nat, now: int)
    requires n in ChallengeIds(cs)
    ensures var (r, after) := MemberVisit(cs, comps, u, true, ChallengeKey(n), now);
      r.Shown? && r.page.completed == DoneKeys(after, u)
  {
    var done := DoneKeys(comps, u);
    var key := ChallengeKey(n);
    StripTrimmedKey(n);
    ChallengeKeyRoundTrip(n);
    if key !in done {
      NotDoneNoCompletion(comps, u, n);
      var (c, after) := GetOrCreate(comps, ChallengeIds(cs), u, n, now);
      assert after == [Completion(u, n, now)] + comps;
      DoneKeysPrepend(comps, u, n, now);
    }
  }

  /** A challenge whose page id is missing from a member's completed set
      has no completion of theirs. */
  lemma NotDoneNoCompletion(comps: seq<Completion>, u: nat, n: nat)
    requires ChallengeKey(n) !in DoneKeys(comps, u)
    ensures !HasCompletion(comps, u, n)
  {
    forall k | 0 <= k < |comps| && comps[k].user == u ensures comps[k].challenge != n {
      assert ChallengeKey(comps[k].challenge) in DoneKeys(comps, u);
    }
  }

  lemma StripTrimmedKey(n: nat)
    ensures Strip(ChallengeKey(n)) == ChallengeKey(n)
  {
    var k := ChallengeKey(n);
    assert !IsSpace(k[0]) && !IsSpace(k[|k| - 1]) by {
      assert k[0] == 'c';
      assert IsDigit(NatToString(n)[|NatToString(n)| - 1]);
      assert k[|k| - 1] == NatToString(n)[|NatToString(n)| - 1];
    }
    StripTrimmed(k);
  }

  lemma DoneKeysPrepend(comps: seq<Completion>, u: nat, n: nat, now: int)
    ensures DoneKeys([Completion(u, n, now)] + comps, u) == DoneKeys(comps, u) + {ChallengeKey(n)}
  {
    var after := [Completion(u, n, now)] + comps;
    forall x | x in DoneKeys(comps, u) ensures x in DoneKeys(after, u) {
      var k :| 0 <= k < |comps| && comps[k].user == u && x == ChallengeKey(comps[k].challenge);
      assert after[k + 1] == comps[k];
    }
    forall x | x in DoneKeys(after, u) ensures x in DoneKeys(comps, u) + {ChallengeKey(n)} {
      var k :| 0 <= k < |after| && after[k].user == u && x == ChallengeKey(after[k].challenge);
      if k > 0 {
        assert after[k] == comps[k - 1];
      }
    }
    assert after[0].user == u;
  }

  /** For an anonymous visitor the session list afterwards holds exactly
      the ids the page shows as completed, and the only change to it is
      the submitted id appended. */
  lemma AnonymousSees(cs: seq<Challenge>, session: seq<string>, isPost: bool, posted: string)
    ensures var (r, after) := AnonymousVisit(cs, session, isPost, posted);
      && r.Shown?
      && r.page.completed == Elements(after)
      && r.page.completed == (if isPost then Submitted(Elements(session), posted) else Elements(session))
      && (after == session || after == session + [Strip(posted)])
  {
    var (r, after) := AnonymousVisit(cs, session, isPost, posted);
    if after != session {
      assert Elements(after) == Elements(session) + {Strip(posted)};
    }
  }

  /** `green_challenges`: shows the page and, on a submission, records
      the completion in the member's account or the visitor's session. */
  method GreenChallenges(db: Store, session: Session, visitor: Visitor, isPost: bool, posted: string, now: int)
    returns (r: Response)
    requires db.Valid() && db.NotBefore(now)
    requires visitor.Member? ==> visitor.user in db.users
    modifies db, session
    ensures db.Valid() && db.NotBefore(now)
    ensures visitor.Member? ==>
      && (r, db.completions) == MemberVisit(db.challenges, old(db.completions), visitor.user, isPost, posted, now)
      && session.completed == old(session.completed)
    ensures visitor.Anonymous? ==>
      && (r, session.completed) == AnonymousVisit(db.challenges, old(session.completed), isPost, posted)
      && db.completions == old(db.completions)
    ensures db.users == old(db.users) && db.challenges == old(db.challenges)
    ensures db.credits == old(db.credits) && db.devices == old(db.devices)
  {
    var key := Strip(posted);
    match visitor
    case Member(u) =>
      var done := DoneKeys(db.completions, u);
      if isPost && key != [] && key !in done {
        match ParseChallengeKey(key)
        case None =>
          r := Shown(PageOf(db.challenges, done + {key}));
        case Some(n) =>
          var c := db.GetOrCreateCompletion(u, n, now);
          if c == Rejected {
            r := ServerError;
          } else {
            r := Shown(PageOf(db.challenges, done + {key}));
          }
      } else {
        r := Shown(PageOf(db.challenges, done));
      }
    case Anonymous =>
      var done := Elements(session.completed);
      if isPost && key != [] && key !in done {
        session.completed := session.completed + [key];
        r := Shown(PageOf(db.challenges, done + {key}));
      } else {
        r := Shown(PageOf(db.challenges, done));
      }
  }

  // ------------------------------------------------------------ login merge

  predicate UnknownKey(key: string, ids: set<nat>) {
    ParseChallengeKey(key).Some? && ParseChallengeKey(key).value !in ids
  }

  /** The merge loop from `pending` on, with `migrated` rows created so
      far: the completions, the count, and whether a key named an unknown
      challenge, which ends the merge. */
  function MergeFrom(comps: seq<Completion>, ids: set<nat>, u: nat, pending: seq<string>, now: int, migrated: nat)
    : (r: (seq<Completion>, nat, bool))
    ensures r.1 >= migrated
    decreases |pending|
  {
    if pending == [] then (comps, migrated, false)
    else match ParseChallengeKey(pending[0])
      case None => MergeFrom(comps, ids, u, pending[1..], now, migrated)
      case Some(n) =>
        var (c, after) := GetOrCreate(comps, ids, u, n, now);
        if c == Rejected then (comps, migrated, true)
        else MergeFrom(after, ids, u, pending[1..], now, if c == Created then migrated + 1 else migrated)
  }

  /** A session list none of whose keys parses changes nothing and does
      not fail. */
  lemma {:induction false} MergeUnparsable(comps: seq<Completion>, ids: set<nat>, u: nat, pending: seq<string>, now: int, m: nat)
    requires forall k :: 0 <= k < |pending| ==> ParseChallengeKey(pending[k]).None?
    ensures MergeFrom(comps, ids, u, pending, now, m) == (comps, m, false)
    decreases |pending|
  {
    if pending != [] {
      assert ParseChallengeKey(pending[0]).None?;
      MergeUnparsable(comps, ids, u, pending[1..], now, m);
    }
  }

  /** The merge only adds rows, counts exactly the rows it adds, and
      adds only rows for known challenges. */
  lemma {:induction false} MergeGrowth(comps: seq<Completion>, ids: set<nat>, u: nat, pending: seq<string>, now: int, m: nat)
    requires forall k :: 0 <= k < |comps| ==> comps[k].challenge in ids
    ensures var (after, migrated, _) := MergeFrom(comps, ids, u, pending, now, m);
      && migrated >= m && |after| == |comps| + (migrated - m)
      && after[|after| - |comps|..] == comps
      && forall k :: 0 <= k < |after| ==> after[k].challenge in ids
    decreases |pending|, 1
  {
    if pending != [] {
      match ParseChallengeKey(pending[0])
      case None =>
        MergeGrowth(comps, ids, u, pending[1..], now, m);
      case Some(n) =>
        MergeGrowthRecorded(comps, ids, u, pending, n, now, m);
    }
  }

  /** The step of `MergeGrowth` for a key that parses to `n`. */
  lemma {:induction false} MergeGrowthRecorded(comps: seq<Completion>, ids: set<nat>, u: nat, pending: seq<string>, n: nat, now: int, m: nat)
    requires forall k :: 0 <= k < |comps| ==> comps[k].challenge in ids
    requires pending != [] && ParseChallengeKey(pending[0]) == Some(n)
    ensures var (after, migrated, _) := MergeFrom(comps, ids, u, pending, now, m);
      && migrated >= m && |after| == |comps| + (migrated - m)
      && after[|after| - |comps|..] == comps
      && forall k :: 0 <= k < |after| ==> after[k].challenge in ids
    decreases |pending|, 0
  {
    if HasCompletion(comps, u, n) {
      MergeGrowth(comps, ids, u, pending[1..], now, m);
    } else if n in ids {
      var next := [Completion(u, n, now)] + comps;
      assert next[|next| - |comps|..] == comps;
      MergeGrowth(next, ids, u, pending[1..], now, m + 1);
      var (after, migrated, _) := MergeFrom(next, ids, u, pending[1..], now, m + 1);
      SuffixOfSuffix(comps, next, after);
    }
  }

  lemma SuffixOfSuffix(a: seq<Completion>, b: seq<Completion>, c: seq<Completion>)
    requires |a| <= |b| <= |c| && b[|b| - |a|..] == a && c[|c| - |b|..] == b
    ensures c[|c| - |a|..] == a
  {
    assert c[|c| - |a|..] == c[|c| - |b|..][|b| - |a|..];
  }

  /** The merge fails exactly when the session holds a key naming an
      unknown challenge. */
  lemma {:induction false} MergeFails(comps: seq<Completion>, ids: set<nat>, u: nat, pending: seq<string>, now: int, m: nat)
    requires forall k :: 0 <= k < |comps| ==> comps[k].challenge in ids
    ensures MergeFrom(comps, ids, u, pending, now, m).2 <==> exists k :: 0 <= k < |pending| && UnknownKey(pending[k], ids)
    decreases |pending|
  {
    if pending != [] {
      var rest := pending[1..];
      assert forall k :: 0 <= k < |rest| ==> rest[k] == pending[k + 1];
      match ParseChallengeKey(pending[0])
      case None =>
        MergeFails(comps, ids, u, rest, now, m);
        assert !UnknownKey(pending[0], ids);
        if exists k :: 0 <= k < |pending| && UnknownKey(pending[k], ids) {
          var k :| 0 <= k < |pending| && UnknownKey(pending[k], ids);
          assert UnknownKey(rest[k - 1], ids);
        }
      case Some(n) =>
        var (c, next) := GetOrCreate(comps, ids, u, n, now);
        if n in ids {
          assert !UnknownKey(pending[0], ids);
          assert forall k :: 0 <= k < |next| ==> next[k].challenge in ids;
          MergeFails(next, ids, u, rest, now, if c == Created then m + 1 else m);
          if exists k :: 0 <= k < |pending| && UnknownKey(pending[k], ids) {
            var k :| 0 <= k < |pending| && UnknownKey(pending[k], ids);
            assert UnknownKey(rest[k - 1], ids);
          }
        } else {
          assert !HasCompletion(comps, u, n);
          assert UnknownKey(pending[0], ids);
        }
    }
  }

  lemma HasCompletionSuffix(comps: seq<Completion>, after: seq<Completion>, u: nat, n: nat)
    requires |comps| <= |after| && after[|after| - |comps|..] == comps
    requires HasCompletion(comps, u, n)
    ensures HasCompletion(after, u, n)
  {
    var k :| 0 <= k < |comps| && comps[k].user == u && comps[k].challenge == n;
    assert after[|after| - |comps| + k] == comps[k];
  }

  /** A merge that does not fail leaves the account with a completion for
      every challenge the session's keys name. */
  lemma {:induction false} MergeRecords(comps: seq<Completion>, ids: set<nat>, u: nat, pending: seq<string>, now: int, m: nat)
    requires forall k :: 0 <= k < |comps| ==> comps[k].challenge in ids
    ensures var (after, _, failed) := MergeFrom(comps, ids, u, pending, now, m);
      !failed ==> forall k :: 0 <= k < |pending| && ParseChallengeKey(pending[k]).Some? ==>
        HasCompletion(after, u, ParseChallengeKey(pending[k]).value)
    decreases |pending|
  {
    if pending != [] {
      var rest := pending[1..];
      var (after, _, failed) := MergeFrom(comps, ids, u, pending, now, m);
      match ParseChallengeKey(pending[0])
      case None =>
        MergeRecords(comps, ids, u, rest, now, m);
        if !failed {
          forall k | 0 <= k < |pending| && ParseChallengeKey(pending[k]).Some?
            ensures HasCompletion(after, u, ParseChallengeKey(pending[k]).value)
          {
            assert k > 0 && pending[k] == rest[k - 1];
          }
        }
      case Some(n) =>
        var (c, next) := GetOrCreate(comps, ids, u, n, now);
        GetOrCreateEffect(comps, ids, u, n, now);
        if c != Rejected {
          var m' := if c == Created then m + 1 else m;
          assert forall k :: 0 <= k < |next| ==> next[k].challenge in ids;
          MergeRecords(next, ids, u, rest, now, m');
          MergeGrowth(next, ids, u, rest, now, m');
          if !failed {
            forall k | 0 <= k < |pending| && ParseChallengeKey(pending[k]).Some?
              ensures HasCompletion(after, u, ParseChallengeKey(pending[k]).value)
            {
              if k == 0 {
                HasCompletionSuffix(next, after, u, n);
              } else {
                assert pending[k] == rest[k - 1];
              }
            }
          }
        }
    }
  }

  /** The session merge at login: every key that parses is recorded for
      the member, `migrated` counts the rows created, and the session list
      is cleared unless a key named an unknown challenge. A failure keeps
      the rows created before it. */
  method MergeSession(db: Store, session: Session, u: nat, now: int) returns (migrated: nat, failed: bool)
    requires db.Valid() && db.NotBefore(now) && u in db.users
    modifies db, session
    ensures db.Valid() && db.NotBefore(now)
    ensures (db.completions, migrated, failed)
         == MergeFrom(old(db.completions), ChallengeIds(db.challenges), u, old(session.completed), now, 0)
    ensures session.completed == if old(session.completed) != [] && !failed then [] else old(session.completed)
    ensures db.users == old(db.users) && db.challenges == old(db.challenges)
    ensures db.credits == old(db.credits) && db.devices == old(db.devices)
  {
    var pending := session.completed;
    ghost var ids := ChallengeIds(db.challenges);
    migrated := 0;
    failed := false;
    if pending == [] {
      return;
    }
    var i := 0;
    while i < |pending| && !failed
      invariant 0 <= i <= |pending|
      invariant db.Valid() && db.NotBefore(now)
      invariant session.completed == pending
      invariant db.users == old(db.users) && db.challenges == old(db.challenges)
      invariant db.credits == old(db.credits) && db.devices == old(db.devices)
      invariant !failed ==>
        MergeFrom(db.completions, ids, u, pending[i..], now, migrated) == MergeFrom(old(db.completions), ids, u, pending, now, 0)
      invariant failed ==> (db.completions, migrated, true) == MergeFrom(old(db.completions), ids, u, pending, now, 0)
    {
      assert pending[i..][1..] == pending[i + 1..];
      match ParseChallengeKey(pending[i]) {
        case None =>
        case Some(n) =>
          var c := db.GetOrCreateCompletion(u, n, now);
          if c == Rejected {
            failed := true;
          } else if c == Created {
            migrated := migrated + 1;
          }
      }
      i := i + 1;
    }
    if !failed {
      session.completed := [];
    }
  }
}

/** What a clean may evict and what it achieves: the candidates query, the age pass with its LIMIT, and
    the size pass with its accounting. */
module Cleaning {
  import opened Basics
  import opened Clock
  import opened Store
  import opened Usage

  const CLEAN_BATCH: nat := 10_000

  datatype Candidate = Candidate(blobId: nat, accessTime: int, storedSize: nat)

  /** The blobs with at least one action; for the others MAX(AccessTime) is NULL. */
  function Referenced(db: Db): set<nat> {
    set a | a in db.actions && db.actions[a].blobId in db.blobs :: db.actions[a].blobId
  }

  ghost function MaxOf(times: set<int>): (m: int)
    requires times != {}
    ensures m in times && forall x | x in times :: x <= m
  {
    var t: int := Pick(times);
    var rest := times - {t};
    assert times == rest + {t};
    if rest == {} then t else Max(t, MaxOf(rest))
  }

  function AccessTimesOf(db: Db, id: nat): set<int> {
    set a | a in db.actions && db.actions[a].blobId == id :: db.actions[a].accessTime
  }

  ghost function MaxAccess(db: Db, id: nat): int
    requires id in Referenced(db)
  {
    var a :| a in db.actions && db.actions[a].blobId == id;
    assert db.actions[a].accessTime in AccessTimesOf(db, id);
    MaxOf(AccessTimesOf(db, id))
  }

  lemma MaxAccessIsMax(db: Db, id: nat)
    requires id in Referenced(db)
    ensures exists a :: a in db.actions && db.actions[a].blobId == id && db.actions[a].accessTime == MaxAccess(db, id)
    ensures forall a | a in db.actions && db.actions[a].blobId == id :: db.actions[a].accessTime <= MaxAccess(db, id)
  {
    var a :| a in db.actions && db.actions[a].blobId == id;
    assert db.actions[a].accessTime in AccessTimesOf(db, id);
    assert forall b | b in db.actions && db.actions[b].blobId == id ::
             db.actions[b].accessTime in AccessTimesOf(db, id);
  }

  ghost function Eligible(db: Db, cutoff: int): set<nat> {
    set id | id in Referenced(db) && MaxAccess(db, id) <= cutoff
  }

  function Ids(cs: seq<Candidate>): set<nat> {
    set c | c in cs :: c.blobId
  }

  ghost predicate IsCandidate(db: Db, cutoff: int, c: Candidate) {
    && c.blobId in Eligible(db, cutoff)
    && c.accessTime == MaxAccess(db, c.blobId)
    && c.storedSize == db.blobs[c.blobId].storedSize
  }

  function IdSeq(cs: seq<Candidate>): (ids: seq<nat>)
    ensures |ids| == |cs| && forall i | 0 <= i < |cs| :: ids[i] == cs[i].blobId
  {
    seq(|cs|, i requires 0 <= i < |cs| => cs[i].blobId)
  }

  ghost predicate DistinctIds(cs: seq<Candidate>) {
    Distinct(IdSeq(cs))
  }

  /** A result of the candidates query: GROUP BY, HAVING, ORDER BY and LIMIT. Ties may come in any order. */
  ghost predicate IsCandidateList(db: Db, cutoff: int, limit: nat, cs: seq<Candidate>) {
    && |cs| <= limit
    && DistinctIds(cs)
    && (forall c | c in cs :: IsCandidate(db, cutoff, c))
    && (forall i, j | 0 <= i < j < |cs| :: cs[i].accessTime <= cs[j].accessTime)
    && (forall id | id in Eligible(db, cutoff) && id !in Ids(cs) ::
          |cs| == limit && forall c | c in cs :: c.accessTime <= MaxAccess(db, id))
  }

  lemma IdsSize(cs: seq<Candidate>)
    requires DistinctIds(cs)
    ensures |Ids(cs)| == |cs|
  {
    if cs != [] {
      var last := |cs| - 1;
      IdsSize(cs[..last]);
      assert cs == cs[..last] + [cs[last]];
      assert Ids(cs) == Ids(cs[..last]) + {cs[last].blobId};
    }
  }

  /** A LIMIT that is no smaller than the number of eligible blobs truncates nothing. */
  lemma WideLimitFindsAll(db: Db, cutoff: int, limit: nat, cs: seq<Candidate>)
    requires IsCandidateList(db, cutoff, limit, cs) && |Eligible(db, cutoff)| <= limit
    ensures Ids(cs) == Eligible(db, cutoff)
  {
    IdsSize(cs);
    assert Ids(cs) <= Eligible(db, cutoff);
    if id :| id in Eligible(db, cutoff) && id !in Ids(cs) {
      SubsetSize(Ids(cs) + {id}, Eligible(db, cutoff));
    }
  }

  lemma SubsetSize<T>(small: set<T>, large: set<T>)
    requires small <= large
    ensures |small| <= |large|
  {
    assert large == small + (large - small);
  }

  // ---- The age pass ----

  function Cutoff(now: int, olderThan: int): int {
    Unix(now - olderThan)
  }

  /** Whether the cutoff in whole seconds and the age in nanoseconds draw the same line. */
  predicate Aligned(now: int, maxAge: int) {
    maxAge % SECOND == 0 || now % SECOND < maxAge % SECOND
  }

  /** An access at least maxAge ago, in exact arithmetic. */
  predicate IsOld(now: int, accessTime: int, maxAge: int) {
    (Unix(now) - accessTime) * SECOND >= maxAge
  }

  predicate SameSide(now: int, maxAge: int, accessTime: int) {
    accessTime <= Cutoff(now, maxAge) <==> IsOld(now, accessTime, maxAge)
  }

  /** They do exactly when maxAge is in whole seconds or its fraction exceeds the clock's. */
  lemma CutoffMeansAge(now: int, maxAge: int)
    ensures (forall accessTime: int :: SameSide(now, maxAge, accessTime)) <==> Aligned(now, maxAge)
  {
    var whole, fraction := maxAge / SECOND, maxAge % SECOND;
    if Aligned(now, maxAge) {
      assert Cutoff(now, maxAge) == Unix(now) - whole - (if fraction == 0 then 0 else 1);
    } else {
      var accessTime := Unix(now) - whole;
      assert Cutoff(now, maxAge) == accessTime;
      assert (Unix(now) - accessTime) * SECOND == whole * SECOND < maxAge;
      assert !SameSide(now, maxAge, accessTime);
    }
  }

  /** Aligned or not, the cutoff misses no old access. */
  lemma CutoffCatchesTheOld(now: int, maxAge: int, accessTime: int)
    ensures IsOld(now, accessTime, maxAge) ==> accessTime <= Cutoff(now, maxAge)
  {
    if Aligned(now, maxAge) {
      CutoffMeansAge(now, maxAge);
      assert SameSide(now, maxAge, accessTime);
    } else {
      assert Cutoff(now, maxAge) == Unix(now) - maxAge / SECOND;
    }
  }

  /** The blobs that have actions, all of them at least maxAge old. */
  ghost function FullyExpired(db: Db, now: int, maxAge: int): set<nat> {
    set id | id in Referenced(db) &&
      forall a | a in db.actions && db.actions[a].blobId == id :: IsOld(now, db.actions[a].accessTime, maxAge)
  }

  lemma FullyExpiredByMax(db: Db, now: int, maxAge: int, id: nat)
    requires id in Referenced(db)
    ensures id in FullyExpired(db, now, maxAge) <==> IsOld(now, MaxAccess(db, id), maxAge)
  {
    MaxAccessIsMax(db, id);
  }

  function Expired(db: Db, now: int, maxAge: int): set<string> {
    Counted(db) - Younger(db, now, maxAge)
  }

  lemma FullyExpiredAreEligible(db: Db, now: int, maxAge: int)
    ensures FullyExpired(db, now, maxAge) <= Eligible(db, Cutoff(now, maxAge))
    ensures Aligned(now, maxAge) ==> FullyExpired(db, now, maxAge) == Eligible(db, Cutoff(now, maxAge))
  {
    forall id | id in Referenced(db)
      ensures id in FullyExpired(db, now, maxAge) ==> MaxAccess(db, id) <= Cutoff(now, maxAge)
      ensures Aligned(now, maxAge) && MaxAccess(db, id) <= Cutoff(now, maxAge) ==> id in FullyExpired(db, now, maxAge)
    {
      FullyExpiredByMax(db, now, maxAge, id);
      CutoffCatchesTheOld(now, maxAge, MaxAccess(db, id));
      CutoffMeansAge(now, maxAge);
      assert Aligned(now, maxAge) ==> SameSide(now, maxAge, MaxAccess(db, id));
    }
  }

  ghost function AnAction(db: Db, id: nat): (a: string)
    requires id in Referenced(db)
    ensures a in db.actions && db.actions[a].blobId == id && id in db.blobs
  {
    var a :| a in db.actions && db.actions[a].blobId == id;
    a
  }

  /** Pigeonhole: each fully expired blob owns an expired action of its own. */
  lemma ExpiredBlobsAtMostActions(db: Db, now: int, maxAge: int)
    requires AgesFit(db, now)
    ensures |FullyExpired(db, now, maxAge)| <= |Expired(db, now, maxAge)|
  {
    var owner := map id | id in FullyExpired(db, now, maxAge) :: AnAction(db, id);
    forall id | id in owner
      ensures owner[id] in Expired(db, now, maxAge)
    {
      var time := db.actions[owner[id]].accessTime;
      if maxAge > 0 {
        AgeIsTrueAge(now, time);
      }
      assert AgeOf(now, time) >= maxAge;
    }
    InjectionBoundsSize(owner, Expired(db, now, maxAge));
    assert owner.Keys == FullyExpired(db, now, maxAge);
  }

  /** The number the age pass computes from the statistics. */
  function ToDelete(us: UsageStats, maxAge: int): int {
    us.All().count - us.At(maxAge).count
  }

  lemma ToDeleteCountsExpired(db: Db, now: int, durs: seq<int>, us: UsageStats, maxAge: int)
    requires IsUsage(db, now, durs, us) && maxAge in durs && MAX_DURATION in durs
    ensures ToDelete(us, maxAge) == |Expired(db, now, maxAge)|
  {
    InfinityIsTotal(db, now);
    assert Counted(db) == Younger(db, now, maxAge) + Expired(db, now, maxAge);
  }

  ghost predicate AgePass(db: Db, now: int, us: UsageStats, maxAge: int, aged: seq<Candidate>) {
    if maxAge > 0 && ToDelete(us, maxAge) > 0
    then IsCandidateList(db, Cutoff(now, maxAge), ToDelete(us, maxAge) + 1, aged)
    else aged == []
  }

  /** A list that is as long as its limit and still leaves out a fully expired blob holds fully expired
      blobs only, since the least recent come first. */
  lemma CutShortListsAreExpired(db: Db, now: int, maxAge: int, limit: nat, cs: seq<Candidate>, id: nat)
    requires IsCandidateList(db, Cutoff(now, maxAge), limit, cs)
    requires id in FullyExpired(db, now, maxAge) && id !in Ids(cs)
    ensures |cs| == limit && Ids(cs) <= FullyExpired(db, now, maxAge)
  {
    FullyExpiredAreEligible(db, now, maxAge);
    FullyExpiredByMax(db, now, maxAge, id);
    forall c | c in cs
      ensures c.blobId in FullyExpired(db, now, maxAge)
    {
      assert IsCandidate(db, Cutoff(now, maxAge), c);
      FullyExpiredByMax(db, now, maxAge, c.blobId);
    }
  }

  /** With statistics of the same state and clock, the age pass removes every blob that has actions and
      whose actions are all at least maxAge old: the LIMIT of toDelete+1 never cuts one off. If maxAge
      is aligned with the clock, it removes exactly those. */
  lemma AgePassIsExact(db: Db, now: int, durs: seq<int>, us: UsageStats, maxAge: int, aged: seq<Candidate>)
    requires IsUsage(db, now, durs, us) && maxAge in durs && MAX_DURATION in durs
    requires maxAge > 0 && AgesFit(db, now) && AgePass(db, now, us, maxAge, aged)
    ensures FullyExpired(db, now, maxAge) <= Ids(aged)
    ensures Aligned(now, maxAge) ==> Ids(aged) == FullyExpired(db, now, maxAge) && |aged| <= ToDelete(us, maxAge)
    ensures if Expired(db, now, maxAge) == {} then aged == [] else |aged| <= |Expired(db, now, maxAge)| + 1
  {
    var expired := FullyExpired(db, now, maxAge);
    ToDeleteCountsExpired(db, now, durs, us, maxAge);
    ExpiredBlobsAtMostActions(db, now, maxAge);
    if id :| id in expired && id !in Ids(aged) {
      CutShortListsAreExpired(db, now, maxAge, ToDelete(us, maxAge) + 1, aged, id);
      IdsSize(aged);
      SubsetSize(Ids(aged), expired);
    }
    if Aligned(now, maxAge) {
      FullyExpiredAreEligible(db, now, maxAge);
      assert Ids(aged) <= expired by {
        assert forall c | c in aged :: IsCandidate(db, Cutoff(now, maxAge), c);
      }
      IdsSize(aged);
    }
  }

  /** Whatever the ages, an aligned age pass evicts no action younger than maxAge. */
  lemma AgePassSparesTheYoung(db: Db, now: int, us: UsageStats, maxAge: int, aged: seq<Candidate>, a: string)
    requires Aligned(now, maxAge) && AgePass(db, now, us, maxAge, aged)
    requires a in db.actions && a !in RemoveRows(db, Ids(aged)).actions
    ensures IsOld(now, db.actions[a].accessTime, maxAge)
  {
    var c :| c in aged && c.blobId == db.actions[a].blobId;
    assert IsCandidate(db, Cutoff(now, maxAge), c);
    FullyExpiredAreEligible(db, now, maxAge);
  }

  // ---- Exactly when the age pass spares the young ----

  /** Tables as the schema allows them, without ages that overflow in either direction. */
  ghost predicate Admissible(db: Db, now: int) {
    && NoNegativeAccess(db)
    && AgesFit(db, now)
    && forall a | a in db.actions :: -MAX_DURATION <= (Unix(now) - db.actions[a].accessTime) * SECOND
  }

  /** The first whole second after maxAge is an age that no action can have. */
  predicate OutOfReach(now: int, maxAge: int) {
    (maxAge / SECOND + 1) * SECOND > MAX_DURATION || maxAge / SECOND + 1 > Unix(now)
  }

  /** Whatever the age pass may evict from these tables is old. */
  ghost predicate PassSpares(db: Db, now: int, durs: seq<int>, maxAge: int) {
    forall us, aged, a | IsUsage(db, now, durs, us) && AgePass(db, now, us, maxAge, aged)
      && a in db.actions && a !in RemoveRows(db, Ids(aged)).actions :: IsOld(now, db.actions[a].accessTime, maxAge)
  }

  lemma NothingToDelete(db: Db, now: int, durs: seq<int>, us: UsageStats, maxAge: int)
    requires IsUsage(db, now, durs, us) && maxAge in durs && MAX_DURATION in durs
    requires maxAge > 0 && Admissible(db, now) && !Aligned(now, maxAge) && OutOfReach(now, maxAge)
    ensures ToDelete(us, maxAge) == 0
  {
    ToDeleteCountsExpired(db, now, durs, us, maxAge);
    forall a | a in Counted(db)
      ensures AgeOf(now, db.actions[a].accessTime) < maxAge
    {
      AgeIsTrueAge(now, db.actions[a].accessTime);
      var k := Unix(now) - db.actions[a].accessTime;
      assert k <= maxAge / SECOND;
    }
    assert Expired(db, now, maxAge) == {};
  }

  /** Two blobs with one action each, at the cutoff and a second before it. */
  function TwoBlobs(now: int, maxAge: int): Db {
    var row := BlobRow("", 0, 0, None);
    var time := Unix(now) - maxAge / SECOND;
    Db(map[1 := row, 2 := row], map["a" := ActionRow(1, "", 0, time), "b" := ActionRow(2, "", 0, time - 1)], map[], 3)
  }

  lemma TwoBlobsAccess(now: int, maxAge: int)
    ensures var db := TwoBlobs(now, maxAge); var time := Unix(now) - maxAge / SECOND;
            Referenced(db) == {1, 2} && MaxAccess(db, 1) == time && MaxAccess(db, 2) == time - 1
  {
    var db := TwoBlobs(now, maxAge);
    assert db.actions["a"].blobId == 1 && db.actions["b"].blobId == 2;
    MaxAccessIsMax(db, 1);
    MaxAccessIsMax(db, 2);
  }

  lemma TwoBlobsAges(now: int, maxAge: int)
    requires maxAge > 0 && !Aligned(now, maxAge) && !OutOfReach(now, maxAge)
    ensures var db := TwoBlobs(now, maxAge);
            Admissible(db, now) && Expired(db, now, maxAge) == {"b"} && !IsOld(now, db.actions["a"].accessTime, maxAge)
  {
    var db := TwoBlobs(now, maxAge);
    AgeIsTrueAge(now, db.actions["a"].accessTime);
    AgeIsTrueAge(now, db.actions["b"].accessTime);
  }

  function BothCandidates(now: int, maxAge: int): seq<Candidate> {
    var time := Unix(now) - maxAge / SECOND;
    [Candidate(2, time - 1, 0), Candidate(1, time, 0)]
  }

  lemma BothAreCandidates(now: int, maxAge: int)
    requires !Aligned(now, maxAge)
    ensures IsCandidateList(TwoBlobs(now, maxAge), Cutoff(now, maxAge), 2, BothCandidates(now, maxAge))
    ensures Ids(BothCandidates(now, maxAge)) == {1, 2}
  {
    var aged := BothCandidates(now, maxAge);
    assert Cutoff(now, maxAge) == Unix(now) - maxAge / SECOND;
    TwoBlobsAccess(now, maxAge);
    assert aged[0].blobId == 2 && aged[1].blobId == 1;
  }

  ghost function StatsOf(db: Db, now: int, durs: seq<int>): (us: UsageStats)
    ensures IsUsage(db, now, durs, us)
  {
    UsageStats(map d | d in durs :: Tally(db, Younger(db, now, d)), |MissingBlobRows(db)|)
  }

  lemma TwoBlobsPass(now: int, maxAge: int, us: UsageStats)
    requires maxAge > 0 && !Aligned(now, maxAge) && ToDelete(us, maxAge) == 1
    ensures var db, aged := TwoBlobs(now, maxAge), BothCandidates(now, maxAge);
            AgePass(db, now, us, maxAge, aged) && "a" in db.actions && "a" !in RemoveRows(db, Ids(aged)).actions
  {
    BothAreCandidates(now, maxAge);
  }

  /** The input on which an age pass that is not aligned fails: one action is old, so the LIMIT is two,
      and the action that is younger than maxAge goes with it. */
  lemma UnalignedPassTakesTheYoung(now: int, durs: seq<int>, maxAge: int)
    requires maxAge in durs && MAX_DURATION in durs && maxAge > 0
    requires !Aligned(now, maxAge) && !OutOfReach(now, maxAge)
    ensures Admissible(TwoBlobs(now, maxAge), now) && !PassSpares(TwoBlobs(now, maxAge), now, durs, maxAge)
  {
    var db, aged := TwoBlobs(now, maxAge), BothCandidates(now, maxAge);
    var us := StatsOf(db, now, durs);
    TwoBlobsAges(now, maxAge);
    ToDeleteCountsExpired(db, now, durs, us, maxAge);
    assert |Expired(db, now, maxAge)| == 1;
    TwoBlobsPass(now, maxAge, us);
  }

  lemma PassSparesIf(db: Db, now: int, durs: seq<int>, maxAge: int)
    requires maxAge in durs && MAX_DURATION in durs && maxAge > 0 && Admissible(db, now)
    requires Aligned(now, maxAge) || OutOfReach(now, maxAge)
    ensures PassSpares(db, now, durs, maxAge)
  {
    forall us, aged, a | IsUsage(db, now, durs, us) && AgePass(db, now, us, maxAge, aged)
      && a in db.actions && a !in RemoveRows(db, Ids(aged)).actions
      ensures IsOld(now, db.actions[a].accessTime, maxAge)
    {
      if Aligned(now, maxAge) {
        AgePassSparesTheYoung(db, now, us, maxAge, aged, a);
      } else {
        NothingToDelete(db, now, durs, us, maxAge);
        assert false;
      }
    }
  }

  /** The age pass spares the young on all tables exactly when maxAge is aligned with the clock or no
      action can be old at all. */
  lemma AgePassSparesExactly(now: int, durs: seq<int>, maxAge: int)
    requires maxAge in durs && MAX_DURATION in durs && maxAge > 0
    ensures (forall db | Admissible(db, now) :: PassSpares(db, now, durs, maxAge)) <==>
              Aligned(now, maxAge) || OutOfReach(now, maxAge)
  {
    if Aligned(now, maxAge) || OutOfReach(now, maxAge) {
      forall db | Admissible(db, now)
        ensures PassSpares(db, now, durs, maxAge)
      {
        PassSparesIf(db, now, durs, maxAge);
      }
    } else {
      UnalignedPassTakesTheYoung(now, durs, maxAge);
    }
  }

  // ---- Exactly when the age pass finds all of the old ----

  /** Whatever the age pass may evict from these tables, no fully expired blob is left out. */
  ghost predicate PassFinds(db: Db, now: int, durs: seq<int>, maxAge: int) {
    forall us, aged | IsUsage(db, now, durs, us) && AgePass(db, now, us, maxAge, aged) ::
      FullyExpired(db, now, maxAge) <= Ids(aged)
  }

  function OneBlob(accessTime: int): Db {
    Db(map[1 := BlobRow("", 0, 0, None)], map["a" := ActionRow(1, "", 0, accessTime)], map[], 2)
  }

  lemma HiddenByOverflow(now: int, maxAge: int)
    requires maxAge > 0
    ensures Expired(OneBlob(Unix(now) - LAST_SECOND - 1), now, maxAge) == {}
  {
    assert AgeOf(now, Unix(now) - LAST_SECOND - 1) == 0;
  }

  /** The input on which an age that overflows 64 bits hides a blob, from 2262 on: its only action, not
      used for LAST_SECOND + 1 seconds, is counted as new, so there is nothing to delete. */
  lemma OverflowHidesTheOldest(now: int, durs: seq<int>, maxAge: int)
    requires maxAge in durs && MAX_DURATION in durs && 0 < maxAge <= MAX_DURATION && Unix(now) > LAST_SECOND
    ensures var db := OneBlob(Unix(now) - LAST_SECOND - 1);
            NoNegativeAccess(db) && FullyExpired(db, now, maxAge) == {1} && !PassFinds(db, now, durs, maxAge)
  {
    var db := OneBlob(Unix(now) - LAST_SECOND - 1);
    var us := StatsOf(db, now, durs);
    HiddenByOverflow(now, maxAge);
    ToDeleteCountsExpired(db, now, durs, us, maxAge);
    assert AgePass(db, now, us, maxAge, []);
    assert db.actions["a"].blobId in Referenced(db);
    assert FullyExpired(db, now, maxAge) == {1};
    assert 1 !in Ids([]);
  }

  lemma PassFindsIf(db: Db, now: int, durs: seq<int>, maxAge: int)
    requires maxAge in durs && MAX_DURATION in durs && maxAge > 0 && AgesFit(db, now)
    ensures PassFinds(db, now, durs, maxAge)
  {
    forall us, aged | IsUsage(db, now, durs, us) && AgePass(db, now, us, maxAge, aged)
      ensures FullyExpired(db, now, maxAge) <= Ids(aged)
    {
      AgePassIsExact(db, now, durs, us, maxAge, aged);
    }
  }

  /** The age pass finds every fully expired blob of all tables exactly until LAST_SECOND. */
  lemma AgePassFindsExactly(now: int, durs: seq<int>, maxAge: int)
    requires maxAge in durs && MAX_DURATION in durs && 0 < maxAge <= MAX_DURATION
    ensures (forall db | NoNegativeAccess(db) :: PassFinds(db, now, durs, maxAge)) <==> Unix(now) <= LAST_SECOND
  {
    if Unix(now) <= LAST_SECOND {
      forall db | NoNegativeAccess(db)
        ensures PassFinds(db, now, durs, maxAge)
      {
        AgesFitUntil2262(db, now);
        PassFindsIf(db, now, durs, maxAge);
      }
    } else {
      OverflowHidesTheOldest(now, durs, maxAge);
    }
  }
}

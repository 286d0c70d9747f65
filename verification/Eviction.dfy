/** The two passes of cleanOldObjects as relations, and what they guarantee about size and recency. */
module Eviction {
  import opened Basics
  import opened Clock
  import opened Store
  import opened Usage
  import opened Cleaning
  import opened Durations

  /** Stored bytes counted once per action, as the statistics count them. */
  ghost function ActionBytes(db: Db): nat {
    Sum(StoredSizes(db, Counted(db)))
  }

  function BlobSizes(db: Db): map<nat, nat> {
    map id | id in Referenced(db) :: db.blobs[id].storedSize
  }

  /** Stored bytes counted once per blob that some action refers to. */
  ghost function BlobBytes(db: Db): nat {
    Sum(BlobSizes(db))
  }

  function SizeSum(cs: seq<Candidate>): nat {
    if cs == [] then 0 else SizeSum(cs[..|cs| - 1]) + cs[|cs| - 1].storedSize
  }

  /** n is the length of the shortest prefix whose sizes reach need, or of the whole list. */
  ghost predicate IsShortestPrefix(cs: seq<Candidate>, need: int, n: nat) {
    && n <= |cs|
    && (forall m | 0 <= m < n :: SizeSum(cs[..m]) < need)
    && (n == |cs| || SizeSum(cs[..n]) >= need)
  }

  ghost predicate SizePass(db: Db, now: int, maxSize: int, tracked: int, fetched: seq<Candidate>, n: nat) {
    if maxSize > 0 && tracked > maxSize
    then IsCandidateList(db, Cutoff(now, 0), CLEAN_BATCH, fetched) && IsShortestPrefix(fetched, tracked - maxSize, n)
    else fetched == [] && n == 0
  }

  // ---- Deleting rows ----

  lemma RemoveInTwoSteps(db: Db, first: set<nat>, second: set<nat>)
    ensures RemoveRows(RemoveRows(db, first), second) == RemoveRows(db, first + second)
  {
  }

  /** Deleting a referenced blob frees at least its stored size of per-action bytes. */
  lemma RemoveOneBlob(db: Db, id: nat)
    requires id in Referenced(db)
    ensures ActionBytes(RemoveRows(db, {id})) + db.blobs[id].storedSize <= ActionBytes(db)
  {
    var db' := RemoveRows(db, {id});
    var a := AnAction(db, id);
    var sizes := StoredSizes(db, Counted(db));
    SumRemove(sizes, a);
    SumAtMost(StoredSizes(db', Counted(db')), sizes - {a});
  }

  lemma NextCandidateIsThere(db: Db, cutoff: int, limit: nat, cs: seq<Candidate>, k: nat)
    requires IsCandidateList(db, cutoff, limit, cs) && k < |cs|
    ensures var rest := RemoveRows(db, Ids(cs[..k]));
            && cs[k].blobId in Referenced(rest)
            && rest.blobs[cs[k].blobId].storedSize == cs[k].storedSize
  {
    assert IsCandidate(db, cutoff, cs[k]);
    assert cs[k].blobId !in Ids(cs[..k]);
    StillReferenced(db, Ids(cs[..k]));
  }

  lemma {:induction false} RemovePrefix(db: Db, cutoff: int, limit: nat, cs: seq<Candidate>, n: nat)
    requires IsCandidateList(db, cutoff, limit, cs) && n <= |cs|
    ensures ActionBytes(RemoveRows(db, Ids(cs[..n]))) + SizeSum(cs[..n]) <= ActionBytes(db)
  {
    if n == 0 {
      assert RemoveRows(db, Ids(cs[..0])) == db by { assert Ids(cs[..0]) == {}; }
    } else {
      var c := cs[n - 1];
      RemovePrefix(db, cutoff, limit, cs, n - 1);
      assert cs[..n] == cs[..n - 1] + [c] && cs[..n][..n - 1] == cs[..n - 1];
      assert Ids(cs[..n]) == Ids(cs[..n - 1]) + {c.blobId};
      RemoveInTwoSteps(db, Ids(cs[..n - 1]), {c.blobId});
      NextCandidateIsThere(db, cutoff, limit, cs, n - 1);
      RemoveOneBlob(RemoveRows(db, Ids(cs[..n - 1])), c.blobId);
    }
  }

  lemma StillReferenced(db: Db, ids: set<nat>)
    ensures Referenced(RemoveRows(db, ids)) == Referenced(db) - ids
  {
    forall id' | id' in Referenced(db) - ids
      ensures id' in Referenced(RemoveRows(db, ids))
    {
      var a := AnAction(db, id');
      assert a in RemoveRows(db, ids).actions;
    }
  }

  /** Counting once per blob never gives more than counting once per action. */
  lemma {:induction false} BlobBytesAtMostActionBytes(db: Db)
    ensures BlobBytes(db) <= ActionBytes(db)
    decreases |Referenced(db)|
  {
    if Referenced(db) == {} {
      assert BlobSizes(db) == map[];
    } else {
      var id := Pick(Referenced(db));
      var db' := RemoveRows(db, {id});
      StillReferenced(db, {id});
      assert Referenced(db) == Referenced(db') + {id};
      BlobBytesAtMostActionBytes(db');
      RemoveOneBlob(db, id);
      assert BlobSizes(db) - {id} == BlobSizes(db');
      SumRemove(BlobSizes(db), id);
    }
  }

  /** Once per blob: together with the blobs that have no action, these are all stored bytes. */
  lemma BlobBytesAreStored(db: Db)
    ensures BlobBytes(db) + Sum(Sizes(db.blobs - Referenced(db))) == Sum(Sizes(db.blobs))
  {
    SumSplit(Sizes(db.blobs), Referenced(db));
    assert Sizes(db.blobs) - Referenced(db) == Sizes(db.blobs - Referenced(db));
    assert BlobSizes(db) == SizesAmong(db.blobs, Referenced(db));
  }

  // ---- The size bound ----

  /** The statistics start the accounting at the true per-action size, or at twice that when maxAge is the
      largest duration. */
  lemma TrackedStartsTrue(db: Db, now: int, us: UsageStats, maxAge: int)
    requires IsListedUsage(db, now, BucketsOf(maxAge), us)
    ensures us.All().size == TrackedBytes(db, maxAge)
  {
    UsageIsExact(db, now, maxAge, us);
  }

  ghost predicate NoFutureAccess(db: Db, now: int) {
    forall a | a in db.actions :: db.actions[a].accessTime <= Unix(now)
  }

  predicate SameTables(db: Db, db': Db) {
    db.blobs == db'.blobs && db.actions == db'.actions
  }

  /** Sizes and references do not depend on the files. */
  lemma FilesDoNotMatter(db: Db, db': Db)
    requires SameTables(db, db')
    ensures ActionBytes(db) == ActionBytes(db') && BlobBytes(db) == BlobBytes(db')
    ensures Referenced(db) == Referenced(db')
  {
    assert StoredSizes(db, Counted(db)) == StoredSizes(db', Counted(db'));
    assert BlobSizes(db) == BlobSizes(db');
  }

  lemma AgePassFrees(db: Db, now: int, us: UsageStats, maxAge: int, aged: seq<Candidate>)
    requires AgePass(db, now, us, maxAge, aged)
    ensures ActionBytes(RemoveRows(db, Ids(aged))) + SizeSum(aged) <= ActionBytes(db)
  {
    assert aged[..|aged|] == aged;
    if aged == [] {
      assert Ids(aged) == {};
      assert RemoveRows(db, Ids(aged)) == db;
    } else {
      RemovePrefix(db, Cutoff(now, maxAge), ToDelete(us, maxAge) + 1, aged, |aged|);
    }
  }

  lemma SizePassFrees(db: Db, now: int, maxSize: int, tracked: int, fetched: seq<Candidate>, n: nat)
    requires SizePass(db, now, maxSize, tracked, fetched, n)
    ensures n <= |fetched|
    ensures ActionBytes(RemoveRows(db, Ids(fetched[..n]))) + SizeSum(fetched[..n]) <= ActionBytes(db)
  {
    if fetched == [] {
      assert Ids(fetched[..n]) == {};
      assert RemoveRows(db, Ids(fetched[..n])) == db;
    } else {
      RemovePrefix(db, Cutoff(now, 0), CLEAN_BATCH, fetched, n);
    }
  }

  /** The states of a clean: the statistics are those of db, the age pass leads to mid, the size pass
      to end. Files may differ as they please. */
  ghost predicate IsClean(db: Db, now: int, us: UsageStats, maxAge: int, maxSize: int,
                          aged: seq<Candidate>, mid: Db, fetched: seq<Candidate>, n: nat, end: Db) {
    && AgePass(db, now, us, maxAge, aged)
    && SameTables(mid, RemoveRows(db, Ids(aged)))
    && SizePass(mid, now, maxSize, us.All().size - SizeSum(aged), fetched, n)
    && n <= |fetched|
    && SameTables(end, RemoveRows(mid, Ids(fetched[..n])))
  }

  /** After both passes, run on statistics that are at least the true per-action size: so is the tracked
      size at the end, and that is at least the size per blob; so the true size is within maxSize, or
      every candidate fetched has gone. */
  lemma CleanKeepsTrackedAboveTrue(db: Db, now: int, us: UsageStats, maxAge: int, maxSize: int,
                                   aged: seq<Candidate>, mid: Db, fetched: seq<Candidate>, n: nat, end: Db)
    requires us.All().size >= ActionBytes(db) && maxSize > 0
    requires IsClean(db, now, us, maxAge, maxSize, aged, mid, fetched, n, end)
    ensures var tracked := us.All().size - SizeSum(aged) - SizeSum(fetched[..n]);
            && BlobBytes(end) <= ActionBytes(end) <= tracked
            && (ActionBytes(end) <= maxSize || n == |fetched|)
  {
    AgePassFrees(db, now, us, maxAge, aged);
    FilesDoNotMatter(mid, RemoveRows(db, Ids(aged)));
    SizePassFrees(mid, now, maxSize, us.All().size - SizeSum(aged), fetched, n);
    FilesDoNotMatter(end, RemoveRows(mid, Ids(fetched[..n])));
    BlobBytesAtMostActionBytes(end);
  }

  /** With at most 10000 referenced blobs and no access time in the future, the bound always holds. */
  lemma CleanBoundsUsage(db: Db, now: int, us: UsageStats, maxAge: int, maxSize: int,
                         aged: seq<Candidate>, mid: Db, fetched: seq<Candidate>, n: nat, end: Db)
    requires us.All().size >= ActionBytes(db) && maxSize > 0
    requires IsClean(db, now, us, maxAge, maxSize, aged, mid, fetched, n, end)
    requires |Referenced(db)| <= 10_000 && NoFutureAccess(db, now)
    ensures ActionBytes(end) <= maxSize
  {
    CleanKeepsTrackedAboveTrue(db, now, us, maxAge, maxSize, aged, mid, fetched, n, end);
    if us.All().size - SizeSum(aged) > maxSize && n == |fetched| {
      StillReferenced(db, Ids(aged));
      FilesDoNotMatter(mid, RemoveRows(db, Ids(aged)));
      SubsetSize(Referenced(mid), Referenced(db));
      AllReferencedAreEligible(mid, now);
      WideLimitFindsAll(mid, Cutoff(now, 0), CLEAN_BATCH, fetched);
      assert fetched[..n] == fetched;
      StillReferenced(mid, Ids(fetched));
      FilesDoNotMatter(end, RemoveRows(mid, Ids(fetched)));
      NothingReferencedNothingStored(end);
    }
  }

  lemma AllReferencedAreEligible(db: Db, now: int)
    requires NoFutureAccess(db, now)
    ensures Eligible(db, Cutoff(now, 0)) == Referenced(db)
  {
    forall id | id in Referenced(db)
      ensures MaxAccess(db, id) <= Cutoff(now, 0)
    {
      MaxAccessIsMax(db, id);
    }
  }

  lemma NothingReferencedNothingStored(db: Db)
    requires Referenced(db) == {}
    ensures ActionBytes(db) == 0
  {
    assert forall a | a in Counted(db) :: db.actions[a].blobId in Referenced(db);
    assert StoredSizes(db, Counted(db)) == map[];
  }

  // ---- Least recently accessed first ----

  /** No blob that survives the size pass with an action was accessed strictly before an evicted one. */
  lemma EvictsLeastRecent(db: Db, now: int, maxSize: int, tracked: int, fetched: seq<Candidate>, n: nat,
                          evicted: nat, survivor: nat)
    requires SizePass(db, now, maxSize, tracked, fetched, n)
    requires evicted in Ids(fetched[..n])
    requires survivor in Referenced(RemoveRows(db, Ids(fetched[..n])))
    ensures evicted in Referenced(db) && survivor in Referenced(db)
    ensures MaxAccess(db, evicted) <= MaxAccess(db, survivor)
  {
    StillReferenced(db, Ids(fetched[..n]));
    var i :| 0 <= i < n && fetched[i].blobId == evicted;
    assert forall k | 0 <= k < n :: fetched[..n][k] in fetched[..n] && fetched[k].blobId in Ids(fetched[..n]);
    assert IsCandidate(db, Cutoff(now, 0), fetched[i]);
    if survivor in Ids(fetched) {
      var j :| 0 <= j < |fetched| && fetched[j].blobId == survivor;
      assert IsCandidate(db, Cutoff(now, 0), fetched[j]);
      assert j >= n;
    } else if survivor in Eligible(db, Cutoff(now, 0)) {
      assert fetched[i] in fetched;
    }
  }

  // ---- Both passes together ----

  lemma SurvivorsKeepTheirActions(db: Db, ids: set<nat>, id: nat)
    requires id in Referenced(db) - ids
    ensures id in Referenced(RemoveRows(db, ids))
    ensures AccessTimesOf(RemoveRows(db, ids), id) == AccessTimesOf(db, id)
    ensures MaxAccess(RemoveRows(db, ids), id) == MaxAccess(db, id)
  {
    StillReferenced(db, ids);
    assert forall a | a in db.actions && db.actions[a].blobId == id :: a in RemoveRows(db, ids).actions;
  }

  lemma SameTablesSameAccess(db: Db, db': Db, id: nat)
    requires SameTables(db, db') && id in Referenced(db)
    ensures id in Referenced(db') && MaxAccess(db', id) == MaxAccess(db, id)
    ensures AccessTimesOf(db, id) == AccessTimesOf(db', id)
  {
    FilesDoNotMatter(db, db');
  }

  /** What has survived a list of candidates is no less recent than what is on it. */
  lemma ListedAreLeastRecent(db: Db, cutoff: int, limit: nat, cs: seq<Candidate>, listed: nat, other: nat)
    requires IsCandidateList(db, cutoff, limit, cs) && listed in Ids(cs) && other in Referenced(db) - Ids(cs)
    ensures listed in Referenced(db) && MaxAccess(db, listed) <= MaxAccess(db, other)
  {
    var c :| c in cs && c.blobId == listed;
    assert IsCandidate(db, cutoff, c);
  }

  /** Over a whole clean, age pass and size pass together: no blob that survives with an action was
      accessed strictly before one that went. */
  lemma CleanEvictsLeastRecent(db: Db, now: int, us: UsageStats, maxAge: int, maxSize: int,
                               aged: seq<Candidate>, mid: Db, fetched: seq<Candidate>, n: nat, end: Db,
                               evicted: nat, survivor: nat)
    requires IsClean(db, now, us, maxAge, maxSize, aged, mid, fetched, n, end)
    requires evicted in Referenced(db) && evicted !in Referenced(end) && survivor in Referenced(end)
    ensures survivor in Referenced(db) && MaxAccess(db, evicted) <= MaxAccess(db, survivor)
  {
    var afterAge, afterSize := RemoveRows(db, Ids(aged)), RemoveRows(mid, Ids(fetched[..n]));
    StillReferenced(db, Ids(aged));
    StillReferenced(mid, Ids(fetched[..n]));
    FilesDoNotMatter(mid, afterAge);
    FilesDoNotMatter(end, afterSize);
    SurvivorsKeepTheirActions(db, Ids(aged), survivor);
    SameTablesSameAccess(afterAge, mid, survivor);
    if evicted in Ids(aged) {
      assert aged != [];
      ListedAreLeastRecent(db, Cutoff(now, maxAge), ToDelete(us, maxAge) + 1, aged, evicted, survivor);
    } else {
      SurvivorsKeepTheirActions(db, Ids(aged), evicted);
      SameTablesSameAccess(afterAge, mid, evicted);
      EvictsLeastRecent(mid, now, maxSize, us.All().size - SizeSum(aged), fetched, n, evicted, survivor);
    }
  }

  /** If the age pass finds every fully expired blob, none is left at the end. */
  lemma CleanLeavesNoneExpired(db: Db, now: int, us: UsageStats, maxAge: int, maxSize: int,
                               aged: seq<Candidate>, mid: Db, fetched: seq<Candidate>, n: nat, end: Db)
    requires IsClean(db, now, us, maxAge, maxSize, aged, mid, fetched, n, end)
    requires FullyExpired(db, now, maxAge) <= Ids(aged)
    ensures FullyExpired(end, now, maxAge) == {}
  {
    StillReferenced(db, Ids(aged));
    StillReferenced(mid, Ids(fetched[..n]));
    forall id | id in Referenced(end)
      ensures id !in FullyExpired(end, now, maxAge)
    {
      assert id in Referenced(db) - Ids(aged);
      var a :| a in db.actions && db.actions[a].blobId == id && !IsOld(now, db.actions[a].accessTime, maxAge);
      assert a in end.actions;
    }
  }

  /** With statistics of the same state and clock it does, however maxAge is aligned. */
  lemma AgePassFindsAll(db: Db, now: int, us: UsageStats, maxAge: int, aged: seq<Candidate>)
    requires IsListedUsage(db, now, BucketsOf(maxAge), us) && AgePass(db, now, us, maxAge, aged)
    requires maxAge > 0 && AgesFit(db, now)
    ensures FullyExpired(db, now, maxAge) <= Ids(aged)
    ensures Aligned(now, maxAge) ==> Ids(aged) == FullyExpired(db, now, maxAge)
  {
    UsageIsExact(db, now, maxAge, us);
    BucketMembers(maxAge);
    if maxAge != MAX_DURATION {
      AgePassIsExact(db, now, BucketsOf(maxAge), us, maxAge, aged);
    } else {
      NothingIsThatOld(db, now);
      assert Ids(aged) == {};
    }
  }

  lemma NothingIsThatOld(db: Db, now: int)
    requires AgesFit(db, now)
    ensures FullyExpired(db, now, MAX_DURATION) == {}
  {
    forall a | a in db.actions
      ensures !IsOld(now, db.actions[a].accessTime, MAX_DURATION)
    {
      AgeIsNoMultiple(Unix(now) - db.actions[a].accessTime);
    }
  }

  lemma AgeIsNoMultiple(k: int)
    ensures k * SECOND != MAX_DURATION
  {
  }

  /** What a clean leaves: some blobs as they were, each with all its actions; every blob without actions,
      which no clean can find; and no blob accessed strictly before one that went. */
  ghost predicate Survive(db: Db, end: Db) {
    && (forall id | id in end.blobs :: id in db.blobs && end.blobs[id] == db.blobs[id])
    && (forall id | id in db.blobs && id !in Referenced(db) :: id in end.blobs)
    && (forall a | a in end.actions :: a in db.actions && end.actions[a] == db.actions[a])
    && (forall a | a in db.actions && a !in end.actions ::
          db.actions[a].blobId in db.blobs && db.actions[a].blobId !in end.blobs)
    && (forall a | a in end.actions && db.actions[a].blobId in db.blobs :: db.actions[a].blobId in end.blobs)
    && Referenced(end) <= Referenced(db)
    && (forall evicted, survivor | evicted in Referenced(db) - Referenced(end) && survivor in Referenced(end) ::
          MaxAccess(db, evicted) <= MaxAccess(db, survivor))
  }

  /** The size bound, when one batch can hold everything and nothing was accessed in the future. */
  ghost predicate FitsAfter(db: Db, now: int, maxSize: int, end: Db) {
    maxSize > 0 && |Referenced(db)| <= 10_000 && NoFutureAccess(db, now) ==>
      BlobBytes(end) <= ActionBytes(end) <= maxSize
  }

  /** No fully expired blob is left; and without a size limit nothing else has gone, if maxAge is aligned. */
  ghost predicate FreshAfter(db: Db, now: int, maxAge: int, maxSize: int, end: Db) {
    maxAge > 0 && AgesFit(db, now) ==>
      && FullyExpired(end, now, maxAge) == {}
      && (Aligned(now, maxAge) && maxSize <= 0 ==> Referenced(end) == Referenced(db) - FullyExpired(db, now, maxAge))
  }

  ghost predicate GoodRound(db: Db, now: int, maxAge: int, maxSize: int, end: Db) {
    Survive(db, end) && FitsAfter(db, now, maxSize, end) && FreshAfter(db, now, maxAge, maxSize, end)
  }

  lemma CandidatesAreReferenced(db: Db, now: int, us: UsageStats, maxAge: int, maxSize: int,
                                aged: seq<Candidate>, mid: Db, fetched: seq<Candidate>, n: nat, end: Db)
    requires IsClean(db, now, us, maxAge, maxSize, aged, mid, fetched, n, end)
    ensures Ids(aged) <= Referenced(db) && Ids(fetched[..n]) <= Referenced(db) - Ids(aged)
    ensures Referenced(end) == Referenced(db) - Ids(aged) - Ids(fetched[..n])
    ensures SameTables(end, RemoveRows(db, Ids(aged) + Ids(fetched[..n])))
  {
    StillReferenced(db, Ids(aged));
    StillReferenced(mid, Ids(fetched[..n]));
    RemoveInTwoSteps(db, Ids(aged), Ids(fetched[..n]));
    forall id | id in Ids(fetched[..n])
      ensures id in Referenced(mid)
    {
      var c :| c in fetched[..n] && c.blobId == id;
      assert IsCandidate(mid, Cutoff(now, 0), c);
    }
  }

  lemma RowsSurvive(db: Db, ids: set<nat>, end: Db)
    requires ids <= Referenced(db) && SameTables(end, RemoveRows(db, ids))
    requires forall evicted, survivor | evicted in Referenced(db) - Referenced(end) && survivor in Referenced(end) ::
               survivor in Referenced(db) && MaxAccess(db, evicted) <= MaxAccess(db, survivor)
    ensures Survive(db, end)
  {
    StillReferenced(db, ids);
  }

  lemma CleanSurvives(db: Db, now: int, us: UsageStats, maxAge: int, maxSize: int,
                      aged: seq<Candidate>, mid: Db, fetched: seq<Candidate>, n: nat, end: Db)
    requires IsClean(db, now, us, maxAge, maxSize, aged, mid, fetched, n, end)
    ensures Survive(db, end)
  {
    CandidatesAreReferenced(db, now, us, maxAge, maxSize, aged, mid, fetched, n, end);
    forall evicted, survivor | evicted in Referenced(db) - Referenced(end) && survivor in Referenced(end)
      ensures survivor in Referenced(db) && MaxAccess(db, evicted) <= MaxAccess(db, survivor)
    {
      CleanEvictsLeastRecent(db, now, us, maxAge, maxSize, aged, mid, fetched, n, end, evicted, survivor);
    }
    RowsSurvive(db, Ids(aged) + Ids(fetched[..n]), end);
  }

  lemma RoundFits(db: Db, now: int, us: UsageStats, maxAge: int, maxSize: int,
                  aged: seq<Candidate>, mid: Db, fetched: seq<Candidate>, n: nat, end: Db)
    requires IsListedUsage(db, now, BucketsOf(maxAge), us)
    requires IsClean(db, now, us, maxAge, maxSize, aged, mid, fetched, n, end)
    ensures FitsAfter(db, now, maxSize, end)
  {
    TrackedStartsTrue(db, now, us, maxAge);
    if maxSize > 0 && |Referenced(db)| <= CLEAN_BATCH && NoFutureAccess(db, now) {
      CleanKeepsTrackedAboveTrue(db, now, us, maxAge, maxSize, aged, mid, fetched, n, end);
      CleanBoundsUsage(db, now, us, maxAge, maxSize, aged, mid, fetched, n, end);
    }
  }

  lemma OnlyTheExpiredGo(db: Db, now: int, us: UsageStats, maxAge: int, maxSize: int,
                         aged: seq<Candidate>, mid: Db, fetched: seq<Candidate>, n: nat, end: Db)
    requires IsClean(db, now, us, maxAge, maxSize, aged, mid, fetched, n, end)
    requires Ids(aged) == FullyExpired(db, now, maxAge) && maxSize <= 0
    ensures Referenced(end) == Referenced(db) - FullyExpired(db, now, maxAge)
  {
    CandidatesAreReferenced(db, now, us, maxAge, maxSize, aged, mid, fetched, n, end);
    assert Ids(fetched[..n]) == {};
  }

  lemma RoundFreshens(db: Db, now: int, us: UsageStats, maxAge: int, maxSize: int,
                      aged: seq<Candidate>, mid: Db, fetched: seq<Candidate>, n: nat, end: Db)
    requires IsListedUsage(db, now, BucketsOf(maxAge), us)
    requires IsClean(db, now, us, maxAge, maxSize, aged, mid, fetched, n, end)
    ensures FreshAfter(db, now, maxAge, maxSize, end)
  {
    if maxAge > 0 && AgesFit(db, now) {
      AgePassFindsAll(db, now, us, maxAge, aged);
      CleanLeavesNoneExpired(db, now, us, maxAge, maxSize, aged, mid, fetched, n, end);
      if Aligned(now, maxAge) && maxSize <= 0 {
        OnlyTheExpiredGo(db, now, us, maxAge, maxSize, aged, mid, fetched, n, end);
      }
    }
  }

  /** What one round of the clean loop achieves. */
  lemma RoundIsGood(db: Db, now: int, us: UsageStats, maxAge: int, maxSize: int,
                    aged: seq<Candidate>, mid: Db, fetched: seq<Candidate>, n: nat, end: Db)
    requires IsListedUsage(db, now, BucketsOf(maxAge), us)
    requires IsClean(db, now, us, maxAge, maxSize, aged, mid, fetched, n, end)
    ensures GoodRound(db, now, maxAge, maxSize, end)
  {
    CleanSurvives(db, now, us, maxAge, maxSize, aged, mid, fetched, n, end);
    RoundFits(db, now, us, maxAge, maxSize, aged, mid, fetched, n, end);
    RoundFreshens(db, now, us, maxAge, maxSize, aged, mid, fetched, n, end);
  }

  // ---- No more than needed ----

  /** What the clean starts its accounting from: twice the true size for the largest duration. */
  ghost function TrackedBytes(db: Db, maxAge: int): nat {
    (if maxAge == MAX_DURATION then 2 else 1) * ActionBytes(db)
  }

  /** The evictions for size stop as soon as they can: without the last of them the tracked size would still
      exceed the limit, and if it fits after the age pass, there are none. */
  ghost predicate StopsInTime(tracked: int, maxSize: int, evicted: seq<Candidate>) {
    if maxSize > 0 && tracked > maxSize
    then evicted != [] ==> tracked - SizeSum(evicted[..|evicted| - 1]) > maxSize
    else evicted == []
  }

  lemma SizePassStopsInTime(db: Db, now: int, maxSize: int, tracked: int, fetched: seq<Candidate>, n: nat)
    requires SizePass(db, now, maxSize, tracked, fetched, n) && n <= |fetched|
    ensures StopsInTime(tracked, maxSize, fetched[..n])
    ensures |fetched| <= 10_000
  {
    if n > 0 {
      assert fetched[..n][..n - 1] == fetched[..n - 1];
    }
  }

  /** Exactly the evicted blobs are in the two lists, each once and with its stored size. */
  ghost predicate Lists(db: Db, aged: seq<Candidate>, evicted: seq<Candidate>, end: Db) {
    && Ids(aged) !! Ids(evicted) && DistinctIds(aged) && DistinctIds(evicted)
    && Ids(aged) + Ids(evicted) == Referenced(db) - Referenced(end)
    && (forall c | c in aged :: c.blobId in db.blobs && c.storedSize == db.blobs[c.blobId].storedSize)
    && (forall c | c in evicted :: c.blobId in db.blobs && c.storedSize == db.blobs[c.blobId].storedSize)
  }

  lemma AgedAreListed(db: Db, now: int, us: UsageStats, maxAge: int, aged: seq<Candidate>)
    requires AgePass(db, now, us, maxAge, aged)
    ensures DistinctIds(aged)
    ensures forall c | c in aged :: c.blobId in db.blobs && c.storedSize == db.blobs[c.blobId].storedSize
  {
    forall c | c in aged
      ensures c.blobId in db.blobs && c.storedSize == db.blobs[c.blobId].storedSize
    {
      assert IsCandidate(db, Cutoff(now, maxAge), c);
    }
  }

  lemma EvictedAreListed(db: Db, now: int, maxSize: int, tracked: int, fetched: seq<Candidate>, n: nat)
    requires SizePass(db, now, maxSize, tracked, fetched, n) && n <= |fetched|
    ensures DistinctIds(fetched[..n])
    ensures forall c | c in fetched[..n] :: c.blobId in db.blobs && c.storedSize == db.blobs[c.blobId].storedSize
  {
    assert forall i | 0 <= i < n :: IdSeq(fetched[..n])[i] == IdSeq(fetched)[i];
    forall c | c in fetched[..n]
      ensures c.blobId in db.blobs && c.storedSize == db.blobs[c.blobId].storedSize
    {
      assert c in fetched && IsCandidate(db, Cutoff(now, 0), c);
    }
  }

  lemma CleanIsListed(db: Db, now: int, us: UsageStats, maxAge: int, maxSize: int,
                      aged: seq<Candidate>, mid: Db, fetched: seq<Candidate>, n: nat, end: Db)
    requires IsClean(db, now, us, maxAge, maxSize, aged, mid, fetched, n, end)
    ensures Lists(db, aged, fetched[..n], end)
  {
    CandidatesAreReferenced(db, now, us, maxAge, maxSize, aged, mid, fetched, n, end);
    AgedAreListed(db, now, us, maxAge, aged);
    EvictedAreListed(mid, now, maxSize, us.All().size - SizeSum(aged), fetched, n);
  }

  /** What a clean has evicted, by age and then for size, and that the latter was needed. */
  ghost predicate EvictsNoMore(db: Db, maxAge: int, maxSize: int, aged: seq<Candidate>, evicted: seq<Candidate>,
                               end: Db)
  {
    && Lists(db, aged, evicted, end)
    && StopsInTime(TrackedBytes(db, maxAge) - SizeSum(aged), maxSize, evicted)
  }

  /** A clean on statistics of the same moment evicts nothing for size that it need not. */
  lemma CleanEvictsNoMore(db: Db, now: int, us: UsageStats, maxAge: int, maxSize: int,
                          aged: seq<Candidate>, mid: Db, fetched: seq<Candidate>, n: nat, end: Db)
    requires IsListedUsage(db, now, BucketsOf(maxAge), us)
    requires IsClean(db, now, us, maxAge, maxSize, aged, mid, fetched, n, end)
    ensures EvictsNoMore(db, maxAge, maxSize, aged, fetched[..n], end)
  {
    TrackedStartsTrue(db, now, us, maxAge);
    CleanIsListed(db, now, us, maxAge, maxSize, aged, mid, fetched, n, end);
    SizePassStopsInTime(mid, now, maxSize, us.All().size - SizeSum(aged), fetched, n);
  }
}

/** Blob rows and stored bytes are conserved: what was ever inserted is either present or counted as
    evicted, in every interleaving and whatever the candidate lists. */
module Conservation {
  import opened Basics
  import opened Content
  import opened Store
  import opened Interleaving

  /** A clean that has committed and not yet added to the counters (it still holds the lock). */
  predicate Uncounted(s: State) {
    s.lock.Some? && CleanAt(s, s.lock.value) && s.threads[s.lock.value].clean.Committed?
  }

  function UncountedBlobs(s: State): nat {
    if Uncounted(s) then |s.threads[s.lock.value].ids| else 0
  }

  function UncountedBytes(s: State): nat {
    if Uncounted(s) then s.threads[s.lock.value].clean.evicted else 0
  }

  ghost predicate Balanced(s: State) {
    && |s.db.blobs| + s.evictedBlobs + UncountedBlobs(s) == s.h.insertedBlobs + s.h.staleIds
    && Sum(Sizes(s.db.blobs)) + s.evictedBytes + UncountedBytes(s) == s.h.insertedBytes
  }

  /** The running sum of deleteBlobs is the size of the rows it has deleted so far. */
  ghost predicate SumsOk(s: State) {
    forall t | IsRemoving(s, t) && s.threads[t].clean.k <= |s.threads[t].ids| ::
      s.threads[t].clean.bytes == Sum(SizesAmong(s.db.blobs, Elements(s.threads[t].ids[..s.threads[t].clean.k])))
  }

  // ---- The arithmetic of rows that come and go ----

  lemma AddedRow(blobs: map<nat, BlobRow>, id: nat, row: BlobRow)
    requires id !in blobs
    ensures |blobs[id := row]| == |blobs| + 1
    ensures Sum(Sizes(blobs[id := row])) == Sum(Sizes(blobs)) + row.storedSize
  {
    assert blobs[id := row].Keys == blobs.Keys + {id};
    assert Sizes(blobs[id := row]) == Sizes(blobs)[id := row.storedSize];
    SumInsert(Sizes(blobs), id, row.storedSize);
  }

  lemma RemovedRows(blobs: map<nat, BlobRow>, gone: set<nat>)
    ensures |blobs| == |blobs - gone| + |gone * blobs.Keys|
    ensures Sum(Sizes(blobs)) == Sum(Sizes(blobs - gone)) + Sum(SizesAmong(blobs, gone))
  {
    assert (blobs - gone).Keys == blobs.Keys - gone;
    assert gone * blobs.Keys == blobs.Keys * gone;
    SumSplit(Sizes(blobs), gone);
    assert Sizes(blobs) - gone == Sizes(blobs - gone);
  }

  // ---- Steps that change the balance ----

  lemma InsertBlobKeepsBalance(env: Env, s: State, t: nat, newId: nat)
    requires Balanced(s) && PutAt(s, t, Locked) && newId >= s.db.nextBlobId && s.lock == Some(t)
    requires forall id | id in s.db.blobs :: id < s.db.nextBlobId
    ensures Balanced(Next(env, s, PutInsertBlob(t, newId)))
  {
    AddedRow(s.db.blobs, newId, RowOf(env.codec, s.threads[t].u.content));
  }

  lemma CommitDeletes(env: Env, s: State, t: nat)
    requires IsRemoving(s, t) && s.threads[t].clean.k == |s.threads[t].ids|
    ensures var s' := Next(env, s, CleanCommit(t)); var ids := s.threads[t].ids;
            && s'.db.blobs == s.db.blobs - Elements(ids)
            && s'.h == s.h.(staleIds := s.h.staleIds + StaleCount(s.db.blobs, ids))
            && s'.evictedBlobs == s.evictedBlobs && s'.evictedBytes == s.evictedBytes
  {
    assert Next(env, s, CleanCommit(t)) == CleanNext(s, CleanCommit(t));
  }

  lemma CommitIsUncounted(env: Env, s: State, t: nat)
    requires IsRemoving(s, t) && s.lock == Some(t) && s.threads[t].clean.k == |s.threads[t].ids|
    ensures var s' := Next(env, s, CleanCommit(t));
            && UncountedBlobs(s) == 0 && UncountedBlobs(s') == |s.threads[t].ids|
            && UncountedBytes(s) == 0 && UncountedBytes(s') == s.threads[t].clean.bytes
  {
  }

  lemma CommitKeepsBalance(env: Env, s: State, t: nat)
    requires Balanced(s) && SumsOk(s) && IsRemoving(s, t) && s.lock == Some(t)
    requires s.threads[t].clean.k == |s.threads[t].ids|
    ensures Balanced(Next(env, s, CleanCommit(t)))
  {
    var ids := s.threads[t].ids;
    assert ids[..|ids|] == ids;
    CommitDeletes(env, s, t);
    CommitIsUncounted(env, s, t);
    RemovedRows(s.db.blobs, Elements(ids));
    ElementsAtMost(ids, s.db.blobs.Keys);
  }

  lemma OtherStepKeepsCounts(env: Env, s: State, e: Event)
    requires !e.PutInsertBlob? && !e.CleanCommit?
    ensures var s' := Next(env, s, e);
            && s'.db.blobs == s.db.blobs && s'.h.insertedBlobs == s.h.insertedBlobs
            && s'.h.insertedBytes == s.h.insertedBytes && s'.h.staleIds == s.h.staleIds
            && (!e.CleanCount? ==> s'.evictedBlobs == s.evictedBlobs && s'.evictedBytes == s.evictedBytes)
  {
  }

  lemma PutStepKeepsUncounted(env: Env, s: State, e: Event)
    requires Safe(env, s)
    ensures Uncounted(PutNext(env, s, e)) <==> Uncounted(s)
    ensures Uncounted(s) ==> PutNext(env, s, e).lock == s.lock
    ensures Uncounted(s) ==> PutNext(env, s, e).threads[s.lock.value] == s.threads[s.lock.value]
  {
    var s' := PutNext(env, s, e);
    if s' != s {
      assert e.t in s.threads ==> ThreadOk(env, s, e.t, s.threads[e.t]);
    }
  }

  lemma CleanStepKeepsUncounted(env: Env, s: State, e: Event)
    requires Safe(env, s) && !e.CleanCommit? && !e.CleanCount?
    ensures Uncounted(CleanNext(s, e)) <==> Uncounted(s)
    ensures Uncounted(s) ==> CleanNext(s, e).lock == s.lock
    ensures Uncounted(s) ==> CleanNext(s, e).threads[s.lock.value] == s.threads[s.lock.value]
  {
    var s' := CleanNext(s, e);
    if s' != s && !e.FlushAccessTime? {
      assert e.t in s.threads ==> ThreadOk(env, s, e.t, s.threads[e.t]);
    }
  }

  /** Only a commit starts, and only the count ends, the moment between commit and counters. */
  lemma OtherStepKeepsUncounted(env: Env, s: State, e: Event)
    requires Safe(env, s) && !e.CleanCommit? && !e.CleanCount?
    ensures var s' := Next(env, s, e);
            UncountedBlobs(s') == UncountedBlobs(s) && UncountedBytes(s') == UncountedBytes(s)
  {
    PutStepKeepsUncounted(env, s, e);
    CleanStepKeepsUncounted(env, s, e);
    if e.GetBegin? || e.GetQuery? || e.GetOpen? || e.GetError? {
      assert Next(env, s, e) == GetNext(env, s, e);
    }
  }

  lemma CountKeepsBalance(env: Env, s: State, t: nat)
    requires Balanced(s) && CleanAt(s, t) && s.threads[t].clean.Committed? && s.lock == Some(t)
    ensures Balanced(Next(env, s, CleanCount(t)))
  {
  }

  lemma NextKeepsBalance(env: Env, s: State, e: Event)
    requires Safe(env, s) && Balanced(s) && SumsOk(s)
    ensures Balanced(Next(env, s, e))
  {
    if Next(env, s, e) != s {
      if !e.FlushAccessTime? && e.t in s.threads {
        assert ThreadOk(env, s, e.t, s.threads[e.t]);
      }
      if e.PutInsertBlob? {
        InsertBlobKeepsBalance(env, s, e.t, e.newId);
      } else if e.CleanCommit? {
        CommitKeepsBalance(env, s, e.t);
      } else if e.CleanCount? {
        CountKeepsBalance(env, s, e.t);
      } else {
        OtherStepKeepsCounts(env, s, e);
        OtherStepKeepsUncounted(env, s, e);
      }
    }
  }

  // ---- The running sum ----

  lemma NextKeepsSums(env: Env, s: State, e: Event)
    requires Safe(env, s) && SumsOk(s)
    ensures SumsOk(Next(env, s, e))
  {
    var s' := Next(env, s, e);
    if s' != s && !e.FlushAccessTime? {
      NextIsStepOf(env, s, e);
      forall t: nat | IsRemoving(s', t) && s'.threads[t].clean.k <= |s'.threads[t].ids|
        ensures s'.threads[t].clean.bytes ==
                  Sum(SizesAmong(s'.db.blobs, Elements(s'.threads[t].ids[..s'.threads[t].clean.k])))
      {
        if t != e.t {
          assert ThreadOk(env, s, t, s.threads[t]);
        } else {
          OwnStepKeepsSum(env, s, e);
        }
      }
    }
  }

  /** The sum that thread t has so far is that of the rows it has deleted. */
  ghost predicate SumOk(s: State, t: nat)
    requires IsRemoving(s, t)
  {
    var th := s.threads[t];
    th.clean.k <= |th.ids| ==> th.clean.bytes == Sum(SizesAmong(s.db.blobs, Elements(th.ids[..th.clean.k])))
  }

  lemma RemovePlainKeepsSum(env: Env, s: State, t: nat)
    requires IsRemoving(s, t) && SumOk(s, t)
    ensures IsRemoving(Next(env, s, CleanRemovePlain(t)), t) && SumOk(Next(env, s, CleanRemovePlain(t)), t)
  {
    if s.threads[t].clean.k < |s.threads[t].ids| {
      OneMoreId(s.db.blobs, s.threads[t].ids, s.threads[t].clean.k);
    }
  }

  lemma OwnStepKeepsSum(env: Env, s: State, e: Event)
    requires SumsOk(s) && !e.FlushAccessTime? && Next(env, s, e) != s && IsRemoving(Next(env, s, e), e.t)
    ensures SumOk(Next(env, s, e), e.t)
  {
    var s' := Next(env, s, e);
    if e.CleanLock? {
      assert SizesAmong(s'.db.blobs, Elements([])) == map[];
    } else if e.CleanRemovePlain? {
      RemovePlainKeepsSum(env, s, e.t);
    }
  }

  // ---- Over whole runs ----

  lemma {:induction false} RunKeepsBalance(env: Env, events: seq<Event>)
    requires Sound(env.codec, env.contents)
    ensures Balanced(Run(env, INIT, events)) && SumsOk(Run(env, INIT, events))
  {
    if events == [] {
      assert Sizes(INIT.db.blobs) == map[];
    } else {
      var before, e := events[..|events| - 1], events[|events| - 1];
      RunKeepsBalance(env, before);
      RunKeepsSafe(env, INIT, before);
      NextKeepsBalance(env, Run(env, INIT, before), e);
      NextKeepsSums(env, Run(env, INIT, before), e);
    }
  }

  /** Bytes, in every interleaving and with any number of cleaners and stale lists. */
  lemma BytesAreConserved(env: Env, events: seq<Event>)
    requires Sound(env.codec, env.contents)
    ensures var s := Run(env, INIT, events);
            Sum(Sizes(s.db.blobs)) + s.evictedBytes + UncountedBytes(s) == s.h.insertedBytes
  {
    RunKeepsBalance(env, events);
  }

  // ---- One cleaner at a time, as in runCleanLoop ----

  predicate IsActiveClean(s: State, t: nat) {
    CleanAt(s, t) && !s.threads[t].clean.Committed? && !s.threads[t].clean.CleanDone?
  }

  /** A clean may begin: none is under way, and the list is fresh from the tables. */
  ghost predicate MayBegin(s: State, ids: seq<nat>) {
    && (forall t: nat :: !IsActiveClean(s, t))
    && Distinct(ids)
    && (forall id | id in ids :: id in s.db.blobs)
  }

  ghost predicate SingleCleaner(env: Env, events: seq<Event>) {
    forall i | 0 <= i < |events| && events[i].CleanBegin? :: MayBegin(Run(env, INIT, events[..i]), events[i].ids)
  }

  /** The lists of the clean under way are still exact. */
  ghost predicate ListExact(s: State) {
    && s.h.staleIds == 0
    && (forall t, t' | IsActiveClean(s, t) && IsActiveClean(s, t') :: t == t')
    && (forall t | IsActiveClean(s, t) ::
          Distinct(s.threads[t].ids) && forall id | id in s.threads[t].ids :: id in s.db.blobs)
  }

  lemma CommitEndsClean(env: Env, s: State, t: nat)
    requires IsActiveClean(s, t) && Next(env, s, CleanCommit(t)) != s
    ensures var s' := Next(env, s, CleanCommit(t)); var th := s.threads[t];
            && s'.threads == s.threads[t := th.(clean := Committed(th.clean.bytes))]
            && s'.h.staleIds == s.h.staleIds + StaleCount(s.db.blobs, th.ids)
  {
    assert Next(env, s, CleanCommit(t)) == CleanNext(s, CleanCommit(t));
  }

  lemma ExactCommit(env: Env, s: State, t: nat)
    requires ListExact(s) && IsActiveClean(s, t) && Next(env, s, CleanCommit(t)) != s
    ensures ListExact(Next(env, s, CleanCommit(t)))
  {
    var ids, s' := s.threads[t].ids, Next(env, s, CleanCommit(t));
    DistinctSize(ids);
    assert Elements(ids) * s.db.blobs.Keys == Elements(ids);
    CommitEndsClean(env, s, t);
    forall other: nat | IsActiveClean(s', other)
      ensures false
    {
      assert other != t && IsActiveClean(s, other);
    }
  }

  lemma NextKeepsListExact(env: Env, s: State, e: Event)
    requires Sound(env.codec, env.contents) && Safe(env, s) && ListExact(s)
    requires e.CleanBegin? ==> MayBegin(s, e.ids)
    ensures ListExact(Next(env, s, e))
  {
    var s' := Next(env, s, e);
    if s' != s {
      if e.CleanCommit? {
        ExactCommit(env, s, e.t);
      } else {
        ActiveCleansAfter(env, s, e);
        KeysStay(env, s, e);
        StaleIdsStay(env, s, e);
      }
    }
  }

  lemma CleanKeysStay(s: State, e: Event)
    requires !e.CleanCommit?
    ensures CleanNext(s, e).db.blobs == s.db.blobs
  {
  }

  lemma KeysStay(env: Env, s: State, e: Event)
    requires BlobsOk(env.codec, env.contents, s.db) && !e.CleanCommit?
    ensures s.db.blobs.Keys <= Next(env, s, e).db.blobs.Keys
  {
    if e.PutInsertBlob? {
      assert Next(env, s, e) == PutNext(env, s, e);
    } else {
      CleanKeysStay(s, e);
    }
  }

  lemma StaleIdsStay(env: Env, s: State, e: Event)
    requires !e.CleanCommit?
    ensures Next(env, s, e).h.staleIds == s.h.staleIds
  {
  }

  lemma ActiveCleansAfter(env: Env, s: State, e: Event)
    requires !e.CleanCommit?
    ensures forall t: nat | IsActiveClean(Next(env, s, e), t) ::
              (IsActiveClean(s, t) && Next(env, s, e).threads[t].ids == s.threads[t].ids)
              || (e.CleanBegin? && e.t == t && Next(env, s, e).threads[t].ids == e.ids)
  {
  }

  lemma {:induction false} RunKeepsListExact(env: Env, events: seq<Event>)
    requires Sound(env.codec, env.contents) && SingleCleaner(env, events)
    ensures ListExact(Run(env, INIT, events))
  {
    if events != [] {
      var before, e := events[..|events| - 1], events[|events| - 1];
      assert SingleCleaner(env, before) by {
        forall i | 0 <= i < |before| && before[i].CleanBegin?
          ensures MayBegin(Run(env, INIT, before[..i]), before[i].ids)
        {
          assert before[..i] == events[..i] && before[i] == events[i];
        }
      }
      RunKeepsListExact(env, before);
      RunKeepsSafe(env, INIT, before);
      NextKeepsListExact(env, Run(env, INIT, before), e);
    }
  }

  /** Blob rows, with a single cleaner: rows present plus EvictedBlobs equals rows ever inserted
      whenever no clean is between its commit and its counters. Without that assumption the counter
      runs ahead by exactly the IDs that were stale. */
  lemma BlobsAreConserved(env: Env, events: seq<Event>)
    requires Sound(env.codec, env.contents)
    ensures var s := Run(env, INIT, events);
            && |s.db.blobs| + s.evictedBlobs + UncountedBlobs(s) == s.h.insertedBlobs + s.h.staleIds
            && (SingleCleaner(env, events) ==> s.h.staleIds == 0)
  {
    RunKeepsBalance(env, events);
    if SingleCleaner(env, events) {
      RunKeepsListExact(env, events);
    }
  }
}

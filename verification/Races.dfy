/** What a PUT can lose to a clean that began before it: its file, or its freshness. */
module Races {
  import opened Basics
  import opened Clock
  import opened Content
  import opened Store
  import opened Cleaning
  import opened Interleaving
  import opened Refinement
  import Availability
  import Serial

  // ---- The file ----

  /** Steps of one thread leave the others where they are. */
  predicate StepsOf(events: seq<Event>, t: nat) {
    forall i | 0 <= i < |events| :: !events[i].FlushAccessTime? && events[i].t == t
  }

  lemma StepLeavesOthers(env: Env, s: State, e: Event, p: nat)
    requires p in s.threads && !e.FlushAccessTime? && e.t != p
    ensures p in Next(env, s, e).threads && Next(env, s, e).threads[p] == s.threads[p]
  {
  }

  lemma {:induction false} RunLeavesOthers(env: Env, s: State, events: seq<Event>, t: nat, p: nat)
    requires StepsOf(events, t) && p != t && p in s.threads
    ensures p in Run(env, s, events).threads && Run(env, s, events).threads[p] == s.threads[p]
  {
    if events != [] {
      RunLeavesOthers(env, s, events[..|events| - 1], t, p);
      StepLeavesOthers(env, Run(env, s, events[..|events| - 1]), events[|events| - 1], p);
    }
  }

  lemma {:induction false} RemovalsAreOwn(t: nat, steps: nat)
    ensures StepsOf(Removals(t, steps), t)
  {
    if steps != 0 {
      RemovalsAreOwn(t, steps - 1);
    }
  }

  lemma CleanIsOwn(db: Db, ids: seq<nat>, t: nat)
    ensures StepsOf(Trace(db, Serial.Clean(ids), t), t)
  {
    RemovalsAreOwn(t, 2 * |ids|);
  }

  /** u is stored; a PUT of the same content to another action renames its file; a clean evicts u's blob,
      and with it the file; the PUT inserts its rows. */
  ghost function FirstHalf(env: Env, u: Upload, late: Upload): seq<Event> {
    Trace(EMPTY_DB, Serial.DoPut(u, 0, 0), 0) + [PutBegin(1, late)] + [PutWrite(1)]
  }

  ghost function RaceTrace(env: Env, u: Upload, late: Upload): seq<Event> {
    FirstHalf(env, u, late)
      + Trace(WriteFile(env.codec, Serial.Put(env.codec, EMPTY_DB, u, 1, 0), u.content), Serial.Clean([1]), 2)
      + [PutLock(1)] + [PutInsertBlob(1, 2)] + [PutInsertAction(1, 0)]
  }

  lemma FirstHalfRuns(env: Env, u: Upload, late: Upload) returns (s: State)
    requires Serial.MayPut(env.contents, u) && Serial.MayPut(env.contents, late)
    ensures s == Run(env, INIT, FirstHalf(env, u, late))
    ensures s.db == WriteFile(env.codec, Serial.Put(env.codec, EMPTY_DB, u, 1, 0), late.content)
    ensures Quiet(s, 2) && PutAt(s, 1, Written) && s.threads[1].u == late
  {
    var s1 := FullPutRefines(env, INIT, u, 0, 0, 0);
    RunTwoMore(env, INIT, Trace(EMPTY_DB, Serial.DoPut(u, 0, 0), 0), PutBegin(1, late), PutWrite(1));
    s := Next(env, Next(env, s1, PutBegin(1, late)), PutWrite(1));
  }

  lemma EvictedWithItsFile(env: Env, u: Upload) returns (db: Db)
    ensures db == Serial.Delete(WriteFile(env.codec, Serial.Put(env.codec, EMPTY_DB, u, 1, 0), u.content), [1])
    ensures db.blobs == map[] && db.actions == map[] && db.nextBlobId == 2 && FileOf(env.codec, u.content) !in db.files
  {
    var before := WriteFile(env.codec, Serial.Put(env.codec, EMPTY_DB, u, 1, 0), u.content);
    Serial.FirstRow(env.codec, u);
    db := Serial.Delete(before, [1]);
    assert [1][0] == 1;
    assert HashAt(before.blobs, [1], 0) == env.codec.sha256(u.content);
    assert Serial.PathAt(before.blobs, [1], 0) == Lz4(env.codec.sha256(u.content));
    assert Serial.PathAt(before.blobs, [1], 1) == Plain(env.codec.sha256(u.content));
  }

  lemma LateInserts(env: Env, s: State, late: Upload) returns (s': State)
    requires s.lock == None && PutAt(s, 1, Written) && s.threads[1].u == late
    requires s.db.blobs == map[] && s.db.actions == map[] && s.db.nextBlobId == 2 && 3 !in s.threads
    ensures 3 !in s'.threads
    ensures s' == Next(env, Next(env, Next(env, s, PutLock(1)), PutInsertBlob(1, 2)), PutInsertAction(1, 0))
    ensures PutAt(s', 1, PutDone(true)) && s'.threads[1].u == late && s'.db.files == s.db.files
    ensures Serial.HasAction(env.codec, s'.db, late, 2) && Serial.HasRow(env.codec, s'.db, 2, late.content)
  {
    var s1 := Next(env, s, PutLock(1));
    var s2 := Next(env, s1, PutInsertBlob(1, 2));
    assert PutHasRow(s2, 1) && s2.threads[1].put.blobId == 2;
    s' := Next(env, s2, PutInsertAction(1, 0));
  }

  lemma EvictionRuns(env: Env, s: State, u: Upload) returns (s': State)
    requires s.db == WriteFile(env.codec, Serial.Put(env.codec, EMPTY_DB, u, 1, 0), u.content)
    requires Quiet(s, 2) && PutAt(s, 1, Written)
    ensures s' == Run(env, s, Trace(s.db, Serial.Clean([1]), 2))
    ensures Quiet(s', 3) && PutAt(s', 1, Written) && s'.threads[1].u == s.threads[1].u
    ensures s'.db.blobs == map[] && s'.db.actions == map[] && s'.db.nextBlobId == 2
    ensures FileOf(env.codec, u.content) !in s'.db.files
  {
    s' := CleanRefines(env, s, Serial.Clean([1]), 2);
    CleanIsOwn(s.db, [1], 2);
    RunLeavesOthers(env, s, Trace(s.db, Serial.Clean([1]), 2), 2, 1);
    var db := EvictedWithItsFile(env, u);
  }

  lemma SecondHalfRuns(env: Env, s: State, events: seq<Event>, late: Upload) returns (s': State)
    requires s == Run(env, INIT, events) && s.lock == None && PutAt(s, 1, Written) && s.threads[1].u == late
    requires s.db.blobs == map[] && s.db.actions == map[] && s.db.nextBlobId == 2 && 3 !in s.threads
    ensures 3 !in s'.threads
    ensures s' == Run(env, INIT, events + [PutLock(1)] + [PutInsertBlob(1, 2)] + [PutInsertAction(1, 0)])
    ensures PutAt(s', 1, PutDone(true)) && s'.threads[1].u == late && s'.db.files == s.db.files
    ensures Serial.HasAction(env.codec, s'.db, late, 2) && Serial.HasRow(env.codec, s'.db, 2, late.content)
  {
    s' := LateInserts(env, s, late);
    RunTwoMore(env, INIT, events, PutLock(1), PutInsertBlob(1, 2));
    RunOneMore(env, INIT, events + [PutLock(1)] + [PutInsertBlob(1, 2)], PutInsertAction(1, 0));
  }

  lemma RaceRuns(env: Env, u: Upload, late: Upload) returns (s: State)
    requires Serial.MayPut(env.contents, u) && Serial.MayPut(env.contents, late) && late.content == u.content
    ensures s == Run(env, INIT, RaceTrace(env, u, late))
    ensures PutAt(s, 1, PutDone(true)) && s.threads[1].u == late && 3 !in s.threads
    ensures FileOf(env.codec, u.content) !in s.db.files
    ensures Serial.HasAction(env.codec, s.db, late, 2) && Serial.HasRow(env.codec, s.db, 2, late.content)
  {
    var s1 := FirstHalfRuns(env, u, late);
    var s2 := EvictionRuns(env, s1, u);
    RunAppend(env, INIT, FirstHalf(env, u, late), Trace(s1.db, Serial.Clean([1]), 2));
    s := SecondHalfRuns(env, s2, FirstHalf(env, u, late) + Trace(s1.db, Serial.Clean([1]), 2), late);
  }

  /** The race and then a GET: the late PUT has succeeded, and the answer is "not found". */
  lemma RacedPutIsNotFound(env: Env, u: Upload, late: Upload, acceptsLz4: bool)
    requires Serial.MayPut(env.contents, u) && Serial.MayPut(env.contents, late)
    requires OnDisk(u.content) && late.content == u.content && Sound(env.codec, env.contents)
    ensures var begin := GetBegin(3, late.actionId, acceptsLz4);
            var s := Run(env, INIT, RaceTrace(env, u, late) + [begin] + [GetQuery(3)] + [GetOpen(3)]);
            && PutAt(s, 1, PutDone(true)) && s.threads[1].u == late
            && GetAt(s, 3) && s.threads[3].get == Answered(NotFound)
  {
    var begin := GetBegin(3, late.actionId, acceptsLz4);
    var s := RaceRuns(env, u, late);
    RunKeepsSafe(env, INIT, RaceTrace(env, u, late));
    RunTwoMore(env, INIT, RaceTrace(env, u, late), begin, GetQuery(3));
    RunOneMore(env, INIT, RaceTrace(env, u, late) + [begin] + [GetQuery(3)], GetOpen(3));
    StrandedIsNotFound(env, s, late, 2, acceptsLz4);
    GetLeavesOthers(env, s, begin, 1);
    GetLeavesOthers(env, Next(env, s, begin), GetQuery(3), 1);
    GetLeavesOthers(env, Next(env, Next(env, s, begin), GetQuery(3)), GetOpen(3), 1);
  }

  lemma GetLeavesOthers(env: Env, s: State, e: Event, p: nat)
    requires p in s.threads && (e.GetBegin? || e.GetQuery? || e.GetOpen?) && e.t != p
    ensures p in Next(env, s, e).threads && Next(env, s, e).threads[p] == s.threads[p]
  {
    StepLeavesOthers(env, s, e, p);
  }

  /** The states of a GET that nothing interrupts, before its open. */
  lemma ShortTrace(env: Env, s: State, u: Upload, id: nat, acceptsLz4: bool) returns (s1: State, s2: State)
    requires Availability.HasRows(env, s.db, u, id) && 3 !in s.threads
    ensures s1 == Next(env, s, GetBegin(3, u.actionId, acceptsLz4))
         == Run(env, s, [GetBegin(3, u.actionId, acceptsLz4)])
    ensures GetAt(s1, 3) && s1.threads[3].get == Asked && s1.threads[3].actionId == u.actionId
    ensures s2 == Next(env, s1, GetQuery(3))
         == Run(env, s, Availability.GetTrace([GetBegin(3, u.actionId, acceptsLz4)], 3, []))
    ensures GetAt(s2, 3) && s2.threads[3].get.Queried? && s2.db == s.db
  {
    var begin := GetBegin(3, u.actionId, acceptsLz4);
    s1 := Next(env, s, begin);
    s2 := Next(env, s1, GetQuery(3));
    RunOneMore(env, s, [], begin);
    assert [] + [begin] == [begin];
    Availability.GetTraceRuns(env, s, [begin], 3, []);
    Availability.QuerySees(env, s1, 3, u, id);
  }

  /** From the exact answers: a GET of rows without their file. */
  lemma StrandedIsNotFound(env: Env, s: State, u: Upload, id: nat, acceptsLz4: bool)
    requires Sound(env.codec, env.contents) && Safe(env, s) && u.content in env.contents && OnDisk(u.content)
    requires Availability.HasRows(env, s.db, u, id) && FileOf(env.codec, u.content) !in s.db.files
    requires u.outputId != "" && 3 !in s.threads
    ensures var s1 := Next(env, s, GetBegin(3, u.actionId, acceptsLz4));
            var s3 := Next(env, Next(env, s1, GetQuery(3)), GetOpen(3));
            GetAt(s3, 3) && s3.threads[3].get == Answered(NotFound)
  {
    var begin := GetBegin(3, u.actionId, acceptsLz4);
    var s1, s2 := ShortTrace(env, s, u, id, acceptsLz4);
    NotEvictedByOne(env, s, begin, id);
    Availability.FileIsThere(env, s, Availability.GetTrace([begin], 3, []), u.content);
    var r := Availability.GetAnswersExactly(env, s, u, id, [begin], 3, []);
  }

  lemma NotEvictedByOne(env: Env, s: State, e: Event, id: nat)
    requires !e.CleanCommit?
    ensures !Availability.Evicted(env, s, [e], id)
  {
    assert [e][..0] == [];
  }

  // ---- Freshness ----

  /** e sets the access time of a, by creating its row or by a flush. */
  predicate Sets(s: State, e: Event, a: string) {
    || (e.PutInsertAction? && PutHasRow(s, e.t) && s.threads[e.t].u.actionId == a && a !in s.db.actions)
    || (e.FlushAccessTime? && s.lock == None && e.actionId == a && a in s.db.actions)
  }

  /** And it is on a listed blob, and not old. */
  predicate Freshens(s: State, e: Event, ids: set<nat>, now: int, maxAge: int, a: string) {
    && Sets(s, e, a)
    && if e.PutInsertAction? then s.threads[e.t].put.blobId in ids && !IsOld(now, e.now, maxAge)
       else s.db.actions[a].blobId in ids && !IsOld(now, e.time, maxAge)
  }

  /** e is a commit that removes a. */
  predicate Takes(s: State, e: Event, a: string) {
    && e.CleanCommit? && IsRemoving(s, e.t) && s.threads[e.t].clean.k == |s.threads[e.t].ids|
    && a in s.db.actions && s.db.actions[a].blobId in s.threads[e.t].ids
  }

  /** What the events say of a: its last insert, flush or removal decides. */
  ghost predicate FreshNow(env: Env, s: State, events: seq<Event>, ids: set<nat>, now: int, maxAge: int, a: string) {
    events != []
    && var before, e := events[..|events| - 1], events[|events| - 1];
       var s1 := Run(env, s, before);
       if Sets(s1, e, a) then Freshens(s1, e, ids, now, maxAge, a)
       else !Takes(s1, e, a) && FreshNow(env, s, before, ids, now, maxAge, a)
  }

  /** a is on a listed blob and not old. */
  predicate IsFresh(db: Db, ids: set<nat>, now: int, maxAge: int, a: string) {
    a in db.actions && db.actions[a].blobId in ids && !IsOld(now, db.actions[a].accessTime, maxAge)
  }

  lemma PutStepsAndFreshness(env: Env, s: State, e: Event, ids: set<nat>, now: int, maxAge: int, a: string)
    requires e.PutInsertAction?
    ensures IsFresh(PutNext(env, s, e).db, ids, now, maxAge, a) <==>
              if Sets(s, e, a) then Freshens(s, e, ids, now, maxAge, a) else IsFresh(s.db, ids, now, maxAge, a)
  {
  }

  lemma CleanStepsAndFreshness(s: State, e: Event, ids: set<nat>, now: int, maxAge: int, a: string)
    requires e.CleanCommit? || e.FlushAccessTime?
    ensures IsFresh(CleanNext(s, e).db, ids, now, maxAge, a) <==>
              if Sets(s, e, a) then Freshens(s, e, ids, now, maxAge, a)
              else !Takes(s, e, a) && IsFresh(s.db, ids, now, maxAge, a)
  {
  }

  lemma OtherStepsKeepActions(env: Env, s: State, e: Event)
    requires !e.PutInsertAction? && !e.CleanCommit? && !e.FlushAccessTime?
    ensures Next(env, s, e).db.actions == s.db.actions
  {
  }

  lemma NextFreshness(env: Env, s: State, e: Event, ids: set<nat>, now: int, maxAge: int, a: string)
    ensures IsFresh(Next(env, s, e).db, ids, now, maxAge, a) <==>
              if Sets(s, e, a) then Freshens(s, e, ids, now, maxAge, a)
              else !Takes(s, e, a) && IsFresh(s.db, ids, now, maxAge, a)
  {
    if e.PutInsertAction? {
      PutStepsAndFreshness(env, s, e, ids, now, maxAge, a);
    } else if e.CleanCommit? || e.FlushAccessTime? {
      CleanStepsAndFreshness(s, e, ids, now, maxAge, a);
    } else {
      OtherStepsKeepActions(env, s, e);
    }
  }

  lemma {:induction false} FreshnessIsKnown(env: Env, s: State, events: seq<Event>, ids: set<nat>,
                                            now: int, maxAge: int, a: string)
    requires !IsFresh(s.db, ids, now, maxAge, a)
    ensures IsFresh(Run(env, s, events).db, ids, now, maxAge, a) <==> FreshNow(env, s, events, ids, now, maxAge, a)
  {
    if events != [] {
      var before := events[..|events| - 1];
      FreshnessIsKnown(env, s, before, ids, now, maxAge, a);
      NextFreshness(env, Run(env, s, before), events[|events| - 1], ids, now, maxAge, a);
    }
  }

  lemma CandidatesAreOld(db: Db, now: int, maxAge: int, limit: nat, cs: seq<Candidate>, a: string)
    requires Aligned(now, maxAge) && IsCandidateList(db, Cutoff(now, maxAge), limit, cs)
    ensures !IsFresh(db, Ids(cs), now, maxAge, a)
  {
    FullyExpiredAreEligible(db, now, maxAge);
    if a in db.actions && db.actions[a].blobId in Ids(cs) {
      var c :| c in cs && c.blobId == db.actions[a].blobId;
      assert IsCandidate(db, Cutoff(now, maxAge), c);
    }
  }

  /** The commit of thread t, which is due, removes the action. */
  ghost predicate Goes(env: Env, s: State, t: nat, a: string) {
    a in s.db.actions && a !in Next(env, s, CleanCommit(t)).db.actions
  }

  /** Under interleaving, however late the clean of a list commits: it removes an action that is younger
      than maxAge, by the clock of the list, exactly if the last insert, flush or removal of that action
      since the list was taken was a PUT or a flush that gave it a fresh access time on a listed blob. */
  lemma LateCleanTakesExactly(env: Env, before: seq<Event>, now: int, maxAge: int, limit: nat, cs: seq<Candidate>,
                              after: seq<Event>, t: nat, a: string)
    requires Aligned(now, maxAge) && IsCandidateList(Run(env, INIT, before).db, Cutoff(now, maxAge), limit, cs)
    requires var s := Run(env, Run(env, INIT, before), after);
             && IsRemoving(s, t) && s.threads[t].clean.k == |s.threads[t].ids|
             && Elements(s.threads[t].ids) == Ids(cs)
    ensures var s0 := Run(env, INIT, before); var s := Run(env, s0, after);
            Goes(env, s, t, a) && !IsOld(now, s.db.actions[a].accessTime, maxAge) <==>
              FreshNow(env, s0, after, Ids(cs), now, maxAge, a)
  {
    var s0 := Run(env, INIT, before);
    CandidatesAreOld(s0.db, now, maxAge, limit, cs, a);
    FreshnessIsKnown(env, s0, after, Ids(cs), now, maxAge, a);
    CommitTakesListed(env, Run(env, s0, after), t, a);
  }

  lemma CommitTakesListed(env: Env, s: State, t: nat, a: string)
    requires IsRemoving(s, t) && s.threads[t].clean.k == |s.threads[t].ids|
    ensures Goes(env, s, t, a) <==> a in s.db.actions && s.db.actions[a].blobId in Elements(s.threads[t].ids)
  {
    assert Next(env, s, CleanCommit(t)) == CleanNext(s, CleanCommit(t));
  }

  /** In particular it spares the young if nothing has freshened a listed blob since; its own list may be
      any part of the candidates. */
  lemma LateCleanSparesTheYoung(env: Env, before: seq<Event>, now: int, maxAge: int, limit: nat, cs: seq<Candidate>,
                                after: seq<Event>, t: nat, a: string)
    requires Aligned(now, maxAge) && IsCandidateList(Run(env, INIT, before).db, Cutoff(now, maxAge), limit, cs)
    requires var s0 := Run(env, INIT, before); var s := Run(env, s0, after);
             && !FreshNow(env, s0, after, Ids(cs), now, maxAge, a)
             && CleanAt(s, t) && Elements(s.threads[t].ids) <= Ids(cs) && Goes(env, s, t, a)
    ensures IsOld(now, Run(env, Run(env, INIT, before), after).db.actions[a].accessTime, maxAge)
  {
    var s0 := Run(env, INIT, before);
    CandidatesAreOld(s0.db, now, maxAge, limit, cs, a);
    FreshnessIsKnown(env, s0, after, Ids(cs), now, maxAge, a);
  }

  // ---- The input that needs the condition ----

  ghost function LateTrace(env: Env, u: Upload, time: int, late: Upload, now: int): seq<Event> {
    var put, latePut := Serial.DoPut(u, 0, time), Serial.DoPut(late, 0, Unix(now));
    var db1 := Serial.Next(env.codec, EMPTY_DB, put);
    Trace(EMPTY_DB, put, 0) + Trace(db1, latePut, 1)
      + Trace(Serial.Next(env.codec, db1, latePut), Serial.Clean([1]), 2)
  }

  lemma StoredIsCandidate(codec: Codec, u: Upload, time: int, cutoff: int)
    requires time <= cutoff
    ensures IsCandidateList(Serial.Put(codec, EMPTY_DB, u, 1, time), cutoff, 2,
                            [Candidate(1, time, RowOf(codec, u.content).storedSize)])
  {
    var stored := Serial.Put(codec, EMPTY_DB, u, 1, time);
    var cs := [Candidate(1, time, RowOf(codec, u.content).storedSize)];
    Serial.FirstRow(codec, u);
    assert Referenced(stored) == {1} by { assert u.actionId in stored.actions; }
    MaxAccessIsMax(stored, 1);
    assert Ids(cs) == {1} by { assert cs[0].blobId == 1; }
  }

  lemma LateActionGoes(codec: Codec, u: Upload, time: int, late: Upload, now: int)
    requires late.content == u.content && late.actionId != u.actionId
    ensures var stored := Serial.Put(codec, EMPTY_DB, u, 1, time);
            var later := Serial.Put(codec, stored, late, stored.nextBlobId, Unix(now));
            && late.actionId in later.actions && later.actions[late.actionId].accessTime == Unix(now)
            && late.actionId !in Serial.Delete(later, [1]).actions
  {
    Serial.FirstRow(codec, u);
    assert [1][0] == 1;
  }

  lemma LateTraceRuns(env: Env, u: Upload, time: int, late: Upload, now: int) returns (s1: State, s2: State, s3: State)
    requires Serial.MayPut(env.contents, u) && Serial.MayPut(env.contents, late)
    ensures s1 == Run(env, INIT, Trace(EMPTY_DB, Serial.DoPut(u, 0, time), 0))
    ensures s2 == Run(env, s1, Trace(s1.db, Serial.DoPut(late, 0, Unix(now)), 1))
    ensures s3 == Run(env, INIT, LateTrace(env, u, time, late, now))
    ensures s1.db == Serial.Put(env.codec, EMPTY_DB, u, 1, time)
    ensures s2.db == Serial.Put(env.codec, s1.db, late, s1.db.nextBlobId, Unix(now))
    ensures s3.db == Serial.Delete(s2.db, [1])
    ensures PutAt(s2, 1, PutDone(true)) && PutAt(s3, 1, PutDone(true)) && s3.threads[1].u == late
  {
    s1 := FullPutRefines(env, INIT, u, 0, time, 0);
    s2 := FullPutRefines(env, s1, late, 0, Unix(now), 1);
    s3 := CleanRefines(env, s2, Serial.Clean([1]), 2);
    CleanIsOwn(s2.db, [1], 2);
    RunLeavesOthers(env, s2, Trace(s2.db, Serial.Clean([1]), 2), 2, 1);
    var put, latePut := Trace(EMPTY_DB, Serial.DoPut(u, 0, time), 0), Trace(s1.db, Serial.DoPut(late, 0, Unix(now)), 1);
    RunAppend(env, INIT, put, latePut);
    RunAppend(env, INIT, put + latePut, Trace(s2.db, Serial.Clean([1]), 2));
  }

  /** A run: u is stored, and old enough to be the one candidate; a PUT of the same content to another
      action is answered with success, its access time is now; then the clean of that list commits, and
      the new action is gone with the old one. */
  lemma LatePutIsEvicted(env: Env, u: Upload, time: int, late: Upload, now: int, maxAge: int)
    requires Serial.MayPut(env.contents, u) && Serial.MayPut(env.contents, late)
    requires late.content == u.content && late.actionId != u.actionId && time <= Cutoff(now, maxAge)
    ensures var put, latePut := Serial.DoPut(u, 0, time), Serial.DoPut(late, 0, Unix(now));
            var s1 := Run(env, INIT, Trace(EMPTY_DB, put, 0)); var s2 := Run(env, s1, Trace(s1.db, latePut, 1));
            var s3 := Run(env, INIT, LateTrace(env, u, time, late, now));
            && IsCandidateList(s1.db, Cutoff(now, maxAge), 2,
                               [Candidate(1, time, RowOf(env.codec, u.content).storedSize)])
            && PutAt(s2, 1, PutDone(true)) && late.actionId in s2.db.actions
            && s2.db.actions[late.actionId].accessTime == Unix(now)
            && PutAt(s3, 1, PutDone(true)) && s3.threads[1].u == late && late.actionId !in s3.db.actions
  {
    var s1, s2, s3 := LateTraceRuns(env, u, time, late, now);
    StoredIsCandidate(env.codec, u, time, Cutoff(now, maxAge));
    LateActionGoes(env.codec, u, time, late, now);
  }
}

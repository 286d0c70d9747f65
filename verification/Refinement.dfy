/** Whole requests are special cases of interleaved steps: every serial run is a run of the transition
    system in which no request is interrupted. What holds of every interleaving so holds of the server's
    methods, which are proved against the serial requests. */
module Refinement {
  import opened Basics
  import opened Content
  import opened Store
  import opened Interleaving
  import Serial

  lemma {:induction false} RunAppend(env: Env, s: State, first: seq<Event>, second: seq<Event>)
    ensures Run(env, s, first + second) == Run(env, Run(env, s, first), second)
  {
    if second == [] {
      assert first + second == first;
    } else {
      var before := second[..|second| - 1];
      assert (first + second)[..|first + second| - 1] == first + before;
      RunAppend(env, s, first, before);
    }
  }

  lemma RunOneMore(env: Env, s: State, events: seq<Event>, e: Event)
    ensures Run(env, s, events + [e]) == Next(env, Run(env, s, events), e)
  {
    assert (events + [e])[..|events|] == events;
  }

  lemma RunTwoMore(env: Env, s: State, events: seq<Event>, e: Event, e': Event)
    ensures Run(env, s, events + [e] + [e']) == Next(env, Next(env, Run(env, s, events), e), e')
  {
    RunOneMore(env, s, events, e);
    RunOneMore(env, s, events + [e], e');
  }

  /** Nothing is under way: the lock is free, and thread numbers from t on are unused. */
  predicate Quiet(s: State, t: nat) {
    s.lock == None && forall k | k in s.threads :: k < t
  }

  // ---- The steps of one request ----

  function RemovalAt(t: nat, step: nat): Event {
    if step % 2 == 0 then CleanRemoveLz4(t) else CleanRemovePlain(t)
  }

  function Removals(t: nat, steps: nat): seq<Event> {
    if steps == 0 then [] else Removals(t, steps - 1) + [RemovalAt(t, steps - 1)]
  }

  ghost function Trace(db: Db, op: Serial.Op, t: nat): seq<Event> {
    match op
    case DoPut(u, skipped, now) =>
      PutStart(t, u) + [PutInsertBlob(t, db.nextBlobId + skipped)] + [PutInsertAction(t, now)]
    case PutWithoutBlob(u) => PutStart(t, u) + [PutBlobError(t)]
    case PutWithoutAction(u, skipped) =>
      PutStart(t, u) + [PutInsertBlob(t, db.nextBlobId + skipped)] + [PutActionError(t)]
    case Touch(a, time) => [FlushAccessTime(a, time)]
    case Clean(ids) => RemovalTrace(t, ids, 2 * |ids|) + [CleanCommit(t)] + [CleanCount(t)]
    case FailedClean(ids, steps) => RemovalTrace(t, ids, Min(steps, 2 * |ids|)) + [CleanAbort(t)]
  }

  function PutStart(t: nat, u: Upload): seq<Event> {
    [PutBegin(t, u)] + [PutWrite(t)] + [PutLock(t)]
  }

  function CleanStart(t: nat, ids: seq<nat>): seq<Event> {
    [CleanBegin(t, ids)] + [CleanLock(t)]
  }

  /** Thread t holds the lock and has written u's file since db. */
  predicate HasWritten(env: Env, db: Db, s: State, t: nat, u: Upload) {
    && s.db == WriteFile(env.codec, db, u.content) && s.lock == Some(t)
    && PutAt(s, t, Locked) && s.threads[t].u == u
    && forall k | k in s.threads :: k <= t
  }

  lemma PutStartRuns(env: Env, s: State, t: nat, u: Upload) returns (s': State)
    requires Quiet(s, t) && Serial.MayPut(env.contents, u)
    ensures s' == Run(env, s, PutStart(t, u))
    ensures HasWritten(env, s.db, s', t, u)
  {
    var s1 := Next(env, s, PutBegin(t, u));
    var s2 := Next(env, s1, PutWrite(t));
    assert PutAt(s1, t, Received) && s1.threads[t].u == u;
    s' := Next(env, s2, PutLock(t));
    RunOneMore(env, s, [], PutBegin(t, u));
    RunOneMore(env, s, [PutBegin(t, u)], PutWrite(t));
    RunOneMore(env, s, [PutBegin(t, u)] + [PutWrite(t)], PutLock(t));
  }

  lemma InsertsRefine(env: Env, db: Db, s: State, t: nat, u: Upload, skipped: nat, now: int)
    returns (done: State, failed: State)
    requires HasWritten(env, db, s, t, u)
    ensures var s1 := Next(env, s, PutInsertBlob(t, db.nextBlobId + skipped));
            done == Next(env, s1, PutInsertAction(t, now)) && failed == Next(env, s1, PutActionError(t))
    ensures done.db == Serial.Put(env.codec, db, u, db.nextBlobId + skipped, now) && Quiet(done, t + 1)
    ensures PutAt(done, t, PutDone(true)) && done.threads[t].u == u
    ensures failed.db == Serial.PutBlob(env.codec, db, u.content, db.nextBlobId + skipped) && Quiet(failed, t + 1)
  {
    assert UpsertedId(env.codec, s.db, u.content, db.nextBlobId + skipped)
        == UpsertedId(env.codec, db, u.content, db.nextBlobId + skipped);
    var s1 := Next(env, s, PutInsertBlob(t, db.nextBlobId + skipped));
    assert PutHasRow(s1, t);
    done, failed := Next(env, s1, PutInsertAction(t, now)), Next(env, s1, PutActionError(t));
  }

  lemma BlobErrorRefines(env: Env, db: Db, s: State, t: nat, u: Upload) returns (s': State)
    requires HasWritten(env, db, s, t, u)
    ensures s' == Next(env, s, PutBlobError(t))
    ensures s'.db == WriteFile(env.codec, db, u.content) && Quiet(s', t + 1)
  {
    s' := Next(env, s, PutBlobError(t));
  }

  lemma FullPutRefines(env: Env, s: State, u: Upload, skipped: nat, now: int, t: nat) returns (s': State)
    requires Quiet(s, t) && Serial.MayPut(env.contents, u)
    ensures s' == Run(env, s, Trace(s.db, Serial.DoPut(u, skipped, now), t))
    ensures s'.db == Serial.Next(env.codec, s.db, Serial.DoPut(u, skipped, now)) && Quiet(s', t + 1)
    ensures PutAt(s', t, PutDone(true)) && s'.threads[t].u == u
  {
    var s1 := PutStartRuns(env, s, t, u);
    var failed;
    s', failed := InsertsRefine(env, s.db, s1, t, u, skipped, now);
    RunTwoMore(env, s, PutStart(t, u), PutInsertBlob(t, s.db.nextBlobId + skipped), PutInsertAction(t, now));
  }

  lemma FailedPutRefines(env: Env, s: State, u: Upload, skipped: nat, t: nat) returns (s': State)
    requires Quiet(s, t) && Serial.MayPut(env.contents, u)
    ensures s' == Run(env, s, Trace(s.db, Serial.PutWithoutAction(u, skipped), t))
    ensures s'.db == Serial.Next(env.codec, s.db, Serial.PutWithoutAction(u, skipped)) && Quiet(s', t + 1)
  {
    var s1 := PutStartRuns(env, s, t, u);
    var done;
    done, s' := InsertsRefine(env, s.db, s1, t, u, skipped, 0);
    RunTwoMore(env, s, PutStart(t, u), PutInsertBlob(t, s.db.nextBlobId + skipped), PutActionError(t));
  }

  lemma NoBlobRefines(env: Env, s: State, u: Upload, t: nat) returns (s': State)
    requires Quiet(s, t) && Serial.MayPut(env.contents, u)
    ensures s' == Run(env, s, Trace(s.db, Serial.PutWithoutBlob(u), t))
    ensures s'.db == Serial.Next(env.codec, s.db, Serial.PutWithoutBlob(u)) && Quiet(s', t + 1)
  {
    var s1 := PutStartRuns(env, s, t, u);
    s' := BlobErrorRefines(env, s.db, s1, t, u);
    RunOneMore(env, s, PutStart(t, u), PutBlobError(t));
  }

  // ---- Cleans ----

  /** Thread t has made the first steps of its file removals since s. */
  predicate HasRemoved(s: State, s': State, t: nat, ids: seq<nat>, steps: nat) {
    && s'.db == Serial.RolledBack(s.db, ids, steps)
    && s'.lock == Some(t)
    && IsRemoving(s', t) && s'.threads[t].ids == ids
    && s'.threads[t].clean.k == steps / 2 && s'.threads[t].clean.lz4Gone == (steps % 2 == 1)
    && s'.threads.Keys == s.threads.Keys + {t}
    && s'.evictedBlobs == s.evictedBlobs
  }

  lemma CleanStartRuns(env: Env, s: State, t: nat, ids: seq<nat>) returns (s': State)
    requires Quiet(s, t)
    ensures s' == Run(env, s, RemovalTrace(t, ids, 0))
    ensures HasRemoved(s, s', t, ids, 0)
  {
    s' := Next(env, Next(env, s, CleanBegin(t, ids)), CleanLock(t));
    RunTwoMore(env, s, [], CleanBegin(t, ids), CleanLock(t));
    assert RemovalTrace(t, ids, 0) == [] + [CleanBegin(t, ids)] + [CleanLock(t)];
    assert Serial.RemovedPaths(s.db.blobs, ids, 0) == {};
  }

  lemma OneMoreRemoved(env: Env, s: State, s1: State, t: nat, ids: seq<nat>, steps: nat) returns (s2: State)
    requires steps < 2 * |ids| && HasRemoved(s, s1, t, ids, steps)
    ensures s2 == Next(env, s1, RemovalAt(t, steps))
    ensures HasRemoved(s, s2, t, ids, steps + 1)
  {
    s2 := Next(env, s1, RemovalAt(t, steps));
    Serial.RemovedOneMore(s.db.blobs, ids, steps);
    assert s1.db.blobs == s.db.blobs;
    assert s1.threads[t].clean.k < |ids|;
    assert s1.db.files - {Serial.PathAt(s.db.blobs, ids, steps)} ==
           s.db.files - Serial.RemovedPaths(s.db.blobs, ids, steps + 1);
  }

  function RemovalTrace(t: nat, ids: seq<nat>, steps: nat): seq<Event> {
    CleanStart(t, ids) + Removals(t, steps)
  }

  lemma ExtendRemoval(env: Env, s: State, s1: State, t: nat, ids: seq<nat>, steps: nat) returns (s2: State)
    requires 0 < steps <= 2 * |ids|
    requires s1 == Run(env, s, RemovalTrace(t, ids, steps - 1)) && HasRemoved(s, s1, t, ids, steps - 1)
    ensures s2 == Run(env, s, RemovalTrace(t, ids, steps))
    ensures HasRemoved(s, s2, t, ids, steps)
  {
    s2 := OneMoreRemoved(env, s, s1, t, ids, steps - 1);
    assert RemovalTrace(t, ids, steps) == RemovalTrace(t, ids, steps - 1) + [RemovalAt(t, steps - 1)];
    RunOneMore(env, s, RemovalTrace(t, ids, steps - 1), RemovalAt(t, steps - 1));
  }

  lemma {:induction false} RemovalsRun(env: Env, s: State, t: nat, ids: seq<nat>, steps: nat) returns (s': State)
    requires Quiet(s, t) && steps <= 2 * |ids|
    ensures s' == Run(env, s, RemovalTrace(t, ids, steps))
    ensures HasRemoved(s, s', t, ids, steps)
  {
    if steps == 0 {
      s' := CleanStartRuns(env, s, t, ids);
    } else {
      var s1 := RemovalsRun(env, s, t, ids, steps - 1);
      s' := ExtendRemoval(env, s, s1, t, ids, steps);
    }
  }

  lemma AbortEnds(env: Env, s: State, s1: State, t: nat, ids: seq<nat>, steps: nat) returns (s': State)
    requires Quiet(s, t) && steps <= 2 * |ids| && HasRemoved(s, s1, t, ids, steps)
    ensures s' == Next(env, s1, CleanAbort(t))
    ensures s'.db == Serial.RolledBack(s.db, ids, steps) && Quiet(s', t + 1) && s'.evictedBlobs == s.evictedBlobs
  {
    s' := Next(env, s1, CleanAbort(t));
  }

  lemma CommitDeletes(env: Env, s: State, s1: State, t: nat, ids: seq<nat>) returns (s2: State)
    requires HasRemoved(s, s1, t, ids, 2 * |ids|)
    ensures s2 == Next(env, s1, CleanCommit(t))
    ensures s2.db == Serial.Delete(s.db, ids) && s2.threads.Keys == s.threads.Keys + {t}
    ensures CleanAt(s2, t) && s2.threads[t].ids == ids && s2.threads[t].clean.Committed?
    ensures s2.evictedBlobs == s.evictedBlobs
  {
    s2 := Committing(env, s1, t);
    assert s1.db == Serial.RolledBack(s.db, ids, 2 * |ids|);
  }

  lemma Committing(env: Env, s: State, t: nat) returns (s': State)
    requires IsRemoving(s, t) && s.threads[t].clean.k == |s.threads[t].ids|
    ensures s' == Next(env, s, CleanCommit(t))
    ensures s'.db == RemoveRows(s.db, Elements(s.threads[t].ids)) && s'.threads.Keys == s.threads.Keys
    ensures CleanAt(s', t) && s'.threads[t].ids == s.threads[t].ids && s'.threads[t].clean.Committed?
    ensures s'.evictedBlobs == s.evictedBlobs
  {
    s' := Next(env, s, CleanCommit(t));
  }

  lemma CountEnds(env: Env, s: State, t: nat, ids: seq<nat>) returns (s': State)
    requires CleanAt(s, t) && s.threads[t].ids == ids && s.threads[t].clean.Committed?
    ensures s' == Next(env, s, CleanCount(t))
    ensures s'.db == s.db && s'.lock == None && s'.threads.Keys == s.threads.Keys
    ensures s'.evictedBlobs == s.evictedBlobs + |ids|
  {
    s' := Next(env, s, CleanCount(t));
  }

  lemma CommitEnds(env: Env, s: State, s1: State, t: nat, ids: seq<nat>) returns (s': State)
    requires Quiet(s, t) && HasRemoved(s, s1, t, ids, 2 * |ids|)
    ensures s' == Next(env, Next(env, s1, CleanCommit(t)), CleanCount(t))
    ensures s'.db == Serial.Delete(s.db, ids) && Quiet(s', t + 1) && s'.evictedBlobs == s.evictedBlobs + |ids|
  {
    var s2 := CommitDeletes(env, s, s1, t, ids);
    s' := CountEnds(env, s2, t, ids);
    assert forall k | k in s'.threads :: k in s.threads || k == t;
  }

  lemma CleanRefines(env: Env, s: State, op: Serial.Op, t: nat) returns (s': State)
    requires Quiet(s, t) && (op.Clean? || op.FailedClean?)
    ensures s' == Run(env, s, Trace(s.db, op, t))
    ensures s'.db == Serial.Next(env.codec, s.db, op) && Quiet(s', t + 1)
    ensures s'.evictedBlobs == s.evictedBlobs + if op.Clean? then |op.ids| else 0
  {
    var steps := if op.Clean? then 2 * |op.ids| else Min(op.steps, 2 * |op.ids|);
    var s1 := RemovalsRun(env, s, t, op.ids, steps);
    if op.Clean? {
      s' := CommitEnds(env, s, s1, t, op.ids);
      RunTwoMore(env, s, RemovalTrace(t, op.ids, steps), CleanCommit(t), CleanCount(t));
    } else {
      s' := AbortEnds(env, s, s1, t, op.ids, steps);
      RunOneMore(env, s, RemovalTrace(t, op.ids, steps), CleanAbort(t));
    }
  }

  lemma TouchRefines(env: Env, s: State, actionId: string, time: int, t: nat) returns (s': State)
    requires Quiet(s, t)
    ensures s' == Run(env, s, Trace(s.db, Serial.Touch(actionId, time), t))
    ensures s'.db == Serial.Next(env.codec, s.db, Serial.Touch(actionId, time)) && Quiet(s', t + 1)
  {
    s' := Next(env, s, FlushAccessTime(actionId, time));
    RunOneMore(env, s, [], FlushAccessTime(actionId, time));
    assert Trace(s.db, Serial.Touch(actionId, time), t) == [] + [FlushAccessTime(actionId, time)];
  }

  lemma OpRefines(env: Env, s: State, op: Serial.Op, t: nat) returns (s': State)
    requires Quiet(s, t) && Serial.WellFormed(env.contents, op)
    ensures s' == Run(env, s, Trace(s.db, op, t))
    ensures s'.db == Serial.Next(env.codec, s.db, op) && Quiet(s', t + 1)
  {
    match op
    case DoPut(u, skipped, now) => s' := FullPutRefines(env, s, u, skipped, now, t);
    case PutWithoutBlob(u) => s' := NoBlobRefines(env, s, u, t);
    case PutWithoutAction(u, skipped) => s' := FailedPutRefines(env, s, u, skipped, t);
    case Touch(a, time) => s' := TouchRefines(env, s, a, time, t);
    case _ => s' := CleanRefines(env, s, op, t);
  }

  // ---- Runs ----

  ghost function Traces(codec: Codec, ops: seq<Serial.Op>): seq<Event> {
    if ops == [] then []
    else
      var before := ops[..|ops| - 1];
      Traces(codec, before) + Trace(Serial.Run(codec, EMPTY_DB, before), ops[|ops| - 1], |ops| - 1)
  }

  /** Every serial run, failing requests included, is a run of the transition system to the same tables
      and files. */
  lemma {:induction false} SerialRunsAreInterleavings(env: Env, ops: seq<Serial.Op>)
    requires forall op | op in ops :: Serial.WellFormed(env.contents, op)
    ensures var s := Run(env, INIT, Traces(env.codec, ops));
            s.db == Serial.Run(env.codec, EMPTY_DB, ops) && Quiet(s, |ops|)
  {
    if ops != [] {
      var before, last := ops[..|ops| - 1], |ops| - 1;
      SerialRunsAreInterleavings(env, before);
      var s := Run(env, INIT, Traces(env.codec, before));
      var s' := OpRefines(env, s, ops[last], last);
      RunAppend(env, INIT, Traces(env.codec, before), Trace(s.db, ops[last], last));
    }
  }

  /** And an uninterrupted GET answers what the serial one does. */
  lemma GetRefines(env: Env, s: State, t: nat, actionId: string, acceptsLz4: bool)
    requires t !in s.threads
    ensures var s' := Run(env, s, [GetBegin(t, actionId, acceptsLz4)] + [GetQuery(t)] + [GetOpen(t)]);
            && GetAt(s', t) && s'.db == s.db
            && s'.threads[t].get == Answered(Serial.Get(env.codec, s.db, actionId, acceptsLz4))
  {
    var begin := GetBegin(t, actionId, acceptsLz4);
    RunOneMore(env, s, [], begin);
    assert [] + [begin] == [begin];
    RunOneMore(env, s, [begin], GetQuery(t));
    RunOneMore(env, s, [begin] + [GetQuery(t)], GetOpen(t));
  }
}

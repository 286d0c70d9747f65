/** Concurrent PUT, GET and clean requests as a transition system.

    Every event is one atomic step of one request: a rename, one SQL statement, one file removal, a
    commit. The write lock (sqliteWriteMu) is explicit. A run is any sequence of events; an event
    that is not enabled changes nothing. */
module Interleaving {
  import opened Basics
  import opened Content
  import opened Store
  import Hex

  /** contents is the set of contents that are ever uploaded. */
  datatype Env = Env(codec: Codec, contents: set<Bytes>)

  datatype PutStep = Received | Written | Locked | RowInserted(blobId: nat) | PutDone(ok: bool)

  datatype GetStep = Asked | Queried(view: RowView) | Answered(response: Response)

  /** Removing(k, lz4Gone, bytes): the IDs before k are done, and bytes is the sum of their sizes. */
  datatype CleanStep = Listed | Removing(k: nat, lz4Gone: bool, bytes: nat) | Committed(evicted: nat) | CleanDone

  datatype Thread =
    | Putting(u: Upload, put: PutStep)
    | Getting(actionId: string, acceptsLz4: bool, get: GetStep)
    | Cleaning(ids: seq<nat>, clean: CleanStep)

  /** What the proofs remember of the run; no step reads it. */
  datatype History = History(
    uploads: set<Upload>,       // the uploads that created an action row
    insertedBlobs: nat,         // blob rows ever inserted
    insertedBytes: nat,         // and the sum of their stored sizes
    staleIds: nat,              // IDs in committed cleans that no longer had a row
    failed: set<string>)        // hashes of the PUTs that failed at the blob insert

  datatype State = State(
    db: Db,
    lock: Option<nat>,
    threads: map<nat, Thread>,
    evictedBlobs: nat,
    evictedBytes: nat,
    h: History)

  const INIT := State(EMPTY_DB, None, map[], 0, 0, History({}, 0, 0, 0, {}))

  datatype Event =
    | PutBegin(t: nat, u: Upload)
    | PutRefused(t: nat)                   // a read or disk error before the rename
    | PutWrite(t: nat)                     // the rename; nothing for small content
    | PutLock(t: nat)
    | PutInsertBlob(t: nat, newId: nat)
    | PutBlobError(t: nat)
    | PutInsertAction(t: nat, now: int)
    | PutActionError(t: nat)
    | GetBegin(t: nat, actionId: string, acceptsLz4: bool)
    | GetQuery(t: nat)
    | GetOpen(t: nat)
    | GetError(t: nat)
    | CleanBegin(t: nat, ids: seq<nat>)    // any list of IDs, however old
    | CleanLock(t: nat)
    | CleanRemoveLz4(t: nat)
    | CleanRemovePlain(t: nat)
    | CleanAbort(t: nat)                   // an error: the transaction rolls back
    | CleanCommit(t: nat)
    | CleanCount(t: nat)
    | FlushAccessTime(actionId: string, time: int)

  // ---- Steps ----

  predicate PutAt(s: State, t: nat, step: PutStep) {
    t in s.threads && s.threads[t].Putting? && s.threads[t].put == step
  }

  predicate PutHasRow(s: State, t: nat) {
    t in s.threads && s.threads[t].Putting? && s.threads[t].put.RowInserted?
  }

  predicate GetAt(s: State, t: nat) {
    t in s.threads && s.threads[t].Getting?
  }

  predicate CleanAt(s: State, t: nat) {
    t in s.threads && s.threads[t].Cleaning?
  }

  predicate IsRemoving(s: State, t: nat) {
    CleanAt(s, t) && s.threads[t].clean.Removing?
  }

  function Go(s: State, t: nat, th: Thread): State {
    s.(threads := s.threads[t := th])
  }

  ghost function PutNext(env: Env, s: State, e: Event): State {
    match e
    case PutBegin(t, u) =>
      if t !in s.threads && u.content in env.contents
         && Hex.ValidServerId(u.actionId) && Hex.ValidServerId(u.outputId)
      then Go(s, t, Putting(u, Received)) else s
    case PutRefused(t) =>
      if PutAt(s, t, Received) then Go(s, t, s.threads[t].(put := PutDone(false))) else s
    case PutWrite(t) =>
      if PutAt(s, t, Received)
      then Go(s.(db := WriteFile(env.codec, s.db, s.threads[t].u.content)), t, s.threads[t].(put := Written))
      else s
    case PutLock(t) =>
      if PutAt(s, t, Written) && s.lock == None
      then Go(s.(lock := Some(t)), t, s.threads[t].(put := Locked)) else s
    case PutInsertBlob(t, newId) =>
      if PutAt(s, t, Locked) && newId >= s.db.nextBlobId then
        var c := s.threads[t].u.content;
        var isNew := !HasBlob(s.db, env.codec.sha256(c));
        var id := UpsertedId(env.codec, s.db, c, newId);
        Go(s.(db := UpsertBlob(env.codec, s.db, c, newId),
              h := if isNew
                   then s.h.(insertedBlobs := s.h.insertedBlobs + 1,
                             insertedBytes := s.h.insertedBytes + RowOf(env.codec, c).storedSize)
                   else s.h),
           t, s.threads[t].(put := RowInserted(id)))
      else s
    case PutBlobError(t) =>
      if PutAt(s, t, Locked)
      then Go(s.(lock := None, h := s.h.(failed := s.h.failed + {env.codec.sha256(s.threads[t].u.content)})),
              t, s.threads[t].(put := PutDone(false)))
      else s
    case PutInsertAction(t, now) =>
      if PutHasRow(s, t) then
        var u := s.threads[t].u;
        Go(s.(lock := None,
              db := InsertAction(env.codec, s.db, u, s.threads[t].put.blobId, now),
              h := if u.actionId in s.db.actions then s.h else s.h.(uploads := s.h.uploads + {u})),
           t, s.threads[t].(put := PutDone(true)))
      else s
    case PutActionError(t) =>
      if PutHasRow(s, t) then Go(s.(lock := None), t, s.threads[t].(put := PutDone(false))) else s
    case _ => s
  }

  function GetNext(env: Env, s: State, e: Event): State {
    match e
    case GetBegin(t, actionId, acceptsLz4) =>
      if t !in s.threads then Go(s, t, Getting(actionId, acceptsLz4, Asked)) else s
    case GetQuery(t) =>
      if GetAt(s, t) && s.threads[t].get == Asked then
        match Query(s.db, s.threads[t].actionId)
        case None => Go(s, t, s.threads[t].(get := Answered(NotFound)))
        case Some(view) => Go(s, t, s.threads[t].(get := Queried(view)))
      else s
    case GetOpen(t) =>
      if GetAt(s, t) && s.threads[t].get.Queried?
      then Go(s, t, s.threads[t].(get := Answered(
             Respond(env.codec, s.threads[t].get.view, s.db.files, s.threads[t].acceptsLz4))))
      else s
    case GetError(t) =>
      if GetAt(s, t) && !s.threads[t].get.Answered?
      then Go(s, t, s.threads[t].(get := Answered(Failed(500)))) else s
    case _ => s
  }

  function CleanNext(s: State, e: Event): State {
    match e
    case CleanBegin(t, ids) =>
      if t !in s.threads then Go(s, t, Cleaning(ids, Listed)) else s
    case CleanLock(t) =>
      if CleanAt(s, t) && s.threads[t].clean == Listed && s.lock == None
      then Go(s.(lock := Some(t)), t, s.threads[t].(clean := Removing(0, false, 0))) else s
    case CleanRemoveLz4(t) =>
      if IsRemoving(s, t) && s.threads[t].clean.k < |s.threads[t].ids| && !s.threads[t].clean.lz4Gone then
        var th := s.threads[t];
        Go(s.(db := RemoveFile(s.db, Lz4(HashAt(s.db.blobs, th.ids, th.clean.k)))),
           t, th.(clean := th.clean.(lz4Gone := true)))
      else s
    case CleanRemovePlain(t) =>
      if IsRemoving(s, t) && s.threads[t].clean.k < |s.threads[t].ids| && s.threads[t].clean.lz4Gone then
        var th := s.threads[t];
        Go(s.(db := RemoveFile(s.db, Plain(HashAt(s.db.blobs, th.ids, th.clean.k)))),
           t, th.(clean := Removing(th.clean.k + 1, false, th.clean.bytes + SizeAt(s.db.blobs, th.ids, th.clean.k))))
      else s
    case CleanAbort(t) =>
      if IsRemoving(s, t) then Go(s.(lock := None), t, s.threads[t].(clean := CleanDone)) else s
    case CleanCommit(t) =>
      if IsRemoving(s, t) && s.threads[t].clean.k == |s.threads[t].ids| then
        var th := s.threads[t];
        Go(s.(db := RemoveRows(s.db, Elements(th.ids)),
              h := s.h.(staleIds := s.h.staleIds + StaleCount(s.db.blobs, th.ids))),
           t, th.(clean := Committed(th.clean.bytes)))
      else s
    case CleanCount(t) =>
      if CleanAt(s, t) && s.threads[t].clean.Committed? then
        var th := s.threads[t];
        Go(s.(lock := None,
              evictedBlobs := s.evictedBlobs + |th.ids|,
              evictedBytes := s.evictedBytes + th.clean.evicted),
           t, th.(clean := CleanDone))
      else s
    case FlushAccessTime(a, time) =>
      if s.lock == None && a in s.db.actions
      then s.(db := SetAccessTime(s.db, a, time)) else s
    case _ => s
  }

  ghost function Next(env: Env, s: State, e: Event): State {
    if e.PutBegin? || e.PutRefused? || e.PutWrite? || e.PutLock? || e.PutInsertBlob? || e.PutBlobError?
       || e.PutInsertAction? || e.PutActionError?
    then PutNext(env, s, e)
    else if e.GetBegin? || e.GetQuery? || e.GetOpen? || e.GetError? then GetNext(env, s, e)
    else CleanNext(s, e)
  }

  /** The state after a run. */
  ghost function Run(env: Env, s: State, events: seq<Event>): State {
    if events == [] then s else Next(env, Run(env, s, events[..|events| - 1]), events[|events| - 1])
  }

  // ---- Invariants ----

  ghost predicate UploadsOk(env: Env, s: State) {
    forall u | u in s.h.uploads :: u.content in env.contents && u.outputId != ""
  }

  /** A response that is not a miss or an error answers with one upload to that action. */
  ghost predicate AnswerOk(env: Env, uploads: set<Upload>, actionId: string, acceptsLz4: bool, r: Response) {
    r.Ok? ==> exists u :: u in uploads && u.actionId == actionId && Faithful(env.codec, u, acceptsLz4, r)
  }

  ghost predicate PutThreadOk(env: Env, s: State, t: nat, u: Upload, put: PutStep) {
    && u.content in env.contents
    && u.outputId != ""
    && (put.Locked? || put.RowInserted? ==> s.lock == Some(t))
    && (put.RowInserted? ==> put.blobId in s.db.blobs && s.db.blobs[put.blobId] == RowOf(env.codec, u.content))
  }

  ghost predicate GetThreadOk(env: Env, s: State, actionId: string, acceptsLz4: bool, get: GetStep) {
    && (get.Queried? ==> ViewFrom(env.codec, s.h.uploads, actionId, get.view))
    && (get.Answered? ==> AnswerOk(env, s.h.uploads, actionId, acceptsLz4, get.response))
  }

  predicate CleanThreadOk(s: State, t: nat, ids: seq<nat>, clean: CleanStep) {
    && (clean.Removing? || clean.Committed? ==> s.lock == Some(t))
    && (clean.Removing? ==> clean.k <= |ids|)
  }

  ghost predicate ThreadOk(env: Env, s: State, t: nat, th: Thread) {
    match th
    case Putting(u, put) => PutThreadOk(env, s, t, u, put)
    case Getting(a, acc, get) => GetThreadOk(env, s, a, acc, get)
    case Cleaning(ids, clean) => CleanThreadOk(s, t, ids, clean)
  }

  ghost predicate ThreadsOk(env: Env, s: State) {
    forall t | t in s.threads :: ThreadOk(env, s, t, s.threads[t])
  }

  ghost predicate Safe(env: Env, s: State) {
    && UploadsOk(env, s)
    && BlobsOk(env.codec, env.contents, s.db)
    && ActionsOk(env.codec, s.h.uploads, s.db)
    && FilesOk(env.codec, env.contents, s.db.files)
    && ThreadsOk(env, s)
  }

  // ---- Every step keeps the invariants ----

  /** What a step of thread t may do, seen from the other threads: it changes blob rows and takes or
      frees the lock only while nobody else holds it, and it forgets no upload. */
  ghost predicate StepOf(s: State, s': State, t: nat) {
    && t in s'.threads
    && s'.threads == s.threads[t := s'.threads[t]]
    && s.h.uploads <= s'.h.uploads
    && (s.lock == None || s.lock == Some(t) || (s'.lock == s.lock && s'.db.blobs == s.db.blobs))
  }

  lemma OtherThreadKeeps(env: Env, s: State, s': State, t: nat, other: nat)
    requires StepOf(s, s', t) && other != t && other in s.threads && ThreadOk(env, s, other, s.threads[other])
    ensures ThreadOk(env, s', other, s.threads[other])
  {
    match s.threads[other]
    case Putting(u, put) =>
    case Cleaning(ids, clean) =>
    case Getting(a, acc, get) =>
      if get.Queried? {
        ViewFromGrows(env.codec, s.h.uploads, s'.h.uploads, a, get.view);
      } else if get.Answered? && get.response.Ok? {
        var u :| u in s.h.uploads && u.actionId == a && Faithful(env.codec, u, acc, get.response);
        assert u in s'.h.uploads;
      }
  }

  lemma StepKeepsThreads(env: Env, s: State, s': State, t: nat)
    requires StepOf(s, s', t) && ThreadsOk(env, s) && ThreadOk(env, s', t, s'.threads[t])
    ensures ThreadsOk(env, s')
  {
    forall other | other in s'.threads
      ensures ThreadOk(env, s', other, s'.threads[other])
    {
      if other != t {
        OtherThreadKeeps(env, s, s', t, other);
      }
    }
  }

  lemma PutInsertBlobKeepsThreads(env: Env, s: State, t: nat, newId: nat)
    requires Sound(env.codec, env.contents) && BlobsOk(env.codec, env.contents, s.db) && ThreadsOk(env, s)
    requires PutAt(s, t, Locked) && newId >= s.db.nextBlobId
    ensures ThreadsOk(env, PutNext(env, s, PutInsertBlob(t, newId)))
  {
    var s' := PutNext(env, s, PutInsertBlob(t, newId));
    assert ThreadOk(env, s, t, s.threads[t]);
    UpsertBlobRow(env.codec, env.contents, s.db, s.threads[t].u.content, newId);
    StepKeepsThreads(env, s, s', t);
  }

  lemma PutInsertBlobKeepsSafe(env: Env, s: State, t: nat, newId: nat)
    requires Sound(env.codec, env.contents) && Safe(env, s)
    requires PutAt(s, t, Locked) && newId >= s.db.nextBlobId
    ensures Safe(env, PutNext(env, s, PutInsertBlob(t, newId)))
  {
    var s' := PutNext(env, s, PutInsertBlob(t, newId));
    var c := s.threads[t].u.content;
    assert c in env.contents by { assert ThreadOk(env, s, t, s.threads[t]); }
    var db' := UpsertBlob(env.codec, s.db, c, newId);
    assert s'.db == db' && s'.h.uploads == s.h.uploads && db'.files == s.db.files;
    assert BlobsOk(env.codec, env.contents, db') by {
      UpsertBlobKeepsBlobs(env.codec, env.contents, s.db, c, newId);
    }
    assert ActionsOk(env.codec, s.h.uploads, db') by {
      UpsertBlobRow(env.codec, env.contents, s.db, c, newId);
      MoreBlobsKeepActions(env.codec, s.h.uploads, s.db, db');
    }
    PutInsertBlobKeepsThreads(env, s, t, newId);
  }

  lemma PutInsertActionKeepsSafe(env: Env, s: State, t: nat, now: int)
    requires Safe(env, s) && PutHasRow(s, t)
    ensures Safe(env, PutNext(env, s, PutInsertAction(t, now)))
  {
    var s' := PutNext(env, s, PutInsertAction(t, now));
    assert ThreadOk(env, s, t, s.threads[t]);
    var u := s.threads[t].u;
    assert s'.h.uploads == s.h.uploads + (if u.actionId in s.db.actions then {} else {u});
    assert BlobsOk(env.codec, env.contents, s'.db) && ActionsOk(env.codec, s'.h.uploads, s'.db) by {
      InsertActionKeeps(env.codec, env.contents, s.h.uploads, s.db, u, s.threads[t].put.blobId, now);
    }
    StepKeepsThreads(env, s, s', t);
  }

  lemma PutOtherStepKeepsSafe(env: Env, s: State, e: Event)
    requires Safe(env, s) && PutNext(env, s, e) != s && !e.PutInsertBlob? && !e.PutInsertAction?
    ensures Safe(env, PutNext(env, s, e))
  {
    var s' := PutNext(env, s, e);
    assert ThreadsOk(env, s') by {
      assert e.t in s.threads ==> ThreadOk(env, s, e.t, s.threads[e.t]);
      StepKeepsThreads(env, s, s', e.t);
    }
    assert BlobsOk(env.codec, env.contents, s'.db);
    assert ActionsOk(env.codec, s'.h.uploads, s'.db) by {
      MoreBlobsKeepActions(env.codec, s.h.uploads, s.db, s'.db);
    }
    assert FilesOk(env.codec, env.contents, s'.db.files) by {
      if e.PutWrite? {
        assert ThreadOk(env, s, e.t, s.threads[e.t]);
        WriteFileKeeps(env.codec, env.contents, s.db, s.threads[e.t].u.content);
      }
    }
  }

  lemma PutKeepsSafe(env: Env, s: State, e: Event)
    requires Sound(env.codec, env.contents) && Safe(env, s)
    ensures Safe(env, PutNext(env, s, e))
  {
    var s' := PutNext(env, s, e);
    if s' != s {
      if e.PutInsertBlob? {
        PutInsertBlobKeepsSafe(env, s, e.t, e.newId);
      } else if e.PutInsertAction? {
        PutInsertActionKeepsSafe(env, s, e.t, e.now);
      } else {
        PutOtherStepKeepsSafe(env, s, e);
      }
    }
  }

  /** Opening the file after the query: whatever happened in between, the answer is the upload's. */
  lemma OpenAnswersFaithfully(env: Env, s: State, actionId: string, acceptsLz4: bool, view: RowView)
    requires Sound(env.codec, env.contents) && UploadsOk(env, s)
    requires FilesOk(env.codec, env.contents, s.db.files)
    requires ViewFrom(env.codec, s.h.uploads, actionId, view)
    ensures AnswerOk(env, s.h.uploads, actionId, acceptsLz4, Respond(env.codec, view, s.db.files, acceptsLz4))
  {
    var u :| u in s.h.uploads && u.actionId == actionId && ViewIs(env.codec, view, u);
    RespondIsFaithful(env.codec, env.contents, u, view, s.db.files, acceptsLz4);
  }

  lemma GetStepKeepsThread(env: Env, s: State, e: Event)
    requires Sound(env.codec, env.contents) && Safe(env, s) && GetNext(env, s, e) != s
    ensures e.t in GetNext(env, s, e).threads
    ensures ThreadOk(env, GetNext(env, s, e), e.t, GetNext(env, s, e).threads[e.t])
  {
    var t := e.t;
    assert t in s.threads ==> ThreadOk(env, s, t, s.threads[t]);
    if e.GetOpen? {
      var th := s.threads[t];
      OpenAnswersFaithfully(env, s, th.actionId, th.acceptsLz4, th.get.view);
    }
  }

  lemma GetKeepsSafe(env: Env, s: State, e: Event)
    requires Sound(env.codec, env.contents) && Safe(env, s)
    ensures Safe(env, GetNext(env, s, e))
  {
    var s' := GetNext(env, s, e);
    if s' != s {
      GetStepKeepsThread(env, s, e);
      StepKeepsThreads(env, s, s', e.t);
    }
  }

  lemma FlushKeepsThread(env: Env, s: State, e: Event, t: nat)
    requires e.FlushAccessTime? && t in s.threads && ThreadOk(env, s, t, s.threads[t])
    ensures ThreadOk(env, CleanNext(s, e), t, s.threads[t])
  {
  }

  lemma FlushKeepsSafe(env: Env, s: State, e: Event)
    requires Safe(env, s) && e.FlushAccessTime?
    ensures Safe(env, CleanNext(s, e))
  {
    var s' := CleanNext(s, e);
    if s' != s {
      SetAccessTimeKeeps(env.codec, s.h.uploads, s.db, e.actionId, e.time);
      forall t | t in s.threads
        ensures ThreadOk(env, s', t, s.threads[t])
      {
        assert ThreadOk(env, s, t, s.threads[t]);
        FlushKeepsThread(env, s, e, t);
      }
    }
  }

  lemma CleanKeepsSafe(env: Env, s: State, e: Event)
    requires Safe(env, s) && !e.FlushAccessTime?
    ensures Safe(env, CleanNext(s, e))
  {
    var s' := CleanNext(s, e);
    if s' != s {
      assert ThreadsOk(env, s') by {
        assert e.t in s.threads ==> ThreadOk(env, s, e.t, s.threads[e.t]);
        StepKeepsThreads(env, s, s', e.t);
      }
      assert BlobsOk(env.codec, env.contents, s'.db) && ActionsOk(env.codec, s.h.uploads, s'.db) by {
        if e.CleanCommit? {
          RemoveRowsKeeps(env.codec, env.contents, s.h.uploads, s.db, Elements(s.threads[e.t].ids));
        } else {
          MoreBlobsKeepActions(env.codec, s.h.uploads, s.db, s'.db);
        }
      }
    }
  }

  /** Every step is a step of the thread it names; a flush of access times belongs to none. */
  lemma NextIsStepOf(env: Env, s: State, e: Event)
    requires Safe(env, s) && !e.FlushAccessTime? && Next(env, s, e) != s
    ensures StepOf(s, Next(env, s, e), e.t)
  {
    assert e.t in s.threads ==> ThreadOk(env, s, e.t, s.threads[e.t]);
  }

  lemma NextKeepsSafe(env: Env, s: State, e: Event)
    requires Sound(env.codec, env.contents) && Safe(env, s)
    ensures Safe(env, Next(env, s, e))
  {
    PutKeepsSafe(env, s, e);
    GetKeepsSafe(env, s, e);
    if e.FlushAccessTime? {
      FlushKeepsSafe(env, s, e);
    } else {
      CleanKeepsSafe(env, s, e);
    }
  }

  lemma {:induction false} RunKeepsSafe(env: Env, s: State, events: seq<Event>)
    requires Sound(env.codec, env.contents) && Safe(env, s)
    ensures Safe(env, Run(env, s, events))
  {
    if events != [] {
      RunKeepsSafe(env, s, events[..|events| - 1]);
      NextKeepsSafe(env, Run(env, s, events[..|events| - 1]), events[|events| - 1]);
    }
  }

  /** In every interleaving: a GET that is answered with 200 carries the output ID and, once decoded,
      exactly the bytes of one and the same upload to its action; anything else is a miss or an error. */
  lemma EveryAnswerIsOneUpload(env: Env, events: seq<Event>, t: nat)
    requires Sound(env.codec, env.contents)
    ensures var s := Run(env, INIT, events);
            GetAt(s, t) && s.threads[t].get.Answered? && s.threads[t].get.response.Ok? ==>
              exists u :: u in s.h.uploads && u.actionId == s.threads[t].actionId
                && Faithful(env.codec, u, s.threads[t].acceptsLz4, s.threads[t].get.response)
  {
    RunKeepsSafe(env, INIT, events);
    var s := Run(env, INIT, events);
    if t in s.threads {
      assert ThreadOk(env, s, t, s.threads[t]);
    }
  }

  /** In every interleaving: no action row without its blob row, and no hash with two rows. */
  lemma TablesStayConsistent(env: Env, events: seq<Event>)
    requires Sound(env.codec, env.contents)
    ensures var db := Run(env, INIT, events).db;
            && MissingBlobRows(db) == {}
            && (forall i, j | i in db.blobs && j in db.blobs && db.blobs[i].sha256 == db.blobs[j].sha256 :: i == j)
  {
    RunKeepsSafe(env, INIT, events);
  }

  /** A BlobID never comes back for another blob: a step leaves its row alone or removes it for good. */
  lemma NextKeepsIds(env: Env, s: State, e: Event)
    requires Sound(env.codec, env.contents) && Safe(env, s)
    ensures var s' := Next(env, s, e);
            && s.db.nextBlobId <= s'.db.nextBlobId
            && (forall id | id in s'.db.blobs && id < s.db.nextBlobId ::
                  id in s.db.blobs && s'.db.blobs[id] == s.db.blobs[id])
  {
  }

  lemma {:induction false} RunKeepsIds(env: Env, s: State, events: seq<Event>)
    requires Sound(env.codec, env.contents) && Safe(env, s)
    ensures var s' := Run(env, s, events);
            && s.db.nextBlobId <= s'.db.nextBlobId
            && (forall id | id in s'.db.blobs && id < s.db.nextBlobId ::
                  id in s.db.blobs && s'.db.blobs[id] == s.db.blobs[id])
  {
    if events != [] {
      var before := events[..|events| - 1];
      RunKeepsIds(env, s, before);
      RunKeepsSafe(env, s, before);
      NextKeepsIds(env, Run(env, s, before), events[|events| - 1]);
    }
  }

  /** A candidate list may be as old as it likes: an ID taken from it names the very blob it named
      then, or no blob at all; and for no blob at all deleteBlobs removes no file that exists. */
  lemma StaleIdsAreHarmless(env: Env, before: seq<Event>, after: seq<Event>, id: nat)
    requires Sound(env.codec, env.contents)
    requires id in Run(env, INIT, before).db.blobs
    ensures var s := Run(env, INIT, before); var s' := Run(env, s, after);
            && (id in s'.db.blobs ==> s'.db.blobs[id] == s.db.blobs[id])
            && (id !in s'.db.blobs ==>
                  && Lz4(HashToRemove(s'.db.blobs, id)) !in s'.db.files
                  && Plain(HashToRemove(s'.db.blobs, id)) !in s'.db.files)
  {
    var s := Run(env, INIT, before);
    RunKeepsSafe(env, INIT, before);
    RunKeepsIds(env, s, after);
    RunKeepsSafe(env, s, after);
    NoFileHasZeroHash(env.codec, env.contents, Run(env, s, after).db.files);
  }
}

/** Serial runs: whole requests one after the other, successful or failing at a given point. */
module Serial {
  import opened Basics
  import opened Content
  import opened Store
  import Hex

  // ---- Whole requests on the tables and files ----

  /** The disk write and the upsert of a PUT, whether or not the action insert follows. */
  ghost function PutBlob(codec: Codec, db: Db, content: Bytes, newId: nat): Db {
    UpsertBlob(codec, WriteFile(codec, db, content), content, newId)
  }

  ghost function Put(codec: Codec, db: Db, u: Upload, newId: nat, now: int): Db {
    InsertAction(codec, PutBlob(codec, db, u.content, newId), u, UpsertedId(codec, db, u.content, newId), now)
  }

  function Get(codec: Codec, db: Db, actionId: string, acceptsLz4: bool): Response {
    match Query(db, actionId)
    case None => NotFound
    case Some(view) => Respond(codec, view, db.files, acceptsLz4)
  }

  /** The file removals of deleteBlobs in order: two for each ID. */
  function PathAt(blobs: map<nat, BlobRow>, ids: seq<nat>, step: nat): DiskPath
    requires step < 2 * |ids|
  {
    if step % 2 == 0 then Lz4(HashAt(blobs, ids, step / 2)) else Plain(HashAt(blobs, ids, step / 2))
  }

  function RemovedPaths(blobs: map<nat, BlobRow>, ids: seq<nat>, steps: nat): set<DiskPath>
    requires steps <= 2 * |ids|
  {
    set step: nat | step < steps :: PathAt(blobs, ids, step)
  }

  lemma RemovedOneMore(blobs: map<nat, BlobRow>, ids: seq<nat>, steps: nat)
    requires steps < 2 * |ids|
    ensures RemovedPaths(blobs, ids, steps + 1) == RemovedPaths(blobs, ids, steps) + {PathAt(blobs, ids, steps)}
  {
  }

  /** A clean that fails after the given number of removals: the files are gone, the rows stay. */
  function RolledBack(db: Db, ids: seq<nat>, steps: nat): Db {
    db.(files := db.files - RemovedPaths(db.blobs, ids, Min(steps, 2 * |ids|)))
  }

  function Delete(db: Db, ids: seq<nat>): Db {
    RemoveRows(RolledBack(db, ids, 2 * |ids|), Elements(ids))
  }

  datatype Op =
    | DoPut(u: Upload, skipped: nat, now: int)
    | PutWithoutBlob(u: Upload)                   // the blob insert fails
    | PutWithoutAction(u: Upload, skipped: nat)   // the action insert fails
    | Touch(actionId: string, time: int)
    | Clean(ids: seq<nat>)
    | FailedClean(ids: seq<nat>, steps: nat)

  predicate MayPut(contents: set<Bytes>, u: Upload) {
    u.content in contents && Hex.ValidServerId(u.actionId) && Hex.ValidServerId(u.outputId)
  }

  predicate WellFormed(contents: set<Bytes>, op: Op) {
    match op
    case DoPut(u, _, _) => MayPut(contents, u)
    case PutWithoutBlob(u) => MayPut(contents, u)
    case PutWithoutAction(u, _) => MayPut(contents, u)
    case _ => true
  }

  ghost function Next(codec: Codec, db: Db, op: Op): Db {
    match op
    case DoPut(u, skipped, now) => Put(codec, db, u, db.nextBlobId + skipped, now)
    case PutWithoutBlob(u) => WriteFile(codec, db, u.content)
    case PutWithoutAction(u, skipped) =>
      PutBlob(codec, db, u.content, db.nextBlobId + skipped)
    case Touch(a, time) => if a in db.actions then SetAccessTime(db, a, time) else db
    case Clean(ids) => Delete(db, ids)
    case FailedClean(ids, steps) => RolledBack(db, ids, steps)
  }

  ghost function Run(codec: Codec, db: Db, ops: seq<Op>): Db {
    if ops == [] then db else Next(codec, Run(codec, db, ops[..|ops| - 1]), ops[|ops| - 1])
  }

  // ---- The invariant: tables in order, and every row in its stored form ----

  ghost predicate Ok(codec: Codec, contents: set<Bytes>, db: Db) {
    BlobsOk(codec, contents, db) && FilesOk(codec, contents, db.files)
  }

  /** Row id stores content c in the form its size calls for, and the file, if it has one, is there. */
  predicate StoredAs(codec: Codec, db: Db, id: nat, c: Bytes) {
    && id in db.blobs
    && var row := db.blobs[id];
       && row.sha256 == codec.sha256(c)
       && row.uncompressedSize == |c|
       && (|c| <= 1024 ==> row.smallData == Some(c) && row.storedSize == |c|)
       && (|c| == 1025 ==> row.smallData == None && row.storedSize == 1025)
       && (|c| == 1025 ==> Plain(row.sha256) in db.files && db.files[Plain(row.sha256)] == c)
       && (|c| >= 1026 ==> row.smallData == None && row.storedSize == |codec.compress(c)|)
       && (|c| >= 1026 ==> Lz4(row.sha256) in db.files && db.files[Lz4(row.sha256)] == codec.compress(c))
  }

  /** The same in terms of the functions that compute the stored form. */
  predicate Stored(codec: Codec, db: Db, id: nat, c: Bytes) {
    && id in db.blobs
    && db.blobs[id] == RowOf(codec, c)
    && (OnDisk(c) ==> FileOf(codec, c) in db.files && db.files[FileOf(codec, c)] == FileBytes(codec, c))
  }

  lemma StoredAsMeansStored(codec: Codec, db: Db, id: nat, c: Bytes)
    ensures StoredAs(codec, db, id, c) <==> Stored(codec, db, id, c)
  {
  }

  lemma RolledBackKeepsOk(codec: Codec, contents: set<Bytes>, db: Db, ids: seq<nat>, steps: nat)
    requires Ok(codec, contents, db)
    ensures Ok(codec, contents, RolledBack(db, ids, steps))
  {
  }

  lemma PutBlobKeepsOk(codec: Codec, contents: set<Bytes>, db: Db, content: Bytes, newId: nat)
    requires Ok(codec, contents, db) && content in contents && newId >= db.nextBlobId
    ensures Ok(codec, contents, WriteFile(codec, db, content))
    ensures Ok(codec, contents, PutBlob(codec, db, content, newId))
  {
    var db1 := WriteFile(codec, db, content);
    assert Ok(codec, contents, db1) by { WriteFileKeeps(codec, contents, db, content); }
    UpsertBlobKeepsBlobs(codec, contents, db1, content, newId);
  }

  lemma DeleteKeepsOk(codec: Codec, contents: set<Bytes>, db: Db, ids: seq<nat>)
    requires Ok(codec, contents, db)
    ensures Ok(codec, contents, Delete(db, ids))
  {
    RolledBackKeepsOk(codec, contents, db, ids, 2 * |ids|);
  }

  /** An action insert, and any other step that only touches actions, changes nothing here. */
  lemma ActionsDoNotMatter(codec: Codec, contents: set<Bytes>, db: Db, db': Db)
    requires Ok(codec, contents, db)
    requires db'.blobs == db.blobs && db'.files == db.files && db'.nextBlobId == db.nextBlobId
    ensures Ok(codec, contents, db')
  {
  }

  lemma PutKeepsOk(codec: Codec, contents: set<Bytes>, db: Db, u: Upload, newId: nat, now: int)
    requires Ok(codec, contents, db) && u.content in contents && newId >= db.nextBlobId
    ensures Ok(codec, contents, Put(codec, db, u, newId, now))
  {
    PutBlobKeepsOk(codec, contents, db, u.content, newId);
    ActionsDoNotMatter(codec, contents, PutBlob(codec, db, u.content, newId), Put(codec, db, u, newId, now));
  }

  lemma DoPutKeepsOk(codec: Codec, contents: set<Bytes>, db: Db, op: Op)
    requires Ok(codec, contents, db) && WellFormed(contents, op) && op.DoPut?
    ensures Ok(codec, contents, Next(codec, db, op))
  {
    var db' := Put(codec, db, op.u, db.nextBlobId + op.skipped, op.now);
    assert Ok(codec, contents, db') by {
      PutKeepsOk(codec, contents, db, op.u, db.nextBlobId + op.skipped, op.now);
    }
    assert Next(codec, db, op) == db';
  }

  lemma TouchKeepsOk(codec: Codec, contents: set<Bytes>, db: Db, op: Op)
    requires Ok(codec, contents, db) && op.Touch?
    ensures Ok(codec, contents, Next(codec, db, op))
  {
    ActionsDoNotMatter(codec, contents, db, Next(codec, db, op));
  }

  lemma FailedPutKeepsOk(codec: Codec, contents: set<Bytes>, db: Db, op: Op)
    requires Ok(codec, contents, db) && WellFormed(contents, op) && (op.PutWithoutBlob? || op.PutWithoutAction?)
    ensures Ok(codec, contents, Next(codec, db, op))
  {
    if op.PutWithoutBlob? {
      PutBlobKeepsOk(codec, contents, db, op.u.content, db.nextBlobId);
    } else {
      PutBlobKeepsOk(codec, contents, db, op.u.content, db.nextBlobId + op.skipped);
    }
  }

  lemma CleanOpKeepsOk(codec: Codec, contents: set<Bytes>, db: Db, op: Op)
    requires Ok(codec, contents, db) && (op.Clean? || op.FailedClean?)
    ensures Ok(codec, contents, Next(codec, db, op))
  {
    if op.Clean? {
      DeleteKeepsOk(codec, contents, db, op.ids);
    } else {
      RolledBackKeepsOk(codec, contents, db, op.ids, op.steps);
    }
  }

  lemma NextKeepsOk(codec: Codec, contents: set<Bytes>, db: Db, op: Op)
    requires Ok(codec, contents, db) && WellFormed(contents, op)
    ensures Ok(codec, contents, Next(codec, db, op))
  {
    match op
    case DoPut(_, _, _) => DoPutKeepsOk(codec, contents, db, op);
    case PutWithoutBlob(_) => FailedPutKeepsOk(codec, contents, db, op);
    case PutWithoutAction(_, _) => FailedPutKeepsOk(codec, contents, db, op);
    case Touch(_, _) => TouchKeepsOk(codec, contents, db, op);
    case Clean(_) => CleanOpKeepsOk(codec, contents, db, op);
    case FailedClean(_, _) => CleanOpKeepsOk(codec, contents, db, op);
  }

  // ---- What one request does to the row and the file of a content ----

  predicate HasRow(codec: Codec, db: Db, id: nat, c: Bytes) {
    id in db.blobs && db.blobs[id] == RowOf(codec, c)
  }

  lemma StoredNeedsItsFile(codec: Codec, contents: set<Bytes>, db: Db, id: nat, c: Bytes)
    requires Sound(codec, contents) && FilesOk(codec, contents, db.files) && c in contents && HasRow(codec, db, id, c)
    ensures Stored(codec, db, id, c) <==> !OnDisk(c) || FileOf(codec, c) in db.files
  {
    if OnDisk(c) && FileOf(codec, c) in db.files {
      var d :| d in contents && OnDisk(d) && FileOf(codec, c) == FileOf(codec, d)
               && db.files[FileOf(codec, c)] == FileBytes(codec, d);
      assert codec.sha256(c) == codec.sha256(d);
    }
  }

  /** Whether the first steps of the file removals for a list include the file of content c, whose row
      is id: the lz4 file goes first, then the plain one. */
  predicate Reaches(ids: seq<nat>, steps: nat, id: nat, c: Bytes) {
    exists i: nat :: i < |ids| && ids[i] == id && StepFor(i, c) < steps
  }

  lemma FirstOf(ids: seq<nat>, i: nat) returns (first: nat)
    requires i < |ids|
    ensures first <= i && ids[first] == ids[i] && ids[i] !in ids[..first]
    decreases i
  {
    first := i;
    if ids[i] in ids[..i] {
      var k :| 0 <= k < i && ids[k] == ids[i];
      first := FirstOf(ids, k);
    }
  }

  lemma HashesOf(codec: Codec, contents: set<Bytes>, db: Db, ids: seq<nat>, id: nat, c: Bytes)
    requires Sound(codec, contents) && BlobsOk(codec, contents, db) && c in contents && HasRow(codec, db, id, c)
    ensures forall k: nat | k < |ids| ::
              HashAt(db.blobs, ids, k) == codec.sha256(c) <==> ids[k] == id && id !in ids[..k]
  {
    assert codec.sha256(c) != ZeroHash();
  }

  /** Which step of the removals for entry i of the list may remove the file of c. */
  function StepFor(i: nat, c: Bytes): nat {
    2 * i + if IsCompressed(c) then 0 else 1
  }

  lemma PathIsFile(codec: Codec, blobs: map<nat, BlobRow>, ids: seq<nat>, step: nat, c: Bytes)
    requires step < 2 * |ids|
    ensures PathAt(blobs, ids, step) == FileOf(codec, c) <==>
              HashAt(blobs, ids, step / 2) == codec.sha256(c) && step == StepFor(step / 2, c)
  {
  }

  lemma HitsAreReached(codec: Codec, contents: set<Bytes>, db: Db, ids: seq<nat>, step: nat, id: nat, c: Bytes)
    requires Sound(codec, contents) && BlobsOk(codec, contents, db) && c in contents && HasRow(codec, db, id, c)
    requires step < 2 * |ids| && PathAt(db.blobs, ids, step) == FileOf(codec, c)
    ensures ids[step / 2] == id && step == StepFor(step / 2, c)
  {
    HashesOf(codec, contents, db, ids, id, c);
    PathIsFile(codec, db.blobs, ids, step, c);
  }

  lemma ReachedIsHit(codec: Codec, contents: set<Bytes>, db: Db, ids: seq<nat>, i: nat, id: nat, c: Bytes)
    returns (step: nat)
    requires Sound(codec, contents) && BlobsOk(codec, contents, db) && c in contents && HasRow(codec, db, id, c)
    requires i < |ids| && ids[i] == id
    ensures step < 2 * |ids| && step <= StepFor(i, c) && PathAt(db.blobs, ids, step) == FileOf(codec, c)
  {
    HashesOf(codec, contents, db, ids, id, c);
    var first := FirstOf(ids, i);
    step := StepFor(first, c);
    assert step / 2 == first && HashAt(db.blobs, ids, first) == codec.sha256(c);
    PathIsFile(codec, db.blobs, ids, step, c);
  }

  /** The removals hit the file of c exactly when they reach its row's ID in the list: other IDs, IDs
      that are gone and repetitions spare it. */
  lemma RemovalsHitExactly(codec: Codec, contents: set<Bytes>, db: Db, ids: seq<nat>, steps: nat, id: nat, c: Bytes)
    requires Sound(codec, contents) && BlobsOk(codec, contents, db) && c in contents && HasRow(codec, db, id, c)
    ensures FileOf(codec, c) in RemovedPaths(db.blobs, ids, Min(steps, 2 * |ids|)) <==> Reaches(ids, steps, id, c)
  {
    if FileOf(codec, c) in RemovedPaths(db.blobs, ids, Min(steps, 2 * |ids|)) {
      var step: nat :| step < Min(steps, 2 * |ids|) && PathAt(db.blobs, ids, step) == FileOf(codec, c);
      HitsAreReached(codec, contents, db, ids, step, id, c);
    }
    if i: nat :| i < |ids| && ids[i] == id && StepFor(i, c) < steps {
      var step := ReachedIsHit(codec, contents, db, ids, i, id, c);
    }
  }

  /** A request that writes the file of c, even if it fails at an insert after that. */
  predicate Writes(op: Op, c: Bytes) {
    (op.DoPut? || op.PutWithoutBlob? || op.PutWithoutAction?) && op.u.content == c
  }

  /** A clean that rolls back, but only after it has removed the file of c. */
  predicate Strands(op: Op, id: nat, c: Bytes) {
    op.FailedClean? && Reaches(op.ids, op.steps, id, c)
  }

  predicate Evicts(op: Op, id: nat) {
    op.Clean? && id in op.ids
  }

  lemma PutsKeepFile(codec: Codec, contents: set<Bytes>, db: Db, content: Bytes, c: Bytes)
    requires Sound(codec, contents) && c in contents && content in contents && OnDisk(c)
    ensures FileOf(codec, c) in WriteFile(codec, db, content).files <==> content == c || FileOf(codec, c) in db.files
  {
  }

  lemma CleansAndFile(codec: Codec, contents: set<Bytes>, db: Db, op: Op, id: nat, c: Bytes)
    requires Sound(codec, contents) && BlobsOk(codec, contents, db) && (op.Clean? || op.FailedClean?)
    requires c in contents && HasRow(codec, db, id, c) && !Evicts(op, id)
    ensures FileOf(codec, c) in Next(codec, db, op).files <==> FileOf(codec, c) in db.files && !Strands(op, id, c)
  {
    var steps := if op.Clean? then 2 * |op.ids| else op.steps;
    RemovalsHitExactly(codec, contents, db, op.ids, steps, id, c);
    assert Next(codec, db, op).files == RolledBack(db, op.ids, steps).files;
  }

  lemma PutsAndFiles(codec: Codec, db: Db, op: Op)
    requires op.DoPut? || op.PutWithoutBlob? || op.PutWithoutAction?
    ensures Next(codec, db, op).files == WriteFile(codec, db, op.u.content).files
  {
  }

  /** What one request means for the file of a row that it does not evict. */
  lemma NextFile(codec: Codec, contents: set<Bytes>, db: Db, op: Op, id: nat, c: Bytes)
    requires Sound(codec, contents) && Ok(codec, contents, db) && WellFormed(contents, op)
    requires c in contents && OnDisk(c) && HasRow(codec, db, id, c) && !Evicts(op, id)
    ensures FileOf(codec, c) in Next(codec, db, op).files <==>
              Writes(op, c) || (FileOf(codec, c) in db.files && !Strands(op, id, c))
  {
    if op.Clean? || op.FailedClean? {
      CleansAndFile(codec, contents, db, op, id, c);
    } else if !op.Touch? {
      PutsKeepFile(codec, contents, db, op.u.content, c);
      PutsAndFiles(codec, db, op);
    }
  }

  /** A row stays as it is until it is evicted. */
  lemma NextRow(codec: Codec, contents: set<Bytes>, db: Db, op: Op, id: nat)
    requires Ok(codec, contents, db) && id in db.blobs
    ensures var db' := Next(codec, db, op);
            if Evicts(op, id) then id !in db'.blobs else id in db'.blobs && db'.blobs[id] == db.blobs[id]
  {
  }

  lemma OnlyPutsInsert(codec: Codec, db: Db, op: Op, id: nat)
    requires id !in db.blobs && id in Next(codec, db, op).blobs
    ensures op.DoPut? || op.PutWithoutAction?
    ensures id == db.nextBlobId + op.skipped && !HasBlob(db, codec.sha256(op.u.content))
  {
  }

  /** The only way to a new row is a PUT of its content, which writes the file as well. */
  lemma NewRow(codec: Codec, contents: set<Bytes>, db: Db, op: Op, id: nat)
    requires WellFormed(contents, op) && id !in db.blobs && id in Next(codec, db, op).blobs
    ensures op.DoPut? || op.PutWithoutAction?
    ensures op.u.content in contents && HasRow(codec, Next(codec, db, op), id, op.u.content)
    ensures OnDisk(op.u.content) ==> FileOf(codec, op.u.content) in Next(codec, db, op).files
  {
    OnlyPutsInsert(codec, db, op, id);
  }

  // ---- Serial runs ----

  lemma {:induction false} RunKeepsOk(codec: Codec, contents: set<Bytes>, db: Db, ops: seq<Op>)
    requires Sound(codec, contents) && Ok(codec, contents, db) && forall op | op in ops :: WellFormed(contents, op)
    ensures Ok(codec, contents, Run(codec, db, ops))
  {
    if ops != [] {
      RunKeepsOk(codec, contents, db, ops[..|ops| - 1]);
      NextKeepsOk(codec, contents, Run(codec, db, ops[..|ops| - 1]), ops[|ops| - 1]);
    }
  }

  /** Whether the file of c, whose row is id, has been lost: some clean rolled back after removing it,
      and no PUT of the same content has come since. */
  predicate Lost(ops: seq<Op>, id: nat, c: Bytes) {
    if ops == [] then false
    else !Writes(ops[|ops| - 1], c) && (Strands(ops[|ops| - 1], id, c) || Lost(ops[..|ops| - 1], id, c))
  }

  /** The row, and the file exactly unless it is lost. */
  ghost predicate RowAndFile(codec: Codec, db: Db, ops: seq<Op>, id: nat, c: Bytes) {
    && HasRow(codec, db, id, c)
    && (OnDisk(c) ==> (FileOf(codec, c) in db.files <==> !Lost(ops, id, c)))
  }

  lemma NextKeepsRowAndFile(codec: Codec, contents: set<Bytes>, db: Db, ops: seq<Op>, id: nat, c: Bytes)
    requires Sound(codec, contents) && Ok(codec, contents, db) && c in contents && ops != []
    requires var op := ops[|ops| - 1]; WellFormed(contents, op) && !Evicts(op, id)
    requires RowAndFile(codec, db, ops[..|ops| - 1], id, c)
    ensures RowAndFile(codec, Next(codec, db, ops[|ops| - 1]), ops, id, c)
  {
    NextRow(codec, contents, db, ops[|ops| - 1], id);
    if OnDisk(c) {
      NextFile(codec, contents, db, ops[|ops| - 1], id, c);
    }
  }

  lemma {:induction false} RunFromEmpty(codec: Codec, contents: set<Bytes>, ops: seq<Op>, id: nat) returns (c: Bytes)
    requires Sound(codec, contents) && forall op | op in ops :: WellFormed(contents, op)
    requires id in Run(codec, EMPTY_DB, ops).blobs
    ensures c in contents && RowAndFile(codec, Run(codec, EMPTY_DB, ops), ops, id, c)
  {
    var before, op := ops[..|ops| - 1], ops[|ops| - 1];
    var db := Run(codec, EMPTY_DB, before);
    RunKeepsOk(codec, contents, EMPTY_DB, before);
    if id in db.blobs {
      c := RunFromEmpty(codec, contents, before, id);
      NextRow(codec, contents, db, op, id);
      NextKeepsRowAndFile(codec, contents, db, ops, id, c);
    } else {
      c := op.u.content;
      NewRow(codec, contents, db, op, id);
    }
  }

  /** After any serial run, every blob row has the stored form of its content, exactly unless that has a
      file and the file is lost. */
  lemma RowsAgreeWithStoredForm(codec: Codec, contents: set<Bytes>, ops: seq<Op>, id: nat)
    requires Sound(codec, contents) && forall op | op in ops :: WellFormed(contents, op)
    requires id in Run(codec, EMPTY_DB, ops).blobs
    ensures var db := Run(codec, EMPTY_DB, ops);
            exists c :: c in contents && HasRow(codec, db, id, c)
              && (StoredAs(codec, db, id, c) <==> !(OnDisk(c) && Lost(ops, id, c)))
  {
    var db := Run(codec, EMPTY_DB, ops);
    var c := RunFromEmpty(codec, contents, ops, id);
    RunKeepsOk(codec, contents, EMPTY_DB, ops);
    StoredNeedsItsFile(codec, contents, db, id, c);
    StoredAsMeansStored(codec, db, id, c);
  }

  // ---- Round trip ----

  /** The action row that upload u made, with its blob. */
  predicate HasAction(codec: Codec, db: Db, u: Upload, id: nat) {
    && u.actionId in db.actions
    && db.actions[u.actionId].blobId == id
    && db.actions[u.actionId].altOutputId == AltOutputId(codec, u)
  }

  /** Later PUTs to the action change nothing, and neither does any clean that does not evict its blob. */
  lemma NextKeepsAction(codec: Codec, db: Db, op: Op, u: Upload, id: nat)
    requires HasAction(codec, db, u, id) && !Evicts(op, id)
    ensures HasAction(codec, Next(codec, db, op), u, id)
  {
  }

  lemma {:induction false} RunKeepsAnswer(codec: Codec, contents: set<Bytes>, db: Db, ops: seq<Op>, u: Upload, id: nat)
    requires Sound(codec, contents) && Ok(codec, contents, db) && u.content in contents
    requires forall op | op in ops :: WellFormed(contents, op) && !Evicts(op, id)
    requires HasAction(codec, db, u, id) && Stored(codec, db, id, u.content)
    ensures HasAction(codec, Run(codec, db, ops), u, id)
    ensures RowAndFile(codec, Run(codec, db, ops), ops, id, u.content)
  {
    if ops != [] {
      var before, op := ops[..|ops| - 1], ops[|ops| - 1];
      var db1 := Run(codec, db, before);
      RunKeepsAnswer(codec, contents, db, before, u, id);
      RunKeepsOk(codec, contents, db, before);
      NextKeepsAction(codec, db1, op, u, id);
      NextKeepsRowAndFile(codec, contents, db1, ops, id, u.content);
    }
  }

  /** GET answers a stored upload, whether or not the client accepts lz4; it misses exactly for content
      whose file is gone or that lz4 leaves at the same length. */
  lemma GetAnswersRow(codec: Codec, contents: set<Bytes>, db: Db, u: Upload, id: nat, acceptsLz4: bool)
    requires Sound(codec, contents) && Ok(codec, contents, db) && u.content in contents && u.outputId != ""
    requires HasAction(codec, db, u, id) && HasRow(codec, db, id, u.content)
    ensures var r := Get(codec, db, u.actionId, acceptsLz4);
            if OnDisk(u.content) && (FileOf(codec, u.content) !in db.files || SameLength(codec, u.content))
            then r == NotFound else Faithful(codec, u, acceptsLz4, r)
  {
    RespondIsFaithful(codec, contents, u, Query(db, u.actionId).value, db.files, acceptsLz4);
  }

  /** A PUT leaves its content in stored form, even if an earlier clean had removed the file. */
  lemma PutStores(codec: Codec, contents: set<Bytes>, db: Db, content: Bytes, newId: nat)
    requires Sound(codec, contents) && Ok(codec, contents, db) && content in contents && newId >= db.nextBlobId
    ensures Stored(codec, PutBlob(codec, db, content, newId), UpsertedId(codec, db, content, newId), content)
  {
    UpsertBlobRow(codec, contents, WriteFile(codec, db, content), content, newId);
  }

  lemma SameRowsStoreTheSame(codec: Codec, db: Db, db': Db, id: nat, c: Bytes)
    requires Stored(codec, db, id, c) && db'.blobs == db.blobs && db'.files == db.files
    ensures Stored(codec, db', id, c)
  {
  }

  lemma PutMakesAction(codec: Codec, contents: set<Bytes>, db: Db, u: Upload, newId: nat, now: int)
    requires Sound(codec, contents) && Ok(codec, contents, db) && u.content in contents && newId >= db.nextBlobId
    requires u.actionId !in db.actions
    ensures var id := UpsertedId(codec, db, u.content, newId); var db' := Put(codec, db, u, newId, now);
            HasAction(codec, db', u, id) && Stored(codec, db', id, u.content)
  {
    PutStores(codec, contents, db, u.content, newId);
    SameRowsStoreTheSame(codec, PutBlob(codec, db, u.content, newId), Put(codec, db, u, newId, now),
                         UpsertedId(codec, db, u.content, newId), u.content);
  }

  /** The uploads that GET misses although nothing has evicted them: those stored under a name they are
      not looked for, and those whose file is lost. */
  predicate Missed(codec: Codec, u: Upload, id: nat, after: seq<Op>) {
    SameLength(codec, u.content) || (OnDisk(u.content) && Lost(after, id, u.content))
  }

  lemma GetAfter(codec: Codec, contents: set<Bytes>, db: Db, ops: seq<Op>, u: Upload, id: nat, acceptsLz4: bool)
    requires Sound(codec, contents) && Ok(codec, contents, db) && u.content in contents && u.outputId != ""
    requires forall op | op in ops :: WellFormed(contents, op) && !Evicts(op, id)
    requires HasAction(codec, db, u, id) && Stored(codec, db, id, u.content)
    ensures var r := Get(codec, Run(codec, db, ops), u.actionId, acceptsLz4);
            if Missed(codec, u, id, ops) then r == NotFound else Faithful(codec, u, acceptsLz4, r)
  {
    RunKeepsAnswer(codec, contents, db, ops, u, id);
    RunKeepsOk(codec, contents, db, ops);
    GetAnswersRow(codec, contents, Run(codec, db, ops), u, id, acceptsLz4);
  }

  lemma GetAfterPut(codec: Codec, contents: set<Bytes>, db: Db, u: Upload, newId: nat, now: int, ops: seq<Op>,
                    acceptsLz4: bool)
    requires Sound(codec, contents) && Ok(codec, contents, db) && MayPut(contents, u)
    requires newId >= db.nextBlobId && u.actionId !in db.actions
    requires forall op | op in ops :: WellFormed(contents, op) && !Evicts(op, UpsertedId(codec, db, u.content, newId))
    ensures var r := Get(codec, Run(codec, Put(codec, db, u, newId, now), ops), u.actionId, acceptsLz4);
            if Missed(codec, u, UpsertedId(codec, db, u.content, newId), ops) then r == NotFound
            else Faithful(codec, u, acceptsLz4, r)
  {
    PutKeepsOk(codec, contents, db, u, newId, now);
    PutMakesAction(codec, contents, db, u, newId, now);
    GetAfter(codec, contents, Put(codec, db, u, newId, now), ops, u, UpsertedId(codec, db, u.content, newId),
             acceptsLz4);
  }

  /** PUT to a fresh action, after any serial run; then GET, after any further serial run in which no
      clean evicts the blob, later PUTs to the same action and rolled-back cleans included: the same
      output ID and bytes come back, with or without lz4, except exactly when compression keeps the
      length or the file is lost. */
  lemma PutThenGet(codec: Codec, contents: set<Bytes>, before: seq<Op>, u: Upload, skipped: nat, now: int,
                   after: seq<Op>, acceptsLz4: bool)
    requires Sound(codec, contents) && MayPut(contents, u) && forall op | op in before :: WellFormed(contents, op)
    requires u.actionId !in Run(codec, EMPTY_DB, before).actions
    requires var db := Run(codec, EMPTY_DB, before);
             forall op | op in after :: WellFormed(contents, op)
               && !Evicts(op, UpsertedId(codec, db, u.content, db.nextBlobId + skipped))
    ensures var db := Run(codec, EMPTY_DB, before);
            var newId := db.nextBlobId + skipped;
            var id := UpsertedId(codec, db, u.content, newId);
            var r := Get(codec, Run(codec, Put(codec, db, u, newId, now), after), u.actionId, acceptsLz4);
            if Missed(codec, u, id, after) then r == NotFound else Faithful(codec, u, acceptsLz4, r)
  {
    var db := Run(codec, EMPTY_DB, before);
    RunKeepsOk(codec, contents, EMPTY_DB, before);
    GetAfterPut(codec, contents, db, u, db.nextBlobId + skipped, now, after, acceptsLz4);
  }

  /** The shortest run that loses a file, for every upload that has one: a PUT, then a clean of its blob
      that rolls back after both removals. The row is left without its stored form, GET answers 404, and
      another PUT of the content brings the answer back. */
  lemma RolledBackCleanLosesFile(codec: Codec, contents: set<Bytes>, u: Upload, acceptsLz4: bool)
    requires Sound(codec, contents) && MayPut(contents, u) && OnDisk(u.content) && !SameLength(codec, u.content)
    ensures var put, clean := DoPut(u, 0, 0), FailedClean([1], 2);
            var db := Run(codec, EMPTY_DB, [put] + [clean]);
            && HasRow(codec, db, 1, u.content) && !StoredAs(codec, db, 1, u.content)
            && Get(codec, db, u.actionId, acceptsLz4) == NotFound
            && Faithful(codec, u, acceptsLz4,
                        Get(codec, Run(codec, EMPTY_DB, [put] + [clean] + [put]), u.actionId, acceptsLz4))
  {
    var put, clean := DoPut(u, 0, 0), FailedClean([1], 2);
    ThreeRuns(codec, u);
    FirstRow(codec, u);
    LostAndRestored(u);
    PutThenGet(codec, contents, [], u, 0, 0, [clean], acceptsLz4);
    PutThenGet(codec, contents, [], u, 0, 0, [clean] + [put], acceptsLz4);
    NotStoredAnyMore(codec, contents, u);
  }

  /** The runs of the example, step by step, and seen from after the PUT. */
  lemma ThreeRuns(codec: Codec, u: Upload)
    ensures var put, clean := DoPut(u, 0, 0), FailedClean([1], 2);
            var db := Put(codec, EMPTY_DB, u, 1, 0);
            && Run(codec, EMPTY_DB, [put] + [clean]) == Run(codec, db, [clean]) == RolledBack(db, [1], 2)
            && Run(codec, EMPTY_DB, [put] + [clean] + [put]) == Run(codec, db, [clean] + [put])
  {
    var put, clean := DoPut(u, 0, 0), FailedClean([1], 2);
    RunOneMore(codec, EMPTY_DB, [], put);
    RunOneMore(codec, EMPTY_DB, [put], clean);
    RunOneMore(codec, EMPTY_DB, [put] + [clean], put);
    assert [] + [put] == [put] && [] + [clean] == [clean];
    var db := Run(codec, EMPTY_DB, [put]);
    RunOneMore(codec, db, [], clean);
    RunOneMore(codec, db, [clean], put);
  }

  lemma RunOneMore(codec: Codec, db: Db, ops: seq<Op>, op: Op)
    ensures Run(codec, db, ops + [op]) == Next(codec, Run(codec, db, ops), op)
  {
    assert (ops + [op])[..|ops|] == ops;
  }

  lemma FirstRow(codec: Codec, u: Upload)
    ensures UpsertedId(codec, EMPTY_DB, u.content, 1) == 1 && HasRow(codec, Put(codec, EMPTY_DB, u, 1, 0), 1, u.content)
  {
  }

  lemma NotStoredAnyMore(codec: Codec, contents: set<Bytes>, u: Upload)
    requires Sound(codec, contents) && MayPut(contents, u) && OnDisk(u.content)
    ensures var db := RolledBack(Put(codec, EMPTY_DB, u, 1, 0), [1], 2);
            HasRow(codec, db, 1, u.content) && !StoredAs(codec, db, 1, u.content)
  {
    var db := Put(codec, EMPTY_DB, u, 1, 0);
    FirstRow(codec, u);
    NextKeepsOk(codec, contents, EMPTY_DB, DoPut(u, 0, 0));
    assert Reaches([1], 2, 1, u.content) by { assert [1][0] == 1; }
    RemovalsHitExactly(codec, contents, db, [1], 2, 1, u.content);
    StoredAsMeansStored(codec, RolledBack(db, [1], 2), 1, u.content);
  }

  lemma LostAndRestored(u: Upload)
    ensures var put, clean := DoPut(u, 0, 0), FailedClean([1], 2);
            Lost([clean], 1, u.content) && !Lost([clean] + [put], 1, u.content)
  {
    assert [1][0] == 1 && StepFor(0, u.content) < 2;
  }
}

/** The gocached server: its fields, and the methods that handle requests and clean the store. */
module Gocached {
  import opened Basics
  import opened Clock
  import opened Content
  import opened Store
  import opened Usage
  import opened Cleaning
  import opened Durations
  import opened Eviction
  import AccessTimes
  import Hex
  import Serial

  /** What reading a request body yields: bytes, and then the end or a read error. */
  datatype Body = Body(data: Bytes, fails: bool)

  /** Where a PUT fails on the server's side, if it does. */
  datatype PutFault = NoFault | DiskFault | BlobInsertFault | ActionInsertFault

  class Server {
    const codec: Codec
    const maxAge: int     // nanoseconds; 0 means no limit
    const maxSize: int    // bytes; 0 means no limit
    ghost const contents: set<Bytes>

    var clock: int        // nanoseconds

    // The database and the disk.
    var blobs: map<nat, BlobRow>
    var actions: map<string, ActionRow>
    var nextBlobId: nat
    var files: map<DiskPath, Bytes>

    // Pending access times. timers is the runtime's set of timers yet to fire.
    var accessDirty: map<string, int>
    var accessFlushTimer: Option<nat>
    var timers: map<nat, int>
    var nextTimer: nat

    // Metrics.
    var evictedBlobs: nat
    var evictedBytes: nat

    ghost function Tables(): Db
      reads this
    {
      Db(blobs, actions, files, nextBlobId)
    }

    ghost function Pending(): AccessTimes.Batch
      reads this
    {
      AccessTimes.Batch(accessDirty, accessFlushTimer, timers, nextTimer)
    }

    /** The tables with the pending access times written, unless that fails. */
    ghost function Flushed(fails: bool): Db
      reads this
    {
      if fails then Tables() else Tables().(actions := AccessTimes.FlushActions(actions, accessDirty))
    }

    ghost predicate Valid()
      reads this
    {
      && Sound(codec, contents)
      && Serial.Ok(codec, contents, Tables())
      && (accessFlushTimer.Some? ==> accessFlushTimer.value in timers)
    }

    constructor (codec: Codec, maxAge: int, maxSize: int, now: int, ghost contents: set<Bytes>)
      requires Sound(codec, contents)
      ensures Valid() && Tables() == EMPTY_DB && Pending() == AccessTimes.EMPTY_BATCH
      ensures this.codec == codec && this.contents == contents && this.maxAge == maxAge && this.maxSize == maxSize
      ensures evictedBlobs == 0 && evictedBytes == 0 && clock == now
    {
      this.codec, this.maxAge, this.maxSize, this.contents, clock := codec, maxAge, maxSize, contents, now;
      blobs, actions, nextBlobId, files := map[], map[], 1, map[];
      accessDirty, accessFlushTimer, timers, nextTimer := map[], None, map[], 0;
      evictedBlobs, evictedBytes := 0, 0;
    }

    // ---- PUT ----

    /** The upload to a temporary file, compressed from LZ4_COMPRESS_THRESHOLD on, and its rename to
        the path that the hash of the bytes names. */
    method WriteDiskBlob(size: nat, body: Body, fault: bool) returns (diskSize: Option<nat>)
      requires size > SMALL_OBJECT_SIZE
      modifies this`files
      ensures diskSize.Some? <==> !fault && !body.fails && |body.data| == size
      ensures diskSize.None? ==> files == old(files)
      ensures diskSize.Some? ==>
                && files == old(files)[FileOf(codec, body.data) := FileBytes(codec, body.data)]
                && diskSize.value == |FileBytes(codec, body.data)|
    {
      var compress := size >= LZ4_COMPRESS_THRESHOLD;
      // The copy stops after size+1 bytes; before that, it sees the error of a failing body.
      var n := Min(|body.data|, size + 1);
      if fault || (body.fails && n < size + 1) || n != size {
        return None;
      }
      var temp := if compress then codec.compress(body.data) else body.data;
      var hash := codec.sha256(body.data);
      var target := if compress then Lz4(hash) else Plain(hash);
      files := files[target := temp];
      return Some(|temp|);
    }

    /** INSERT INTO Blobs ... ON CONFLICT(SHA256) DO UPDATE ... RETURNING BlobID */
    method UpsertBlobRow(ghost content: Bytes, row: BlobRow, newId: nat) returns (blobId: nat)
      requires Valid() && content in contents && newId >= nextBlobId && row == RowOf(codec, content)
      modifies this`blobs, this`nextBlobId
      ensures Valid()
      ensures Tables() == UpsertBlob(codec, old(Tables()), content, newId)
      ensures blobId == UpsertedId(codec, old(Tables()), content, newId)
    {
      if id :| id in blobs && blobs[id].sha256 == row.sha256 {
        blobId := id;
      } else {
        blobId := newId;
        blobs := blobs[newId := row];
        nextBlobId := newId + 1;
      }
      UpsertBlobKeepsBlobs(codec, contents, old(Tables()), content, newId);
      assert Tables() == UpsertBlob(codec, old(Tables()), content, newId);
    }

    /** The two inserts of a PUT, made while it holds the write lock; false if one of them fails. */
    method InsertRows(u: Upload, row: BlobRow, fault: PutFault, newId: nat) returns (ok: bool)
      requires Valid() && u.content in contents && newId >= nextBlobId && row == RowOf(codec, u.content)
      modifies this`blobs, this`actions, this`nextBlobId
      ensures Valid()
      ensures ok <==> fault != BlobInsertFault && fault != ActionInsertFault
      ensures ok ==> Tables() == InsertAction(codec, UpsertBlob(codec, old(Tables()), u.content, newId), u,
                                              UpsertedId(codec, old(Tables()), u.content, newId), Unix(clock))
      ensures fault == BlobInsertFault ==> Tables() == old(Tables())
      ensures fault == ActionInsertFault ==> Tables() == UpsertBlob(codec, old(Tables()), u.content, newId)
    {
      if fault == BlobInsertFault {
        return false;
      }
      var blobId := UpsertBlobRow(u.content, row, newId);
      if fault == ActionInsertFault {
        return false;
      }
      // INSERT OR IGNORE INTO Actions
      var altObjectId := if row.sha256 != u.outputId then u.outputId else "";
      if u.actionId !in actions {
        actions := actions[u.actionId := ActionRow(blobId, altObjectId, Unix(clock), Unix(clock))];
      }
      return true;
    }

    /** PUT /<actionID>/<outputID>. newId is the BlobID SQLite gives to a new row. */
    method HandlePut(actionId: string, outputId: string, contentLength: Option<nat>, body: Body,
                     fault: PutFault, newId: nat) returns (status: int)
      requires Valid() && body.data in contents && newId >= nextBlobId
      modifies this`blobs, this`actions, this`nextBlobId, this`files
      ensures Valid()
      ensures status == 204 || status == 400 || status == 500
      ensures status == 400 <==>
                !Hex.Printed(actionId, 2, 500) || !Hex.Printed(outputId, 2, 500) || contentLength.None?
      ensures status == 400 ==> Tables() == old(Tables())
      ensures status == 204 ==>
                && contentLength == Some(|body.data|) && !body.fails
                && Tables() == Serial.Put(codec, old(Tables()), Upload(actionId, outputId, body.data), newId,
                                          Unix(clock))
      ensures var whole := contentLength == Some(|body.data|) && !body.fails;
              && (status == 500 <==>
                    && Hex.Printed(actionId, 2, 500) && Hex.Printed(outputId, 2, 500) && contentLength.Some?
                    && (!whole || fault == BlobInsertFault || fault == ActionInsertFault
                        || (fault == DiskFault && OnDisk(body.data))))
              && (status == 500 ==>
                    Tables() == if !whole || fault == DiskFault then old(Tables())
                                else if fault == BlobInsertFault then WriteFile(codec, old(Tables()), body.data)
                                else Serial.PutBlob(codec, old(Tables()), body.data, newId))
    {
      Hex.ServerIdsArePrinted(actionId);
      Hex.ServerIdsArePrinted(outputId);
      if !Hex.ValidServerId(actionId) || !Hex.ValidServerId(outputId) || contentLength.None? {
        return 400;
      }
      var storedSize, uncompressedSize := contentLength.value, contentLength.value;
      var smallData := None;
      if contentLength.value <= SMALL_OBJECT_SIZE {
        if body.fails || |body.data| != contentLength.value {
          return 500;
        }
        smallData := Some(body.data);
      } else {
        var diskSize := WriteDiskBlob(contentLength.value, body, fault == DiskFault);
        if diskSize.None? {
          return 500;
        }
        storedSize := diskSize.value;
      }
      WriteFileKeeps(codec, contents, old(Tables()), body.data);
      assert Tables() == WriteFile(codec, old(Tables()), body.data);
      var row := BlobRow(codec.sha256(body.data), storedSize, uncompressedSize, smallData);
      var ok := InsertRows(Upload(actionId, outputId, body.data), row, fault, newId);
      return if ok then 204 else 500;
    }

    // ---- GET ----

    /** GET /action/<actionID>: one query, an access time bump, and the response. */
    method HandleGetAction(actionId: string, wantObject: bool, acceptsLz4: bool, queryFails: bool) returns (r: Response)
      requires Valid()
      modifies this`accessDirty, this`accessFlushTimer, this`timers, this`nextTimer
      ensures Valid()
      ensures if !Hex.Printed(actionId, 2, 500) || !wantObject then r == Failed(400)
              else if queryFails then r == Failed(500)
              else r == Serial.Get(codec, Tables(), actionId, acceptsLz4)
      ensures Pending() ==
                if Hex.Printed(actionId, 2, 500) && wantObject && !queryFails
                   && actionId in actions && actions[actionId].blobId in blobs
                then AccessTimes.MaybeBump(old(Pending()), actionId, actions[actionId].accessTime, clock)
                else old(Pending())
    {
      Hex.ServerIdsArePrinted(actionId);
      if !Hex.ValidServerId(actionId) || !wantObject {
        return Failed(400);
      }
      if queryFails {
        return Failed(500);
      }
      if actionId !in actions || actions[actionId].blobId !in blobs {
        return NotFound;
      }
      var action := actions[actionId];
      var row := blobs[action.blobId];
      var _ := MaybeBumpAccessTime(actionId, action.accessTime);

      var outputId := if action.altOutputId != "" then action.altOutputId else row.sha256;
      var isLz4 := row.storedSize != row.uncompressedSize;
      var contentLength, encoded, header := row.storedSize, false, None;
      if row.smallData.Some? || !isLz4 {
      } else if acceptsLz4 {
        encoded, header := true, Some(row.uncompressedSize);
      } else {
        contentLength := row.uncompressedSize;
      }
      if row.storedSize == 0 && row.uncompressedSize == 0 {
        return Ok(outputId, encoded, contentLength, header, []);
      }
      if row.smallData.Some? {
        return Ok(outputId, encoded, contentLength, header, row.smallData.value);
      }
      if |row.sha256| != SHA256_HEX_LENGTH {
        return Failed(500);
      }
      var path := if isLz4 then Lz4(row.sha256) else Plain(row.sha256);
      if path !in files {
        return NotFound;
      }
      var body := if isLz4 && !acceptsLz4 then codec.decompress(files[path]) else files[path];
      return Ok(outputId, encoded, contentLength, header, body);
    }

    method MaybeBumpAccessTime(actionId: string, priorAccessTime: int) returns (didBump: bool)
      requires Valid()
      modifies this`accessDirty, this`accessFlushTimer, this`timers, this`nextTimer
      ensures Valid()
      ensures Pending() == AccessTimes.MaybeBump(old(Pending()), actionId, priorAccessTime, clock)
      ensures didBump <==> AccessTimes.WantsBump(priorAccessTime, clock) && actionId !in old(accessDirty)
    {
      if priorAccessTime > Unix(clock) - AccessTimes.REL_ATIME_SECONDS {
        return false;
      }
      didBump := EnqueueAccessTimeBump(actionId);
    }

    method EnqueueAccessTimeBump(actionId: string) returns (changed: bool)
      requires Valid()
      modifies this`accessDirty, this`accessFlushTimer, this`timers, this`nextTimer
      ensures Valid()
      ensures Pending() == AccessTimes.Enqueue(old(Pending()), actionId, clock)
      ensures changed <==> actionId !in old(accessDirty)
    {
      if actionId in accessDirty {
        return false;
      }
      accessDirty := accessDirty[actionId := Unix(clock)];
      if accessFlushTimer == None {
        timers := timers[nextTimer := clock + AccessTimes.FLUSH_DELAY];
        accessFlushTimer, nextTimer := Some(nextTimer), nextTimer + 1;
      } else if |accessDirty| < AccessTimes.ACCESS_BATCH_SIZE_SOFT_LIMIT {
        timers := timers[accessFlushTimer.value := clock + AccessTimes.FLUSH_DELAY];
      }
      return true;
    }

    // ---- Access time flush ----

    /** One transaction with an UPDATE for each pending action; an action that is gone matches no row. */
    method FlushAccessTimeBumps(fails: bool)
      requires Valid()
      modifies this`actions, this`accessDirty, this`accessFlushTimer, this`timers, this`nextTimer
      ensures Valid()
      ensures actions == if fails then old(actions) else AccessTimes.FlushActions(old(actions), old(accessDirty))
      ensures Pending() == AccessTimes.FlushOutcome(old(Pending()), clock, fails)
    {
      accessFlushTimer := None;
      if accessDirty == map[] {
        assert AccessTimes.FlushActions(actions, accessDirty) == actions;
        return;
      }
      var tx := UpdatedActions();
      if fails {
        timers := timers[nextTimer := clock + AccessTimes.FLUSH_DELAY];
        accessFlushTimer, nextTimer := Some(nextTimer), nextTimer + 1;
        return;
      }
      actions := tx;
      accessDirty := map[];
    }

    /** The loop over the pending actions, in any order, on what the transaction sees of the table. */
    method UpdatedActions() returns (tx: map<string, ActionRow>)
      ensures tx == AccessTimes.FlushActions(actions, accessDirty)
    {
      var todo := accessDirty;
      tx := actions;
      while todo != map[]
        invariant todo.Keys <= accessDirty.Keys && forall a | a in todo :: todo[a] == accessDirty[a]
        invariant tx.Keys == actions.Keys
        invariant forall a | a in actions :: tx[a] ==
                    if a in accessDirty && a !in todo then actions[a].(accessTime := accessDirty[a]) else actions[a]
        decreases todo.Keys
      {
        var a :| a in todo;
        if a in tx {
          tx := tx[a := tx[a].(accessTime := todo[a])];
        }
        todo := todo - {a};
      }
    }

    // ---- Usage statistics ----

    method BuildDurations() returns (durs: seq<int>)
      ensures durs == BucketsOf(maxAge)
    {
      if maxAge == 0 {
        return STANDARD_DURATIONS;
      }
      durs := [maxAge];
      var all := STANDARD_DURATIONS;
      for i := 0 to |all|
        invariant durs == [maxAge] + Kept(maxAge, all[..i])
      {
        KeptOneMore(maxAge, all[..i], all[i]);
        assert all[..i + 1] == all[..i] + [all[i]];
        if all[i] < maxAge || all[i] == MAX_DURATION {
          durs := durs + [all[i]];
        }
      }
      assert all[..|all|] == all;
      durs := Sorted(durs);
    }

    /** Adds one action to every bucket above its age, as often as that is listed. */
    static method CountAction(hist: map<int, CountAndSize>, durs: seq<int>, age: int, size: nat)
      returns (hist': map<int, CountAndSize>)
      ensures Counts(hist, durs, age, size, hist')
      ensures forall d | d in hist' :: d in hist || d in durs
    {
      hist' := hist;
      for j := 0 to |durs|
        invariant Counts(hist, durs[..j], age, size, hist')
        invariant forall d | d in hist' :: d in hist || d in durs
      {
        ghost var before := hist';
        if age < durs[j] {
          var was := BucketAt(hist', durs[j]);
          hist' := hist'[durs[j] := CountAndSize(was.count + 1, was.size + size)];
        }
        CountsOneMore(hist, durs, j, age, size, before, hist');
      }
      assert durs[..|durs|] == durs;
    }

    method FlushPending(fails: bool)
      requires Valid()
      modifies this`actions, this`accessDirty, this`accessFlushTimer, this`timers, this`nextTimer
      ensures Valid()
      ensures Tables() == old(Flushed(fails))
      ensures Pending() == if old(accessDirty) == map[] then old(Pending())
                           else AccessTimes.FlushOutcome(old(Pending()), clock, fails)
    {
      if accessDirty != map[] {
        FlushAccessTimeBumps(fails);
      }
      assert !fails ==> actions == AccessTimes.FlushActions(old(actions), old(accessDirty));
    }

    /** Flushes pending access times, then reads every action row into the histogram. */
    method ComputeUsageStats(flushFails: bool) returns (us: UsageStats, ghost db: Db)
      requires Valid()
      modifies this`actions, this`accessDirty, this`accessFlushTimer, this`timers, this`nextTimer
      ensures Valid() && db == Tables()
      ensures db == old(Flushed(flushFails))
      ensures Pending() == if old(accessDirty) == map[] then old(Pending())
                           else AccessTimes.FlushOutcome(old(Pending()), clock, flushFails)
      ensures IsListedUsage(db, clock, BucketsOf(maxAge), us)
      ensures IsUsage(db, clock, BucketsOf(maxAge), us) <==> maxAge != MAX_DURATION || Counted(db) == {}
    {
      var durs := BuildDurations();
      FlushPending(flushFails);
      var hist, missing := ReadRows(durs);
      us, db := UsageStats(hist, missing), Tables();
      AllRowsRead(db, clock, durs, us);
      UsageIsExact(db, clock, maxAge, us);
    }

    /** The query of all action rows with their blobs' stored sizes, in any order. */
    method ReadRows(durs: seq<int>) returns (hist: map<int, CountAndSize>, missing: nat)
      ensures forall d | d in hist :: d in durs
      ensures RowsRead(Tables(), clock, durs, {}, hist, missing)
    {
      ghost var db, now := Tables(), clock;
      hist, missing := map[], 0;
      var todo := actions.Keys;
      NoRowRead(db, now, durs);
      while todo != {}
        invariant todo <= actions.Keys && (forall d | d in hist :: d in durs)
        invariant RowsRead(db, now, durs, todo, hist, missing)
        decreases |todo|
      {
        var a :| a in todo;
        if actions[a].blobId !in blobs {
          MissingRowRead(db, now, durs, todo, hist, missing, a);
          missing := missing + 1;
        } else {
          var age := AgeOf(clock, actions[a].accessTime);
          var size := blobs[actions[a].blobId].storedSize;
          var hist' := CountAction(hist, durs, age, size);
          RowRead(db, now, durs, todo, hist, missing, a, age, size, hist');
          hist := hist';
        }
        todo := todo - {a};
      }
    }

    // ---- Clean candidates ----

    /** MAX(AccessTime) over the actions of a blob; None stands for NULL. */
    method MaxAccessTime(id: nat) returns (m: Option<int>)
      requires id in blobs
      ensures m.Some? <==> id in Referenced(Tables())
      ensures m.Some? ==> m.value == MaxAccess(Tables(), id)
    {
      m := None;
      var todo := actions.Keys;
      while todo != {}
        invariant todo <= actions.Keys
        invariant m.None? ==> forall a | a in actions && a !in todo :: actions[a].blobId != id
        invariant m.Some? ==> exists a :: a in actions && actions[a].blobId == id && actions[a].accessTime == m.value
        invariant m.Some? ==> forall a | a in actions && a !in todo && actions[a].blobId == id ::
                    actions[a].accessTime <= m.value
        decreases |todo|
      {
        var a :| a in todo;
        todo := todo - {a};
        if actions[a].blobId == id && (m.None? || m.value < actions[a].accessTime) {
          m := Some(actions[a].accessTime);
        }
      }
      if m.Some? {
        MaxAccessIsMax(Tables(), id);
      }
    }

    /** The groups that pass HAVING MAX(AccessTime) <= cutoff, with their maxima. */
    method EligibleGroups(cutoff: int) returns (groups: map<nat, int>)
      ensures groups.Keys == Eligible(Tables(), cutoff)
      ensures forall id | id in groups :: groups[id] == MaxAccess(Tables(), id)
    {
      groups := map[];
      var todo := blobs.Keys;
      while todo != {}
        invariant todo <= blobs.Keys
        invariant groups.Keys == Eligible(Tables(), cutoff) - todo
        invariant forall id | id in groups :: groups[id] == MaxAccess(Tables(), id)
        decreases |todo|
      {
        var id :| id in todo;
        todo := todo - {id};
        var m := MaxAccessTime(id);
        if m.Some? && m.value <= cutoff {
          groups := groups[id := m.value];
        }
      }
      assert Eligible(Tables(), cutoff) - {} == Eligible(Tables(), cutoff);
    }

    static method LeastRecent(groups: map<nat, int>) returns (id: nat)
      requires groups != map[]
      ensures id in groups && forall j | j in groups :: groups[id] <= groups[j]
    {
      id :| id in groups;
      var todo := groups.Keys;
      while todo != {}
        invariant id in groups && forall j | j in groups && j !in todo :: groups[id] <= groups[j]
        decreases |todo|
      {
        var j :| j in todo;
        todo := todo - {j};
        if j in groups && groups[j] < groups[id] {
          id := j;
        }
      }
    }

    /** The candidates query: grouped, ordered by MAX(AccessTime), limited. */
    method CleanCandidates(olderThan: int, limit: nat) returns (cs: seq<Candidate>)
      ensures IsCandidateList(Tables(), Cutoff(clock, olderThan), limit, cs)
    {
      ghost var db, cutoff := Tables(), Cutoff(clock, olderThan);
      var groups := EligibleGroups(Cutoff(clock, olderThan));
      cs := [];
      NothingPicked(db, cutoff, groups);
      while groups != map[] && |cs| < limit
        invariant |cs| <= limit && Picked(db, cutoff, cs, groups)
        decreases limit - |cs|
      {
        var id := LeastRecent(groups);
        PickOneMore(db, cutoff, cs, groups, id);
        cs := cs + [Candidate(id, groups[id], blobs[id].storedSize)];
        groups := groups - {id};
      }
      PickedIsList(db, cutoff, limit, cs, groups);
    }

    // ---- Deletion ----

    /** Deletes blobs, their actions and their files, with the rows in one transaction. failAt is the
        number of file removals after which an error occurs, if one does; the commit comes last. */
    method DeleteBlobs(ids: seq<nat>, failAt: Option<nat>) returns (ok: bool)
      requires Valid()
      modifies this`blobs, this`actions, this`files, this`evictedBlobs, this`evictedBytes
      ensures Valid()
      ensures ok <==> failAt.None? || failAt.value > 2 * |ids|
      ensures ok ==>
                && Tables() == Serial.Delete(old(Tables()), ids)
                && evictedBlobs == old(evictedBlobs) + |ids|
                && evictedBytes == old(evictedBytes) + Sum(SizesAmong(old(blobs), Elements(ids)))
      ensures !ok ==>
                && Tables() == Serial.RolledBack(old(Tables()), ids, failAt.value)
                && evictedBlobs == old(evictedBlobs) && evictedBytes == old(evictedBytes)
    {
      var sumBytes := RemoveFilesOf(ids, failAt);
      if failAt.Some? && failAt.value <= 2 * |ids| {
        Serial.RolledBackKeepsOk(codec, contents, old(Tables()), ids, failAt.value);
        return false;
      }
      Serial.DeleteKeepsOk(codec, contents, old(Tables()), ids);
      CommitDeletion(ids, sumBytes);
      return true;
    }

    /** The rows go, with their actions, and then the metrics count them. */
    method CommitDeletion(ids: seq<nat>, sumBytes: nat)
      modifies this`blobs, this`actions, this`evictedBlobs, this`evictedBytes
      ensures Tables() == RemoveRows(old(Tables()), Elements(ids))
      ensures evictedBlobs == old(evictedBlobs) + |ids| && evictedBytes == old(evictedBytes) + sumBytes
    {
      var gone := Elements(ids);
      blobs := blobs - gone;
      actions := map a | a in actions && actions[a].blobId !in gone :: actions[a];
      evictedBlobs := evictedBlobs + |ids|;
      evictedBytes := evictedBytes + sumBytes;
    }

    /** The loop of deleteBlobs: tx is what the transaction sees of the blobs. */
    method RemoveFilesOf(ids: seq<nat>, failAt: Option<nat>) returns (sumBytes: nat)
      modifies this`files
      ensures Tables() == Serial.RolledBack(old(Tables()), ids, if failAt.Some? && failAt.value <= 2 * |ids|
                                                                then failAt.value else 2 * |ids|)
      ensures failAt.None? || failAt.value >= 2 * |ids| ==> sumBytes == Sum(SizesAmong(blobs, Elements(ids)))
    {
      var tx := blobs;
      sumBytes := 0;
      assert SizesAmong(blobs, Elements([])) == map[];
      for i := 0 to |ids|
        invariant failAt.Some? ==> failAt.value >= 2 * i
        invariant tx == blobs - Elements(ids[..i])
        invariant files == old(files) - Serial.RemovedPaths(blobs, ids, 2 * i)
        invariant sumBytes == Sum(SizesAmong(blobs, Elements(ids[..i])))
      {
        assert tx - {ids[i]} == blobs - Elements(ids[..i + 1]) by { assert ids[..i + 1] == ids[..i] + [ids[i]]; }
        OneMoreId(blobs, ids, i);
        var hash := if ids[i] in tx then tx[ids[i]].sha256 else ZeroHash();
        sumBytes := sumBytes + if ids[i] in tx then tx[ids[i]].storedSize else 0;
        tx := tx - {ids[i]};
        var done := RemoveBothFiles(hash, i, failAt, ids, old(files));
        if !done {
          return;
        }
      }
      assert ids[..|ids|] == ids;
    }

    method RemoveBothFiles(hash: string, i: nat, failAt: Option<nat>, ghost ids: seq<nat>,
                           ghost before: map<DiskPath, Bytes>)
      returns (done: bool)
      requires i < |ids| && hash == HashAt(blobs, ids, i)
      requires files == before - Serial.RemovedPaths(blobs, ids, 2 * i)
      requires failAt.Some? ==> failAt.value >= 2 * i
      modifies this`files
      ensures done <==> failAt.None? || failAt.value >= 2 * i + 2
      ensures var steps := if done then 2 * i + 2 else failAt.value;
              files == before - Serial.RemovedPaths(blobs, ids, steps)
    {
      RemovedPair(blobs, ids, i);
      if failAt == Some(2 * i) {
        return false;
      }
      files := files - {Lz4(hash)};
      if failAt == Some(2 * i + 1) {
        return false;
      }
      files := files - {Plain(hash)};
      return true;
    }

    // ---- Cleaning ----

    /** The least recent candidates up to the one that reaches need. */
    static method TakePrefix(cs: seq<Candidate>, need: int) returns (ids: seq<nat>, batchBytes: nat)
      ensures |ids| <= |cs| && ids == IdSeq(cs[..|ids|])
      ensures batchBytes == SizeSum(cs[..|ids|])
      ensures need > 0 ==> IsShortestPrefix(cs, need, |ids|)
    {
      ids, batchBytes := [], 0;
      var i := 0;
      while i < |cs|
        invariant i <= |cs| && |ids| == i && ids == IdSeq(cs[..i]) && batchBytes == SizeSum(cs[..i])
        invariant need > 0 ==> forall m | 0 <= m <= i :: SizeSum(cs[..m]) < need
      {
        assert cs[..i + 1][..i] == cs[..i];
        ids := ids + [cs[i].blobId];
        batchBytes := batchBytes + cs[i].storedSize;
        i := i + 1;
        if batchBytes >= need {
          break;
        }
      }
    }

    static method TakeAll(cs: seq<Candidate>) returns (ids: seq<nat>, sumSize: nat)
      ensures ids == IdSeq(cs) && sumSize == SizeSum(cs)
    {
      ids, sumSize := [], 0;
      for i := 0 to |cs|
        invariant ids == IdSeq(cs[..i]) && sumSize == SizeSum(cs[..i])
      {
        assert cs[..i + 1][..i] == cs[..i];
        ids := ids + [cs[i].blobId];
        sumSize := sumSize + cs[i].storedSize;
      }
      assert cs[..|cs|] == cs;
    }

    /** Everything too old, then the least recent until the tracked size fits. The size loop runs its
        body at most once. ageFail and sizeFail make the respective deletion fail. */
    method CleanOldObjects(us: UsageStats, ageFail: Option<nat>, sizeFail: Option<nat>)
      returns (ok: bool, ret: CountAndSize,
               ghost aged: seq<Candidate>, ghost mid: Db, ghost fetched: seq<Candidate>, ghost n: nat,
               ghost rounds: nat)
      requires Valid()
      modifies this`blobs, this`actions, this`files, this`evictedBlobs, this`evictedBytes
      ensures Valid() && rounds <= 1 && n <= |fetched|
      ensures AgePass(old(Tables()), clock, us, maxAge, aged)
      ensures ageFail.None? && sizeFail.None? ==> ok
      ensures ok ==> IsClean(old(Tables()), clock, us, maxAge, maxSize, aged, mid, fetched, n, Tables())
      ensures ok ==> StopsInTime(us.All().size - SizeSum(aged), maxSize, fetched[..n])
      ensures ok ==>
                && mid == Serial.Delete(old(Tables()), IdSeq(aged))
                && Tables() == Serial.Delete(mid, IdSeq(fetched[..n]))
      ensures ok ==> ret == CountAndSize(|aged| + n, SizeSum(aged) + SizeSum(fetched[..n]))
      ensures ok ==> evictedBlobs == old(evictedBlobs) + ret.count && evictedBytes == old(evictedBytes) + ret.size
      ensures !ok ==> ret == CountAndSize(0, 0)
      ensures !ok && rounds == 0 ==>
                ageFail.Some? && Tables() == Serial.RolledBack(old(Tables()), IdSeq(aged), ageFail.value)
      ensures !ok && rounds == 1 ==>
                && mid == Serial.Delete(old(Tables()), IdSeq(aged))
                && sizeFail.Some? && Tables() == Serial.RolledBack(mid, IdSeq(fetched[..n]), sizeFail.value)
    {
      rounds, fetched, n := 0, [], 0;
      var all := us.All();
      var agedIds, agedBytes;
      ok, agedIds, agedBytes, aged := AgeOut(us, ageFail);
      mid := Tables();
      ret := CountAndSize(0, 0);
      if !ok {
        return;
      }
      ret := CountAndSize(|agedIds|, agedBytes);
      all := CountAndSize(all.count - |agedIds|, all.size - agedBytes);
      ghost var tracked := all.size;
      DeleteNothing(mid);
      while maxSize > 0 && all.size > maxSize
        invariant Valid() && rounds <= 1 && n <= |fetched| && Tables() == Serial.Delete(mid, IdSeq(fetched[..n]))
        invariant rounds == 0 ==> fetched == [] && n == 0 && Tables() == mid && all.size == tracked
        invariant rounds == 1 ==> all.size <= maxSize && SizePass(mid, clock, maxSize, tracked, fetched, n)
        invariant ret == CountAndSize(|aged| + n, agedBytes + SizeSum(fetched[..n]))
        invariant evictedBlobs == old(evictedBlobs) + ret.count && evictedBytes == old(evictedBytes) + ret.size
        decreases 1 - rounds
      {
        rounds := rounds + 1;
        var ids, batchBytes, exhausted;
        ok, ids, batchBytes, exhausted, fetched := EvictBatch(all.size, sizeFail);
        n := |ids|;
        if !ok {
          ret := CountAndSize(0, 0);
          return;
        }
        ret := CountAndSize(ret.count + |ids|, ret.size + batchBytes);
        all := CountAndSize(all.count - |ids|, all.size - batchBytes);
        if exhausted {
          break;
        }
      }
      assert SizePass(mid, clock, maxSize, tracked, fetched, n);
      PassesMakeClean(old(Tables()), clock, us, maxAge, maxSize, aged, mid, fetched, n, Tables());
    }

    /** One round of the clean loop: statistics, with a flush that may fail, then a clean on them, by which
        the tables go from db to end. A deletion that fails ends the round with what it has done so far. */
    method CleanRound(flushFails: bool, ageFail: Option<nat>, sizeFail: Option<nat>)
      returns (ok: bool, ret: CountAndSize, ghost db: Db, ghost aged: seq<Candidate>, ghost evicted: seq<Candidate>,
               ghost end: Db)
      requires Valid()
      modifies this`blobs, this`actions, this`files, this`evictedBlobs, this`evictedBytes
      modifies this`accessDirty, this`accessFlushTimer, this`timers, this`nextTimer
      ensures Valid() && Tables() == end && db == old(Flushed(flushFails))
      ensures ageFail.None? && sizeFail.None? ==> ok
      ensures RoundOutcome(db, clock, maxAge, maxSize, ageFail.None?, ok, ret, end)
      ensures ok ==> EvictsNoMore(db, maxAge, maxSize, aged, evicted, end)
      ensures ok ==> ret == CountAndSize(|aged| + |evicted|, SizeSum(aged) + SizeSum(evicted))
    {
      var us;
      us, db := ComputeUsageStats(flushFails);
      ok, ret, aged, evicted, end := CleanOnce(us, db, ageFail, sizeFail);
    }

    method CleanOnce(us: UsageStats, ghost db: Db, ageFail: Option<nat>, sizeFail: Option<nat>)
      returns (ok: bool, ret: CountAndSize, ghost aged: seq<Candidate>, ghost evicted: seq<Candidate>, ghost end: Db)
      requires Valid() && db == Tables() && IsListedUsage(db, clock, BucketsOf(maxAge), us)
      modifies this`blobs, this`actions, this`files, this`evictedBlobs, this`evictedBytes
      ensures Valid() && end == Tables()
      ensures ageFail.None? && sizeFail.None? ==> ok
      ensures RoundOutcome(db, clock, maxAge, maxSize, ageFail.None?, ok, ret, end)
      ensures ok ==> EvictsNoMore(db, maxAge, maxSize, aged, evicted, end)
      ensures ok ==> ret == CountAndSize(|aged| + |evicted|, SizeSum(aged) + SizeSum(evicted))
    {
      ghost var mid, fetched, n;
      ok, ret, aged, mid, fetched, n, end := CleanOnFreshStats(us, db, ageFail, sizeFail);
      evicted := fetched[..n];
      assert |evicted| == n;
      if ok {
        CleanEvictsNoMore(db, clock, us, maxAge, maxSize, aged, mid, fetched, n, end);
      }
    }

    method CleanOnFreshStats(us: UsageStats, ghost db: Db, ageFail: Option<nat>, sizeFail: Option<nat>)
      returns (ok: bool, ret: CountAndSize,
               ghost aged: seq<Candidate>, ghost mid: Db, ghost fetched: seq<Candidate>, ghost n: nat, ghost end: Db)
      requires Valid() && db == Tables() && IsListedUsage(db, clock, BucketsOf(maxAge), us)
      modifies this`blobs, this`actions, this`files, this`evictedBlobs, this`evictedBytes
      ensures Valid() && end == Tables() && n <= |fetched|
      ensures ageFail.None? && sizeFail.None? ==> ok
      ensures RoundOutcome(db, clock, maxAge, maxSize, ageFail.None?, ok, ret, end)
      ensures ok ==> IsClean(db, clock, us, maxAge, maxSize, aged, mid, fetched, n, end)
      ensures ok ==> ret == CountAndSize(|aged| + n, SizeSum(aged) + SizeSum(fetched[..n]))
    {
      ghost var rounds;
      ok, ret, aged, mid, fetched, n, rounds := CleanOldObjects(us, ageFail, sizeFail);
      end := Tables();
      if ok {
        DeleteNothing(db);
        CleanIsGood(db, clock, us, maxAge, maxSize, ageFail.None?, aged, mid, fetched, n, ret, end);
      } else if rounds == 0 {
        FailedAgePass(db, clock, us, maxAge, maxSize, ret, end);
      } else {
        IdSeqElements(aged);
        FailedSizePass(db, clock, us, maxAge, maxSize, ageFail.None?, aged, mid, ret, end);
      }
    }

    /** The body of the size loop, for a tracked size above the limit. */
    method EvictBatch(tracked: int, fail: Option<nat>)
      returns (ok: bool, ids: seq<nat>, batchBytes: nat, exhausted: bool, ghost fetched: seq<Candidate>)
      requires Valid() && maxSize > 0 && tracked > maxSize
      modifies this`blobs, this`actions, this`files, this`evictedBlobs, this`evictedBytes
      ensures Valid()
      ensures fail.None? ==> ok
      ensures |ids| <= |fetched| && SizePass(old(Tables()), clock, maxSize, tracked, fetched, |ids|)
      ensures ids == IdSeq(fetched[..|ids|]) && batchBytes == SizeSum(fetched[..|ids|])
      ensures exhausted <==> |ids| == |fetched|
      ensures StopsInTime(tracked, maxSize, fetched[..|ids|]) && (exhausted || tracked - batchBytes <= maxSize)
      ensures ok ==>
                && Tables() == Serial.Delete(old(Tables()), ids)
                && evictedBlobs == old(evictedBlobs) + |ids| && evictedBytes == old(evictedBytes) + batchBytes
      ensures !ok ==> fail.Some? && Tables() == Serial.RolledBack(old(Tables()), ids, fail.value)
    {
      var toClean := tracked - maxSize;
      var candidates := CleanCandidates(0, CLEAN_BATCH);
      ids, batchBytes := TakePrefix(candidates, toClean);
      fetched, exhausted := candidates, |ids| == |candidates|;
      SizePassStopsInTime(Tables(), clock, maxSize, tracked, candidates, |ids|);
      ListedBytes(Tables(), Cutoff(clock, 0), CLEAN_BATCH, candidates, |ids|);
      ok := DeleteBlobs(ids, fail);
    }

    /** The age pass: with statistics of the same moment, toDelete bounds the blobs to find. */
    method AgeOut(us: UsageStats, fail: Option<nat>)
      returns (ok: bool, ids: seq<nat>, sumSize: nat, ghost aged: seq<Candidate>)
      requires Valid()
      modifies this`blobs, this`actions, this`files, this`evictedBlobs, this`evictedBytes
      ensures Valid()
      ensures fail.None? ==> ok
      ensures AgePass(old(Tables()), clock, us, maxAge, aged)
      ensures ids == IdSeq(aged) && sumSize == SizeSum(aged)
      ensures ok ==>
                && Tables() == Serial.Delete(old(Tables()), ids)
                && evictedBlobs == old(evictedBlobs) + |ids| && evictedBytes == old(evictedBytes) + sumSize
      ensures !ok ==> fail.Some? && Tables() == Serial.RolledBack(old(Tables()), ids, fail.value)
    {
      ok, ids, sumSize, aged := true, [], 0, [];
      DeleteNothing(Tables());
      if maxAge > 0 {
        var toDelete := us.All().count - us.At(maxAge).count;
        if toDelete > 0 {
          var candidates := CleanCandidates(maxAge, toDelete + 1);
          ids, sumSize := TakeAll(candidates);
          assert candidates[..|candidates|] == candidates;
          aged := candidates;
          ListedBytes(Tables(), Cutoff(clock, maxAge), toDelete + 1, candidates, |candidates|);
          ok := DeleteBlobs(ids, fail);
        }
      }
    }
  }

  /** The sizes that a candidates list gives add up to the stored sizes of its blobs, each once. */
  lemma {:induction false} ListedBytes(db: Db, cutoff: int, limit: nat, cs: seq<Candidate>, n: nat)
    requires IsCandidateList(db, cutoff, limit, cs) && n <= |cs|
    ensures SizeSum(cs[..n]) == Sum(SizesAmong(db.blobs, Elements(IdSeq(cs[..n]))))
  {
    if n == 0 {
      assert SizesAmong(db.blobs, Elements(IdSeq(cs[..0]))) == map[];
    } else {
      ListedBytes(db, cutoff, limit, cs, n - 1);
      var ids := IdSeq(cs[..n]);
      assert cs[..n][..n - 1] == cs[..n - 1];
      assert ids[..n - 1] == IdSeq(cs[..n - 1]) && ids[..n] == ids;
      OneMoreId(db.blobs, ids, n - 1);
      assert IsCandidate(db, cutoff, cs[n - 1]);
      assert forall i | 0 <= i < n - 1 :: ids[i] != ids[n - 1];
    }
  }

  lemma IdSeqElements(cs: seq<Candidate>)
    ensures Elements(IdSeq(cs)) == Ids(cs)
  {
    forall id | id in Ids(cs)
      ensures id in IdSeq(cs)
    {
      var i :| 0 <= i < |cs| && cs[i].blobId == id;
      assert IdSeq(cs)[i] == id;
    }
  }

  lemma PassesMakeClean(db: Db, now: int, us: UsageStats, maxAge: int, maxSize: int,
                        aged: seq<Candidate>, mid: Db, fetched: seq<Candidate>, n: nat, end: Db)
    requires AgePass(db, now, us, maxAge, aged) && mid == Serial.Delete(db, IdSeq(aged))
    requires SizePass(mid, now, maxSize, us.All().size - SizeSum(aged), fetched, n)
    requires n <= |fetched| && end == Serial.Delete(mid, IdSeq(fetched[..n]))
    ensures IsClean(db, now, us, maxAge, maxSize, aged, mid, fetched, n, end)
    ensures StopsInTime(us.All().size - SizeSum(aged), maxSize, fetched[..n])
  {
    IdSeqElements(aged);
    IdSeqElements(fetched[..n]);
    SizePassStopsInTime(mid, now, maxSize, us.All().size - SizeSum(aged), fetched, n);
  }

  lemma CleanIsGood(db: Db, now: int, us: UsageStats, maxAge: int, maxSize: int, agePassSucceeds: bool,
                    aged: seq<Candidate>, mid: Db, fetched: seq<Candidate>, n: nat, ret: CountAndSize, end: Db)
    requires IsListedUsage(db, now, BucketsOf(maxAge), us)
    requires IsClean(db, now, us, maxAge, maxSize, aged, mid, fetched, n, end)
    requires maxAge <= 0 && maxSize <= 0 ==> end == db
    ensures RoundOutcome(db, now, maxAge, maxSize, agePassSucceeds, true, ret, end)
  {
    RoundIsGood(db, now, us, maxAge, maxSize, aged, mid, fetched, n, end);
  }

  lemma RemovedPair(blobs: map<nat, BlobRow>, ids: seq<nat>, i: nat)
    requires i < |ids|
    ensures var hash, gone := HashAt(blobs, ids, i), Serial.RemovedPaths(blobs, ids, 2 * i);
            && Serial.RemovedPaths(blobs, ids, 2 * i + 1) == gone + {Lz4(hash)}
            && Serial.RemovedPaths(blobs, ids, 2 * i + 2) == gone + {Lz4(hash)} + {Plain(hash)}
  {
    Serial.RemovedOneMore(blobs, ids, 2 * i);
    Serial.RemovedOneMore(blobs, ids, 2 * i + 1);
  }

  /** What a round leaves, by its outcome. */
  ghost predicate RoundOutcome(db: Db, now: int, maxAge: int, maxSize: int, agePassSucceeds: bool,
                               ok: bool, ret: CountAndSize, end: Db) {
    && Survive(db, end)
    && (ok ==> GoodRound(db, now, maxAge, maxSize, end))
    && (ok && maxAge <= 0 && maxSize <= 0 ==> end == db)
    && (agePassSucceeds ==> FreshAfter(db, now, maxAge, if ok then maxSize else 0, end))
    && (!ok ==> ret == CountAndSize(0, 0))
  }

  /** A clean whose age pass fails leaves all rows. */
  lemma FailedAgePass(db: Db, now: int, us: UsageStats, maxAge: int, maxSize: int, ret: CountAndSize, end: Db)
    requires SameTables(end, db) && ret == CountAndSize(0, 0)
    ensures RoundOutcome(db, now, maxAge, maxSize, false, false, ret, end)
  {
    assert Ids([]) == {};
    assert RemoveRows(db, {}) == db;
    WithoutSizePass(db, now, us, 0, [], db, end);
    CleanSurvives(db, now, us, 0, 0, [], db, [], 0, end);
  }

  lemma WithoutSizePass(db: Db, now: int, us: UsageStats, maxAge: int, aged: seq<Candidate>, mid: Db, end: Db)
    requires AgePass(db, now, us, maxAge, aged)
    requires SameTables(mid, RemoveRows(db, Ids(aged))) && SameTables(end, mid)
    ensures IsClean(db, now, us, maxAge, 0, aged, mid, [], 0, end)
  {
    var none: seq<Candidate> := [];
    assert none[..0] == none && Ids(none) == {};
    assert RemoveRows(mid, {}) == mid;
  }

  /** A clean whose size pass fails is one without a size pass. */
  lemma FailedSizePass(db: Db, now: int, us: UsageStats, maxAge: int, maxSize: int, agePassSucceeds: bool,
                       aged: seq<Candidate>, mid: Db, ret: CountAndSize, end: Db)
    requires IsListedUsage(db, now, BucketsOf(maxAge), us) && AgePass(db, now, us, maxAge, aged)
    requires SameTables(mid, RemoveRows(db, Ids(aged))) && SameTables(end, mid) && ret == CountAndSize(0, 0)
    ensures RoundOutcome(db, now, maxAge, maxSize, agePassSucceeds, false, ret, end)
  {
    WithoutSizePass(db, now, us, maxAge, aged, mid, end);
    CleanSurvives(db, now, us, maxAge, 0, aged, mid, [], 0, end);
    RoundFreshens(db, now, us, maxAge, 0, aged, mid, [], 0, end);
  }

  lemma DeleteNothing(db: Db)
    ensures Serial.Delete(db, IdSeq([])) == db
  {
    assert Elements([]) == {};
    assert Serial.RemovedPaths(db.blobs, [], 0) == {};
  }

  /** cs is in order so far, and groups holds the eligible blobs that are still to come. */
  ghost predicate Picked(db: Db, cutoff: int, cs: seq<Candidate>, groups: map<nat, int>) {
    && DistinctIds(cs)
    && (forall c | c in cs :: IsCandidate(db, cutoff, c))
    && (forall i, j | 0 <= i < j < |cs| :: cs[i].accessTime <= cs[j].accessTime)
    && groups.Keys == Eligible(db, cutoff) - Ids(cs)
    && (forall id | id in groups :: groups[id] == MaxAccess(db, id))
    && (forall c, id | c in cs && id in groups :: c.accessTime <= groups[id])
  }

  lemma NothingPicked(db: Db, cutoff: int, groups: map<nat, int>)
    requires groups.Keys == Eligible(db, cutoff) && forall id | id in groups :: groups[id] == MaxAccess(db, id)
    ensures Picked(db, cutoff, [], groups)
  {
    assert Ids([]) == {};
  }

  lemma PickedIsList(db: Db, cutoff: int, limit: nat, cs: seq<Candidate>, groups: map<nat, int>)
    requires Picked(db, cutoff, cs, groups) && |cs| <= limit && (groups == map[] || |cs| == limit)
    ensures IsCandidateList(db, cutoff, limit, cs)
  {
    forall id | id in Eligible(db, cutoff) && id !in Ids(cs)
      ensures |cs| == limit && forall c | c in cs :: c.accessTime <= MaxAccess(db, id)
    {
      assert id in groups;
    }
  }

  lemma PickOneMore(db: Db, cutoff: int, cs: seq<Candidate>, groups: map<nat, int>, id: nat)
    requires Picked(db, cutoff, cs, groups) && id in groups && forall j | j in groups :: groups[id] <= groups[j]
    ensures id in db.blobs
    ensures Picked(db, cutoff, cs + [Candidate(id, groups[id], db.blobs[id].storedSize)], groups - {id})
  {
    var c := Candidate(id, groups[id], db.blobs[id].storedSize);
    assert Ids(cs + [c]) == Ids(cs) + {id};
    assert IsCandidate(db, cutoff, c);
    forall i | 0 <= i < |cs|
      ensures cs[i].blobId != id && cs[i].accessTime <= c.accessTime
    {
      assert cs[i] in cs;
    }
  }

  // ---- Why the loop over the rows computes the brute-force statistics ----

  function BucketAt(hist: map<int, CountAndSize>, d: int): CountAndSize {
    UsageStats(hist, 0).At(d)
  }

  function Counting(was: CountAndSize, times: nat, size: nat): CountAndSize {
    CountAndSize(was.count + times, was.size + times * size)
  }

  lemma TimesCounting(n: nat, was: CountAndSize, size: nat)
    ensures Times(n, Counting(was, 1, size)) == Counting(Times(n, was), n, size)
  {
    assert n * (was.size + size) == n * was.size + n * size;
  }

  /** The accumulators after all rows but those in todo. */
  ghost predicate RowsRead(db: Db, now: int, durs: seq<int>, todo: set<string>,
                           hist: map<int, CountAndSize>, missing: nat)
  {
    && (forall d | d in durs :: BucketAt(hist, d) == Times(multiset(durs)[d], Tally(db, Younger(db, now, d) - todo)))
    && missing == |MissingBlobRows(db) - todo|
  }

  lemma NoRowRead(db: Db, now: int, durs: seq<int>)
    ensures RowsRead(db, now, durs, db.actions.Keys, map[], 0)
  {
    assert MissingBlobRows(db) - db.actions.Keys == {};
    forall d | d in durs
      ensures Tally(db, Younger(db, now, d) - db.actions.Keys) == CountAndSize(0, 0)
    {
      assert Younger(db, now, d) - db.actions.Keys == {};
      assert StoredSizes(db, {}) == map[];
    }
  }

  lemma MissingRowRead(db: Db, now: int, durs: seq<int>, todo: set<string>,
                       hist: map<int, CountAndSize>, missing: nat, a: string)
    requires a in todo && a in MissingBlobRows(db)
    ensures RowsRead(db, now, durs, todo, hist, missing) ==> RowsRead(db, now, durs, todo - {a}, hist, missing + 1)
  {
    assert MissingBlobRows(db) - (todo - {a}) == (MissingBlobRows(db) - todo) + {a};
    assert forall d :: Younger(db, now, d) - (todo - {a}) == Younger(db, now, d) - todo;
  }

  /** hist' is hist with every bucket above the row's age as many actions further as it is listed. */
  ghost predicate Counts(hist: map<int, CountAndSize>, durs: seq<int>, age: int, size: nat,
                         hist': map<int, CountAndSize>)
  {
    forall d :: BucketAt(hist', d) == Counting(BucketAt(hist, d), if age < d then multiset(durs)[d] else 0, size)
  }

  lemma CountsOneMore(hist: map<int, CountAndSize>, durs: seq<int>, j: nat, age: int, size: nat,
                      before: map<int, CountAndSize>, after: map<int, CountAndSize>)
    requires j < |durs| && Counts(hist, durs[..j], age, size, before)
    requires after == if age < durs[j] then before[durs[j] := Counting(BucketAt(before, durs[j]), 1, size)] else before
    ensures Counts(hist, durs[..j + 1], age, size, after)
  {
    forall d
      ensures BucketAt(after, d) == Counting(BucketAt(hist, d), if age < d then multiset(durs[..j + 1])[d] else 0, size)
    {
      var n := multiset(durs[..j])[d];
      ListedOneMore(durs, j, d);
      CountingOneMore(BucketAt(hist, d), n, size);
      assert BucketAt(before, d) == Counting(BucketAt(hist, d), if age < d then n else 0, size);
      if d == durs[j] && age < d {
        assert BucketAt(after, d) == Counting(BucketAt(before, d), 1, size);
      } else {
        assert BucketAt(after, d) == BucketAt(before, d);
      }
    }
  }

  lemma ListedOneMore(durs: seq<int>, j: nat, d: int)
    requires j < |durs|
    ensures multiset(durs[..j + 1])[d] == multiset(durs[..j])[d] + if d == durs[j] then 1 else 0
  {
    assert durs[..j + 1] == durs[..j] + [durs[j]];
  }

  lemma CountingOneMore(was: CountAndSize, n: nat, size: nat)
    ensures Counting(Counting(was, n, size), 1, size) == Counting(was, n + 1, size)
  {
    assert (n + 1) * size == n * size + size;
  }

  lemma RowRead(db: Db, now: int, durs: seq<int>, todo: set<string>, hist: map<int, CountAndSize>, missing: nat,
                a: string, age: int, size: nat, hist': map<int, CountAndSize>)
    requires a in todo && a in Counted(db)
    requires age == AgeOf(now, db.actions[a].accessTime) && size == db.blobs[db.actions[a].blobId].storedSize
    ensures RowsRead(db, now, durs, todo, hist, missing) && Counts(hist, durs, age, size, hist') ==>
              RowsRead(db, now, durs, todo - {a}, hist', missing)
  {
    assert MissingBlobRows(db) - (todo - {a}) == MissingBlobRows(db) - todo;
    if RowsRead(db, now, durs, todo, hist, missing) && Counts(hist, durs, age, size, hist') {
      forall d | d in durs
        ensures BucketAt(hist', d) == Times(multiset(durs)[d], Tally(db, Younger(db, now, d) - (todo - {a})))
      {
        assert BucketAt(hist, d) == Times(multiset(durs)[d], Tally(db, Younger(db, now, d) - todo));
        TallyTimes(db, now, d, multiset(durs)[d], todo, a);
      }
    }
  }

  lemma TallyTimes(db: Db, now: int, d: int, n: nat, todo: set<string>, a: string)
    requires a in todo && a in Counted(db)
    ensures Times(n, Tally(db, Younger(db, now, d) - (todo - {a}))) ==
              Counting(Times(n, Tally(db, Younger(db, now, d) - todo)),
                       if AgeOf(now, db.actions[a].accessTime) < d then n else 0,
                       db.blobs[db.actions[a].blobId].storedSize)
  {
    TallyAfterRow(db, now, d, todo, a);
    TimesCounting(n, Tally(db, Younger(db, now, d) - todo), db.blobs[db.actions[a].blobId].storedSize);
  }

  lemma TallyAfterRow(db: Db, now: int, d: int, todo: set<string>, a: string)
    requires a in todo && a in Counted(db)
    ensures Tally(db, Younger(db, now, d) - (todo - {a})) ==
              Counting(Tally(db, Younger(db, now, d) - todo), if AgeOf(now, db.actions[a].accessTime) < d then 1 else 0,
                       db.blobs[db.actions[a].blobId].storedSize)
  {
    var young := Younger(db, now, d) - todo;
    if AgeOf(now, db.actions[a].accessTime) < d {
      assert Younger(db, now, d) - (todo - {a}) == young + {a};
      TallyOneMore(db, young, a);
    } else {
      assert Younger(db, now, d) - (todo - {a}) == young;
    }
  }

  lemma AllRowsRead(db: Db, now: int, durs: seq<int>, us: UsageStats)
    requires forall d | d in us.actionsLE :: d in durs
    ensures RowsRead(db, now, durs, {}, us.actionsLE, us.missingBlobRows) ==> IsListedUsage(db, now, durs, us)
  {
    assert MissingBlobRows(db) - {} == MissingBlobRows(db);
    assert forall d :: Younger(db, now, d) - {} == Younger(db, now, d);
    assert forall d :: BucketAt(us.actionsLE, d) == us.At(d);
  }
}

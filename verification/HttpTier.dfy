/** The HTTP client: a local disk cache in front of a gocached server. */
module HttpTier {
  import opened Basics
  import opened Clock
  import opened Content
  import opened Store
  import opened DiskNames
  import opened DiskCaching
  import DiskCrash
  import Gocached
  import Hex
  import Serial

  datatype ClientResult = Error | Miss | Found(outputId: string, diskPath: string)

  /** The bytes a client reads from a response and the length it expects of them. */
  function ResponseBody(codec: Codec, r: Response): Option<(Bytes, nat)>
    requires r.Ok?
  {
    if r.lz4Encoded then
      match r.uncompressedLength
      case None => None
      case Some(size) => Some((codec.decompress(r.body), size))
    else Some((r.body, r.contentLength))
  }

  /** What the client stores for a response. */
  function Download(codec: Codec, actionId: string, r: Response, timeNanos: int, faults: DiskFaults): Option<PutArgs>
    requires r.Ok?
  {
    if r.outputId == "" then None
    else
      match ResponseBody(codec, r)
      case None => None
      case Some((bytes, size)) =>
        Some(PutArgs(actionId, r.outputId, size, Reader(bytes, faults.copy), timeNanos, faults.index))
  }

  /** What the network does to a request: nothing, or it never arrives, or its answer is lost. */
  datatype Transport = Delivered | Unreachable | AnswerLost

  /** The result of a Get that found nothing locally, and the client's files after it. A best-effort
      client takes errors of HTTP for misses. */
  function AfterAnswer(env: DiskCrash.Env, codec: Codec, bestEffort: bool, files: map<string, Bytes>, actionId: string,
                       r: Response, timeNanos: int, faults: DiskFaults): (ClientResult, map<string, Bytes>)
  {
    match r
    case NotFound => (Miss, files)
    case Failed(_) => (if bestEffort then Miss else Error, files)
    case Ok(outputId, _, _, _, _) =>
      match Download(codec, actionId, r, timeNanos, faults)
      case None => (Error, files)
      case Some(p) =>
        (if PutSucceeds(p) then Found(outputId, OutputFilename(env.dir, outputId)) else Error,
         FilesAfterPut(env, files, p))
  }

  /** The result of a Get, for the given answer of the server, should it be asked. */
  function AfterGet(env: DiskCrash.Env, codec: Codec, bestEffort: bool, files: map<string, Bytes>, actionId: string,
                    r: Response, timeNanos: int, faults: DiskFaults): (ClientResult, map<string, Bytes>)
  {
    match Looked(env, files, actionId, faults.read)
    case Hit(outputId, diskPath) => (Found(outputId, diskPath), files)
    case _ => AfterAnswer(env, codec, bestEffort, files, actionId, r, timeNanos, faults)
  }

  class HTTPClient {
    const disk: DiskCache
    const server: Gocached.Server
    const bestEffort: bool

    constructor (disk: DiskCache, server: Gocached.Server, bestEffort: bool)
      ensures this.disk == disk && this.server == server && this.bestEffort == bestEffort
    {
      this.disk, this.server, this.bestEffort := disk, server, bestEffort;
    }

    /** suffix and suffix' are fresh names for temporary files. A request without an answer counts as one
        with an error status. */
    method Get(actionId: string, net: Transport, queryFails: bool, timeNanos: int, faults: DiskFaults,
               suffix: string, suffix': string) returns (r: ClientResult)
      requires server.Valid()
      requires forall dest: string :: TempName(dest, suffix) !in disk.files && TempName(dest, suffix') !in disk.files
      modifies disk, server`accessDirty, server`accessFlushTimer, server`timers, server`nextTimer
      ensures server.Valid()
      ensures var answer := if net.Delivered? && Hex.Printed(actionId, 2, 500) && !queryFails
                            then Serial.Get(server.codec, server.Tables(), actionId, true)
                            else Failed(if Hex.Printed(actionId, 2, 500) then 500 else 400);
              (r, disk.files) == AfterGet(disk.TheEnv(), server.codec, bestEffort, old(disk.files), actionId, answer,
                                          timeNanos, faults)
      ensures net.Unreachable? ==> server.Pending() == old(server.Pending())
    {
      var local := disk.Get(actionId, faults.read);
      if local.Hit? {
        return Found(local.outputId, local.diskPath);
      }
      var res := Failed(500);
      if !net.Unreachable? {
        res := server.HandleGetAction(actionId, true, true, queryFails);
      }
      if !net.Delivered? {
        return if bestEffort then Miss else Error;
      }
      r := Save(actionId, res, server.codec, timeNanos, faults, suffix, suffix');
    }

    /** What Get does with the server's response. */
    method Save(actionId: string, res: Response, codec: Codec, timeNanos: int, faults: DiskFaults,
                suffix: string, suffix': string) returns (r: ClientResult)
      requires forall dest: string :: TempName(dest, suffix) !in disk.files && TempName(dest, suffix') !in disk.files
      modifies disk
      ensures (r, disk.files) == AfterAnswer(disk.TheEnv(), codec, bestEffort, old(disk.files), actionId, res,
                                             timeNanos, faults)
    {
      if res.NotFound? {
        return Miss;
      }
      if res.Failed? {
        return if bestEffort then Miss else Error;
      }
      if res.outputId == "" {
        return Error;
      }
      var body: Bytes, size: nat := res.body, res.contentLength;
      if res.lz4Encoded {
        if res.uncompressedLength.None? {
          return Error;
        }
        body, size := codec.decompress(res.body), res.uncompressedLength.value;
      }
      var p := PutArgs(actionId, res.outputId, size, Reader(body, faults.copy), timeNanos, faults.index);
      var diskPath := disk.Put(p, suffix, suffix');
      return if diskPath.Some? then Found(res.outputId, diskPath.value) else Error;
    }

    /** Stores on the local disk and on the server, from one buffered copy of the body, which is read only
        for a positive size. A caller that cancels gets an error, but both writes may still be made. */
    method Put(actionId: string, outputId: string, size: int, body: Reader, net: Transport, fault: Gocached.PutFault,
               newId: nat, timeNanos: int, faults: DiskFaults, cancelled: bool, suffix: string, suffix': string)
      returns (diskPath: Option<string>)
      requires server.Valid() && newId >= server.nextBlobId
      requires Sent(size, Buffered(size, body)).data in server.contents
      requires forall dest: string :: TempName(dest, suffix) !in disk.files && TempName(dest, suffix') !in disk.files
      modifies disk, server`blobs, server`actions, server`nextBlobId, server`files
      ensures server.Valid()
      ensures body.fails && size > 0 ==>
                diskPath == None && disk.files == old(disk.files) && server.Tables() == old(server.Tables())
      ensures !(body.fails && size > 0) ==>
                disk.files == FilesAfterPut(disk.TheEnv(), old(disk.files),
                  PutArgs(actionId, outputId, size, Reader(Buffered(size, body), faults.copy), timeNanos, faults.index))
      ensures diskPath.Some? ==> diskPath.value == OutputFilename(disk.dir, outputId) && |Buffered(size, body)| == size
      ensures diskPath.Some? && !bestEffort ==>
                && net.Delivered?
                && server.Tables() == Serial.Put(server.codec, old(server.Tables()),
                     Upload(actionId, outputId, Buffered(size, body)), newId, Unix(server.clock))
      ensures cancelled ==> diskPath == None
      ensures !(body.fails && size > 0) && |Buffered(size, body)| == size
              && !faults.copy && !faults.index && !cancelled
              && Hex.ValidClientId(actionId) && Hex.ValidClientId(outputId)
              && (bestEffort || (net.Delivered? && fault == Gocached.NoFault
                                 && Hex.Printed(actionId, 2, 500) && Hex.Printed(outputId, 2, 500))) ==>
                diskPath.Some?
      ensures net.Unreachable? ==> server.Tables() == old(server.Tables())
      ensures !(body.fails && size > 0) && |Buffered(size, body)| == size && !net.Unreachable?
              && fault == Gocached.NoFault && Hex.Printed(actionId, 2, 500) && Hex.Printed(outputId, 2, 500) ==>
                server.Tables() == Serial.Put(server.codec, old(server.Tables()),
                  Upload(actionId, outputId, Buffered(size, body)), newId, Unix(server.clock))
    {
      var buf: Bytes := [];
      if size > 0 {
        if body.fails {
          return None;
        }
        buf := body.data;
      }
      var p := PutArgs(actionId, outputId, size, Reader(buf, faults.copy), timeNanos, faults.index);
      diskPath := disk.Put(p, suffix, suffix');
      var ok := SendPut(actionId, outputId, size, buf, net, fault, newId);
      if (!ok && !bestEffort) || cancelled {
        diskPath := None;
      }
    }

    /** The request to the server; what it stores is the buffer if that has the announced size, and it may
        have stored it although the client gets no answer. */
    method SendPut(actionId: string, outputId: string, size: int, buf: Bytes, net: Transport,
                   fault: Gocached.PutFault, newId: nat) returns (ok: bool)
      requires server.Valid() && newId >= server.nextBlobId && Sent(size, buf).data in server.contents
      modifies server`blobs, server`actions, server`nextBlobId, server`files
      ensures server.Valid()
      ensures net.Unreachable? ==> server.Tables() == old(server.Tables())
      ensures ok ==>
                && net.Delivered?
                && server.Tables() == Serial.Put(server.codec, old(server.Tables()),
                     Upload(actionId, outputId, Sent(size, buf).data), newId, Unix(server.clock))
      ensures |buf| == size ==> Sent(size, buf).data == buf
      ensures fault == Gocached.NoFault && |buf| == size
              && Hex.Printed(actionId, 2, 500) && Hex.Printed(outputId, 2, 500) ==>
                && (ok <==> net.Delivered?)
                && (!net.Unreachable? ==>
                      server.Tables() == Serial.Put(server.codec, old(server.Tables()),
                        Upload(actionId, outputId, buf), newId, Unix(server.clock)))
    {
      assert buf[..|buf|] == buf;
      if net.Unreachable? {
        return false;
      }
      var status := server.HandlePut(actionId, outputId, Some(SentLength(size, buf)), Sent(size, buf), fault, newId);
      return status == 204 && net.Delivered?;
    }
  }

  function Buffered(size: int, body: Reader): Bytes {
    if size > 0 then body.data else []
  }

  /** The Content-Length of the upload: net/http sends 0 for an empty buffer, whatever the size. */
  function SentLength(size: int, buf: Bytes): nat {
    if buf == [] then 0 else Max(0, size)
  }

  /** The body that goes with it: never more than that length, and cut short if the buffer is. */
  function Sent(size: int, buf: Bytes): Gocached.Body {
    var length := SentLength(size, buf);
    if |buf| >= length then Gocached.Body(buf[..length], false) else Gocached.Body(buf, true)
  }

  /** What a client makes of an answer: the local one if there is one; else a miss exactly for "not found" or,
      with best effort, for an error; an error of the server is one of a client without best effort; and only
      a download changes files, by what it has found. */
  lemma GetOutcomes(env: DiskCrash.Env, codec: Codec, bestEffort: bool, files: map<string, Bytes>, actionId: string,
                    r: Response, timeNanos: int, faults: DiskFaults)
    ensures var (result, files') := AfterGet(env, codec, bestEffort, files, actionId, r, timeNanos, faults);
            var local := Looked(env, files, actionId, faults.read);
            if local.Hit? then result == Found(local.outputId, local.diskPath) && files' == files
            else
              && (result == Miss <==> r == NotFound || (bestEffort && r.Failed?))
              && (r.Failed? && !bestEffort ==> result == Error)
              && (!r.Ok? ==> files' == files)
              && (result.Found? <==>
                    && r.Ok? && Hex.ValidClientId(actionId) && Hex.ValidClientId(r.outputId)
                    && !faults.copy && !faults.index
                    && (r.lz4Encoded ==> r.uncompressedLength == Some(|Decoded(codec, r)|))
                    && (!r.lz4Encoded ==> r.contentLength == |r.body|))
              && (result.Found? ==>
                    && result == Found(r.outputId, OutputFilename(env.dir, r.outputId))
                    && ActionFilename(env.dir, actionId) in files')
  {
  }

  /** The buffer is the body, and of that the server is sent what it announces: all of it if the sizes agree,
      a prefix if there is more, and a body that breaks off if there is less. */
  lemma SentIsTheBody(size: int, body: Reader)
    ensures size > 0 ==> Buffered(size, body) == body.data
    ensures size <= 0 ==> Buffered(size, body) == []
    ensures var buf := Buffered(size, body); var sent := Sent(size, buf);
            && sent.data <= buf
            && (|buf| == size ==> sent == Gocached.Body(buf, false) && SentLength(size, buf) == size)
            && (sent.fails <==> 0 < |buf| < size) && (!sent.fails ==> |sent.data| == SentLength(size, buf))
  {
    var buf := Buffered(size, body);
    assert buf[..|buf|] == buf;
  }

  // ---- Two tiers ----

  /** The client undoes whatever encoding the server chose, and the size check of Disk.Put passes. */
  lemma DownloadIsUpload(codec: Codec, u: Upload, r: Response, timeNanos: int)
    requires Faithful(codec, u, true, r) && u.outputId != ""
    ensures Download(codec, u.actionId, r, timeNanos, NO_FAULTS) ==
              Some(PutArgs(u.actionId, u.outputId, |u.content|, Reader(u.content, false), timeNanos, false))
  {
  }

  /** One client PUTs to a fresh action; after any serial run on the server that does not evict its blob, a
      second client that has nothing for the action GETs it. It gets the same output ID and a file with
      the same bytes, and from then on answers for itself, whatever the server says. It misses only
      content that compression leaves at the same length or whose file a rolled-back clean has lost. */
  lemma SecondClientGetsTheUpload(codec: Codec, contents: set<Bytes>, before: seq<Serial.Op>, u: Upload, skipped: nat,
                                  now: int, after: seq<Serial.Op>,
                                  env: DiskCrash.Env, bestEffort: bool, files: map<string, Bytes>, timeNanos: int)
    requires Sound(codec, contents) && Serial.MayPut(contents, u)
    requires forall op | op in before :: Serial.WellFormed(contents, op)
    requires u.actionId !in Serial.Run(codec, EMPTY_DB, before).actions
    requires var db := Serial.Run(codec, EMPTY_DB, before);
             forall op | op in after :: Serial.WellFormed(contents, op)
               && !Serial.Evicts(op, UpsertedId(codec, db, u.content, db.nextBlobId + skipped))
    requires Hex.ValidClientId(u.actionId) && Hex.ValidClientId(u.outputId)
    requires DiskCrash.RoundTrips(env.json) && DiskCrash.Get(env, files, u.actionId) == DiskCrash.Miss
    ensures var db := Serial.Run(codec, EMPTY_DB, before); var newId := db.nextBlobId + skipped;
            var later := Serial.Run(codec, Serial.Put(codec, db, u, newId, now), after);
            var r := Serial.Get(codec, later, u.actionId, true);
            var (result, files') := AfterGet(env, codec, bestEffort, files, u.actionId, r, timeNanos, NO_FAULTS);
            if Serial.Missed(codec, u, UpsertedId(codec, db, u.content, newId), after)
            then result == Miss && files' == files
            else SavedFor(env, codec, bestEffort, u, result, files')
  {
    var db := Serial.Run(codec, EMPTY_DB, before);
    var newId := db.nextBlobId + skipped;
    Serial.PutThenGet(codec, contents, before, u, skipped, now, after, true);
    var r := Serial.Get(codec, Serial.Run(codec, Serial.Put(codec, db, u, newId, now), after), u.actionId, true);
    if !Serial.Missed(codec, u, UpsertedId(codec, db, u.content, newId), after) {
      FaithfulAnswerIsSaved(env, codec, bestEffort, files, u, r, timeNanos);
    }
  }

  /** The upload is found and on the disk, and every later Get gives the same, whatever the server says. */
  ghost predicate SavedFor(env: DiskCrash.Env, codec: Codec, bestEffort: bool, u: Upload,
                           result: ClientResult, files: map<string, Bytes>)
  {
    var path := OutputFilename(env.dir, u.outputId);
    && result == Found(u.outputId, path)
    && path in files && files[path] == u.content
    && forall r, time :: AfterGet(env, codec, bestEffort, files, u.actionId, r, time, NO_FAULTS) == (result, files)
  }

  /** A faithful answer ends up on the disk, from where the next Get takes it. */
  lemma FaithfulAnswerIsSaved(env: DiskCrash.Env, codec: Codec, bestEffort: bool, files: map<string, Bytes>, u: Upload,
                              r: Response, timeNanos: int)
    requires Faithful(codec, u, true, r) && Hex.ValidClientId(u.actionId) && Hex.ValidClientId(u.outputId)
    requires DiskCrash.RoundTrips(env.json) && DiskCrash.Get(env, files, u.actionId) == DiskCrash.Miss
    ensures var (result, files') := AfterGet(env, codec, bestEffort, files, u.actionId, r, timeNanos, NO_FAULTS);
            SavedFor(env, codec, bestEffort, u, result, files')
  {
    DownloadIsUpload(codec, u, r, timeNanos);
    var p := PutArgs(u.actionId, u.outputId, |u.content|, Reader(u.content, false), timeNanos, false);
    PutPutsGet(env, files, p, []);
  }
}

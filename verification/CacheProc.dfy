/** The handlers of the cache process, over the local disk cache. */
module CacheProc {
  import opened Basics
  import opened DiskNames
  import opened DiskCaching
  import opened Wire
  import DiskCrash
  import Hex

  /** What Process.Get returns. */
  datatype Answer = Answer(outputId: string, diskPath: string, failed: bool)

  function AnswerOf(r: DiskCrash.GetResult): Answer {
    match r
    case Error => Answer("", "", true)
    case Miss => Answer("", "", false)
    case Hit(outputId, diskPath) => Answer(outputId, diskPath, false)
  }

  /** What hex.DecodeString returns beside an error: the pairs before the first bad one. */
  function DecodedPrefix(s: string): Bytes {
    if |s| < 2 || Hex.Parse(s[..2]) == None then [] else Hex.Parse(s[..2]).value + DecodedPrefix(s[2..])
  }

  /** What os.Stat finds at a path, if there is anything: a regular file with its modification time,
      something else, or an error other than that it does not exist. */
  datatype Stat = Regular(modTime: int) | Irregular | StatFails

  function ResultOfGet(answer: Answer, files: map<string, Bytes>, stat: Stat): Result {
    if answer.failed then ERROR
    else if answer.outputId == "" && answer.diskPath == "" then MISS
    else if answer.outputId == "" then ERROR
    else
      match Hex.Parse(answer.outputId)
      case None => ERROR.(outputId := DecodedPrefix(answer.outputId))
      case Some(outputId) =>
        if stat.StatFails? then ERROR.(outputId := outputId)
        else if answer.diskPath !in files then MISS.(outputId := outputId)
        else if stat.Irregular? then ERROR.(outputId := outputId)
        else DONE.(outputId := outputId, size := |files[answer.diskPath]|, timeNanos := stat.modTime,
                  diskPath := answer.diskPath)
  }

  function BodyOf(req: Request): Bytes {
    if req.body.Some? then req.body.value else []
  }

  function PutArgsOf(req: Request, timeNanos: int, faults: DiskFaults): PutArgs {
    PutArgs(Hex.Print(req.actionId), Hex.Print(req.outputId), req.bodySize, Reader(BodyOf(req), faults.copy), timeNanos,
            faults.index)
  }

  /** statFails is an error of os.Stat after the Put. */
  function ResultOfPut(dir: string, req: Request, faults: DiskFaults, statFails: bool): Result {
    var p := PutArgsOf(req, 0, faults);
    if PutSucceeds(p) && !statFails then DONE.(diskPath := OutputFilename(dir, p.outputId)) else ERROR
  }

  function ResultOfGetRequest(env: DiskCrash.Env, files: map<string, Bytes>, req: Request, readFails: bool, stat: Stat)
    : Result
  {
    ResultOfGet(AnswerOf(Looked(env, files, Hex.Print(req.actionId), readFails)), files, stat)
  }

  class Process {
    const cache: DiskCache
    const hasGet: bool   // whether the functions Get and Put are set; they are those of cache
    const hasPut: bool

    var gets: nat
    var getHits: nat
    var getMisses: nat
    var getErrors: nat
    var puts: nat
    var putErrors: nat

    constructor (cache: DiskCache, hasGet: bool, hasPut: bool)
      ensures this.cache == cache && this.hasGet == hasGet && this.hasPut == hasPut
      ensures gets == getHits == getMisses == getErrors == puts == putErrors == 0
    {
      this.cache, this.hasGet, this.hasPut := cache, hasGet, hasPut;
      gets, getHits, getMisses, getErrors, puts, putErrors := 0, 0, 0, 0, 0, 0;
    }

    method HandleGet(req: Request, readFails: bool, stat: Stat) returns (res: Response)
      modifies this`gets, this`getHits, this`getMisses, this`getErrors
      ensures res.id == req.id
      ensures res.result ==
                if hasGet then ResultOfGetRequest(cache.TheEnv(), cache.files, req, readFails, stat) else MISS
      ensures gets == old(gets) + 1
      ensures getErrors == old(getErrors) + if res.result.failed then 1 else 0
      ensures getMisses == old(getMisses) + if !res.result.failed && res.result.miss then 1 else 0
      ensures getHits == old(getHits) + if !res.result.failed && !res.result.miss then 1 else 0
      ensures gets - getHits - getMisses - getErrors == old(gets - getHits - getMisses - getErrors)
    {
      gets := gets + 1;
      var result := Lookup(req, readFails, stat);
      res := Response(req.id, result);
      if result.failed {
        getErrors := getErrors + 1;
      } else if result.miss {
        getMisses := getMisses + 1;
      } else {
        getHits := getHits + 1;
      }
    }

    method Lookup(req: Request, readFails: bool, stat: Stat) returns (res: Result)
      ensures res == if hasGet then ResultOfGetRequest(cache.TheEnv(), cache.files, req, readFails, stat) else MISS
    {
      if !hasGet {
        return MISS;
      }
      var found := cache.Get(Hex.Print(req.actionId), readFails);
      var answer := AnswerOf(found);
      if answer.failed {
        return ERROR;
      }
      if answer.outputId == "" && answer.diskPath == "" {
        return MISS;
      }
      if answer.outputId == "" {
        return ERROR;
      }
      var outputId := Hex.Parse(answer.outputId);
      if outputId == None {
        return ERROR.(outputId := DecodedPrefix(answer.outputId));
      }
      res := DONE.(outputId := outputId.value);
      if stat.StatFails? {
        return res.(failed := true);
      }
      if answer.diskPath !in cache.files {
        return res.(miss := true);
      }
      if stat.Irregular? {
        return res.(failed := true);
      }
      res := res.(size := |cache.files[answer.diskPath]|, timeNanos := stat.modTime, diskPath := answer.diskPath);
    }

    method HandlePut(req: Request, timeNanos: int, faults: DiskFaults, statFails: bool, suffix: string, suffix': string)
      returns (res: Response)
      requires var p := PutArgsOf(req, timeNanos, faults);
               ValidIds(p) ==>
                 && TempName(OutputFilename(cache.dir, p.outputId), suffix) !in cache.files
                 && TempName(ActionFilename(cache.dir, p.actionId), suffix') !in cache.files
      modifies this`puts, this`putErrors, cache`files
      ensures res == Response(req.id, if hasPut then ResultOfPut(cache.dir, req, faults, statFails) else DONE)
      ensures cache.files ==
                if hasPut then FilesAfterPut(cache.TheEnv(), old(cache.files), PutArgsOf(req, timeNanos, faults))
                else old(cache.files)
      ensures puts == old(puts) + 1
      ensures putErrors == old(putErrors) + if res.result.failed then 1 else 0
    {
      puts := puts + 1;
      if !hasPut {
        return Response(req.id, DONE);
      }
      var p := PutArgsOf(req, timeNanos, faults);
      var diskPath := cache.Put(p, suffix, suffix');
      if diskPath.Some? && !statFails {
        PutMakesAnswer(cache.TheEnv(), old(cache.files), p);
        if diskPath.value in cache.files && |cache.files[diskPath.value]| == req.bodySize {
          return Response(req.id, DONE.(diskPath := diskPath.value));
        }
      }
      putErrors := putErrors + 1;
      return Response(req.id, ERROR);
    }
  }

  // ---- The three kinds of answer to a get ----

  /** When the index names an output of even length, the file decides. */
  predicate Indexed(found: DiskCrash.GetResult) {
    found.Hit? && |found.outputId| % 2 == 0
  }

  /** A get fails exactly for an ID that the disk cache rejects, an index that cannot be read, an indexed
      output ID of odd length, or an indexed path where os.Stat fails or finds no regular file; it is a hit
      exactly when the indexed file is there, and a miss otherwise. A hit says which output it is, and the
      size, time and path of its file. */
  lemma GetSorts(env: DiskCrash.Env, files: map<string, Bytes>, req: Request, readFails: bool, stat: Stat)
    ensures var r := ResultOfGetRequest(env, files, req, readFails, stat);
            var found := Looked(env, files, Hex.Print(req.actionId), readFails);
            && (r.failed <==>
                  || !(2 <= |req.actionId| <= 50)
                  || readFails
                  || (found.Hit? && |found.outputId| % 2 == 1)
                  || (Indexed(found) && (stat.StatFails? || (found.diskPath in files && stat.Irregular?))))
            && (!r.failed && !r.miss <==> Indexed(found) && found.diskPath in files && stat.Regular?)
            && (!r.failed && !r.miss ==>
                  && Hex.Print(r.outputId) == found.outputId
                  && r.diskPath == found.diskPath && r.size == |files[found.diskPath]| && r.timeNanos == stat.modTime)
  {
    var found := Looked(env, files, Hex.Print(req.actionId), readFails);
    if found.Hit? {
      Hex.ParseThenPrint(found.outputId);
    }
  }

  /** What an error of parsing leaves: all pairs of an ID of lower-case digits but the last digit of an odd one. */
  lemma {:induction false} DecodedPrefixMeans(s: string)
    requires Hex.AllLowerHex(s)
    ensures Hex.Print(DecodedPrefix(s)) == s[..|s| - |s| % 2]
  {
    if |s| >= 2 {
      var two, rest := s[..2], s[2..];
      DecodedPrefixMeans(rest);
      EvenPrefix(s);
      var b := PairOf(two);
      PairAndRest(b, two, rest);
      assert s == two + rest;
    }
  }

  lemma EvenPrefix(s: string)
    requires |s| >= 2
    ensures s[..|s| - |s| % 2] == s[..2] + s[2..][..|s[2..]| - |s[2..]| % 2]
  {
  }

  lemma PairOf(two: string) returns (b: Byte)
    requires |two| == 2 && Hex.AllLowerHex(two)
    ensures Hex.Parse(two) == Some([b]) && Hex.Print([b]) == two
  {
    Hex.ParseThenPrint(two);
    b := Hex.Parse(two).value[0];
    assert Hex.Parse(two).value == [b];
  }

  lemma PairAndRest(b: Byte, two: string, rest: string)
    requires |two| == 2 && Hex.Parse(two) == Some([b]) && Hex.Print([b]) == two
    ensures Hex.Print(DecodedPrefix(two + rest)) == two + Hex.Print(DecodedPrefix(rest))
  {
    assert (two + rest)[..2] == two && (two + rest)[2..] == rest;
    Hex.PrintOneMore(b, []);
    Hex.PrintOneMore(b, DecodedPrefix(rest));
  }

  // ---- Put, other puts, get ----

  /** A put succeeds exactly when its IDs have 2 to 50 bytes, its body has the declared size, and no file
      system error comes in between. */
  lemma PutSucceedsExactly(dir: string, req: Request, faults: DiskFaults, statFails: bool)
    ensures !ResultOfPut(dir, req, faults, statFails).failed <==>
              && 2 <= |req.actionId| <= 50 && 2 <= |req.outputId| <= 50
              && req.bodySize == (if req.body.Some? then |req.body.value| else 0)
              && !faults.copy && !faults.index && !statFails
  {
  }

  /** And then the body is on the disk under its ID, and the index of the action names it, its size and the
      time. Any other put leaves the index as it was. */
  lemma PutWritesIndex(env: DiskCrash.Env, files: map<string, Bytes>, req: Request, timeNanos: int, faults: DiskFaults)
    requires DiskCrash.RoundTrips(env.json) && 2 <= |req.actionId| <= 50 && 2 <= |req.outputId| <= 50
    ensures var now := FilesAfterPut(env, files, PutArgsOf(req, timeNanos, faults));
            var out, act := OutputFilename(env.dir, Hex.Print(req.outputId)),
                            ActionFilename(env.dir, Hex.Print(req.actionId));
            if !ResultOfPut(env.dir, req, faults, false).failed then
              && out in now && now[out] == (if req.body.Some? then req.body.value else [])
              && act in now
              && env.json.decode(now[act]) ==
                   Some(DiskCrash.IndexEntry(1, Hex.Print(req.outputId), req.bodySize, timeNanos))
            else
              (act in now <==> act in files) && (act in files ==> now[act] == files[act])
  {
    PutTouchesOnlyItsFiles(env, files, PutArgsOf(req, timeNanos, faults));
  }

  /** Another put that leaves the answer to req alone: for another action, and one content per output. */
  predicate Unrelated(req: Request, other: Request) {
    other.actionId != req.actionId && (other.outputId == req.outputId ==> BodyOf(other) == BodyOf(req))
  }

  /** Later puts, with the times and the faults that each of them runs into. */
  function PutArgsOfAll(reqs: seq<Request>, time: nat -> int, faults: nat -> DiskFaults): seq<PutArgs> {
    seq(|reqs|, i requires 0 <= i < |reqs| => PutArgsOf(reqs[i], time(i), faults(i)))
  }

  lemma UnrelatedLeavesAlone(req: Request, other: Request, timeNanos: int, timeNanos': int,
                             faults: DiskFaults, faults': DiskFaults)
    requires Unrelated(req, other)
    ensures LeavesAlone(PutArgsOf(req, timeNanos, faults), PutArgsOf(other, timeNanos', faults'))
  {
    if Hex.Print(other.actionId) == Hex.Print(req.actionId) {
      Hex.PrintIsInjective(other.actionId, req.actionId);
    }
    if Hex.Print(other.outputId) == Hex.Print(req.outputId) {
      Hex.PrintIsInjective(other.outputId, req.outputId);
    }
  }

  /** A put that succeeds, then any number of other puts, failing ones included, then a get of the same
      action: the original output ID as bytes, the size of the body, and the path the put had answered,
      which still has the body. */
  lemma PutThenGet(env: DiskCrash.Env, files: map<string, Bytes>, put: Request, timeNanos: int, faults: DiskFaults,
                   others: seq<Request>, time: nat -> int, theirFaults: nat -> DiskFaults, get: Request, modTime: int)
    requires DiskCrash.RoundTrips(env.json) && get.actionId == put.actionId
    requires !ResultOfPut(env.dir, put, faults, false).failed && forall other | other in others :: Unrelated(put, other)
    ensures var p, ps := PutArgsOf(put, timeNanos, faults), PutArgsOfAll(others, time, theirFaults);
            var now := FilesAfterPuts(env, FilesAfterPut(env, files, p), ps);
            var path := ResultOfPut(env.dir, put, faults, false).diskPath;
            && ResultOfGetRequest(env, now, get, false, Regular(modTime))
               == Result(false, false, put.outputId, put.bodySize, modTime, path)
            && path in now && now[path] == if put.body.Some? then put.body.value else []
  {
    var p, ps := PutArgsOf(put, timeNanos, faults), PutArgsOfAll(others, time, theirFaults);
    forall q | q in ps
      ensures LeavesAlone(p, q)
    {
      var i :| 0 <= i < |ps| && ps[i] == q;
      assert others[i] in others;
      UnrelatedLeavesAlone(put, others[i], timeNanos, time(i), faults, theirFaults(i));
    }
    PutPutsGet(env, files, p, ps);
    Hex.PrintThenParse(put.outputId);
  }
}

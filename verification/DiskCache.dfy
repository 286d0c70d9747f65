/** The client's disk cache on Unix, one call at a time. */
module DiskCaching {
  import opened Basics
  import opened Hex
  import opened DiskNames
  import opened DiskCrash

  /** What a reader delivers: bytes, and then the end or an error. */
  datatype Reader = Reader(data: Bytes, fails: bool)

  /** Errors of the file system: reading an index other than that it does not exist, copying a body, and
      writing an index. */
  datatype DiskFaults = DiskFaults(read: bool, copy: bool, index: bool)

  const NO_FAULTS := DiskFaults(false, false, false)

  /** One Put: its arguments, the time it runs at, and whether writing its index fails. A file system error
      while the output is written counts as one of the reader: both leave no trace. */
  datatype PutArgs = PutArgs(actionId: string, outputId: string, size: int, body: Reader, timeNanos: int,
                             indexFails: bool)

  function IndexFor(json: Json, p: PutArgs): Bytes {
    json.encode(IndexEntry(1, p.outputId, p.size, p.timeNanos))
  }

  predicate ValidIds(p: PutArgs) {
    ValidClientId(p.actionId) && ValidClientId(p.outputId)
  }

  predicate PutSucceeds(p: PutArgs) {
    ValidIds(p) && !p.body.fails && |p.body.data| == p.size && !p.indexFails
  }

  /** The files after a Put; the output is in place before the size check. */
  function FilesAfterPut(env: Env, files: map<string, Bytes>, p: PutArgs): map<string, Bytes> {
    if !ValidIds(p) || p.body.fails then files
    else
      var files1 := files[OutputFilename(env.dir, p.outputId) := p.body.data];
      if |p.body.data| != p.size || p.indexFails then files1
      else files1[ActionFilename(env.dir, p.actionId) := IndexFor(env.json, p)]
  }

  /** What a Get returns, if the index can be read or not. */
  function Looked(env: Env, files: map<string, Bytes>, actionId: string, readFails: bool): GetResult {
    if readFails then GetResult.Error else DiskCrash.Get(env, files, actionId)
  }

  class DiskCache {
    const dir: string
    const json: Json
    ghost const content: string -> Bytes
    var files: map<string, Bytes>

    ghost function TheEnv(): Env {
      Env(dir, json, content)
    }

    constructor (dir: string, json: Json, ghost content: string -> Bytes)
      ensures this.dir == dir && this.json == json && this.content == content && files == map[]
    {
      this.dir, this.json, this.content, files := dir, json, content, map[];
    }

    /** Create a temporary file, copy, close, rename; any error removes the temporary file. */
    method WriteAtomic(dest: string, r: Reader, suffix: string) returns (size: Option<nat>)
      requires TempName(dest, suffix) !in files
      modifies this`files
      ensures size == if r.fails then None else Some(|r.data|)
      ensures files == if r.fails then old(files) else old(files)[dest := r.data]
    {
      var temp := TempName(dest, suffix);
      assert |temp| > |dest|;
      files := files[temp := []];
      files := files[temp := files[temp] + r.data];
      if r.fails {
        files := files - {temp};
        return None;
      }
      files := (files - {temp})[dest := files[temp]];
      assert files[dest] == r.data;
      return Some(|r.data|);
    }

    method Put(p: PutArgs, suffix: string, suffix': string) returns (diskPath: Option<string>)
      requires ValidIds(p) ==> TempName(OutputFilename(dir, p.outputId), suffix) !in files
      requires ValidIds(p) ==> TempName(ActionFilename(dir, p.actionId), suffix') !in files
      modifies this`files
      ensures diskPath == if PutSucceeds(p) then Some(OutputFilename(dir, p.outputId)) else None
      ensures files == FilesAfterPut(TheEnv(), old(files), p)
    {
      if |p.actionId| < 4 || |p.outputId| < 4 {
        return None;
      }
      if !ValidClientId(p.actionId) || !ValidClientId(p.outputId) {
        return None;
      }
      var actionFile := ActionFilename(dir, p.actionId);
      var outputFile := OutputFilename(dir, p.outputId);
      var wrote := WriteAtomic(outputFile, p.body, suffix);
      if wrote.None? || wrote.value != p.size {
        return None;
      }
      TempNamesAreApart(dir, 'a', p.actionId, suffix', 'o', p.outputId);
      var index := WriteAtomic(actionFile, Reader(IndexFor(json, p), p.indexFails), suffix');
      return if index.Some? then Some(outputFile) else None;
    }

    method Get(actionId: string, readFails: bool) returns (r: GetResult)
      ensures r == Looked(TheEnv(), files, actionId, readFails)
    {
      if !ValidClientId(actionId) {
        return Error;
      }
      var actionFile := ActionFilename(dir, actionId);
      if readFails {
        return Error;
      }
      if actionFile !in files {
        return Miss;
      }
      match json.decode(files[actionFile])
      case None => return Miss;
      case Some(ie) =>
        if !ValidClientId(ie.outputId) {
          return Miss;
        }
        return Hit(ie.outputId, OutputFilename(dir, ie.outputId));
    }
  }

  /** A Put keeps the promise of output files, from a directory that keeps it, exactly when its reader
      fails or delivers the content of the output ID: the size is checked only after the rename. */
  lemma PutKeepsOutputs(env: Env, files: map<string, Bytes>, p: PutArgs)
    requires OutputsOk(env, files) && ValidIds(p)
    ensures OutputsOk(env, FilesAfterPut(env, files, p)) <==> p.body.fails || p.body.data == env.content(p.outputId)
  {
    var out := OutputFilename(env.dir, p.outputId);
    if ActionFilename(env.dir, p.actionId) == out {
      FilenameIsInjective(env.dir, 'a', p.actionId, 'o', p.outputId);
    }
    forall o: string | ValidClientId(o)
      ensures OutputFilename(env.dir, o) == out ==> o == p.outputId
      ensures OutputFilename(env.dir, o) != ActionFilename(env.dir, p.actionId)
    {
      if OutputFilename(env.dir, o) == out {
        FilenameIsInjective(env.dir, 'o', o, 'o', p.outputId);
      }
      if OutputFilename(env.dir, o) == ActionFilename(env.dir, p.actionId) {
        FilenameIsInjective(env.dir, 'o', o, 'a', p.actionId);
      }
    }
  }

  /** A Put changes no file but those of its output and its action, and the latter only if it succeeds; then
      that holds exactly its index entry. */
  lemma PutTouchesOnlyItsFiles(env: Env, files: map<string, Bytes>, p: PutArgs)
    requires RoundTrips(env.json) && ValidIds(p)
    ensures var now := FilesAfterPut(env, files, p);
            var out, act := OutputFilename(env.dir, p.outputId), ActionFilename(env.dir, p.actionId);
            && out != act && now - {out, act} == files - {out, act}
            && (p.body.fails ==> now == files)
            && (!PutSucceeds(p) ==> (act in now <==> act in files) && (act in files ==> now[act] == files[act]))
            && (PutSucceeds(p) ==>
                  act in now && env.json.decode(now[act]) == Some(IndexEntry(1, p.outputId, p.size, p.timeNanos)))
  {
    if ActionFilename(env.dir, p.actionId) == OutputFilename(env.dir, p.outputId) {
      FilenameIsInjective(env.dir, 'a', p.actionId, 'o', p.outputId);
    }
  }

  // ---- Put, other Puts, Get ----

  function FilesAfterPuts(env: Env, files: map<string, Bytes>, ps: seq<PutArgs>): map<string, Bytes> {
    if ps == [] then files
    else FilesAfterPut(env, FilesAfterPuts(env, files, ps[..|ps| - 1]), ps[|ps| - 1])
  }

  /** Another Put that leaves the answer for p alone: to another action, and with p's content if it is to
      p's output and delivers anything at all. */
  predicate LeavesAlone(p: PutArgs, other: PutArgs) {
    && other.actionId != p.actionId
    && (other.outputId == p.outputId ==> other.body.fails || other.body.data == p.body.data)
  }

  predicate Answers(env: Env, files: map<string, Bytes>, p: PutArgs)
    requires ValidIds(p)
  {
    && ActionFilename(env.dir, p.actionId) in files
    && files[ActionFilename(env.dir, p.actionId)] == IndexFor(env.json, p)
    && OutputFilename(env.dir, p.outputId) in files
    && files[OutputFilename(env.dir, p.outputId)] == p.body.data
  }

  lemma PutMakesAnswer(env: Env, files: map<string, Bytes>, p: PutArgs)
    requires PutSucceeds(p)
    ensures Answers(env, FilesAfterPut(env, files, p), p)
  {
    if ActionFilename(env.dir, p.actionId) == OutputFilename(env.dir, p.outputId) {
      FilenameIsInjective(env.dir, 'a', p.actionId, 'o', p.outputId);
    }
  }

  lemma OtherPutKeepsAnswer(env: Env, files: map<string, Bytes>, p: PutArgs, other: PutArgs)
    requires ValidIds(p) && Answers(env, files, p) && LeavesAlone(p, other)
    ensures Answers(env, FilesAfterPut(env, files, other), p)
  {
    if ValidIds(other) {
      FourNamesApart(env.dir, p, other);
    }
  }

  lemma FourNamesApart(dir: string, p: PutArgs, other: PutArgs)
    requires ValidIds(p) && ValidIds(other) && other.actionId != p.actionId
    ensures ActionFilename(dir, other.actionId) != ActionFilename(dir, p.actionId)
    ensures ActionFilename(dir, other.actionId) != OutputFilename(dir, p.outputId)
    ensures OutputFilename(dir, other.outputId) != ActionFilename(dir, p.actionId)
    ensures OutputFilename(dir, other.outputId) == OutputFilename(dir, p.outputId) ==> other.outputId == p.outputId
  {
    FilenameParts(dir, 'a', p.actionId);
    FilenameParts(dir, 'o', p.outputId);
    FilenameParts(dir, 'a', other.actionId);
    FilenameParts(dir, 'o', other.outputId);
  }

  lemma {:induction false} PutsKeepAnswer(env: Env, files: map<string, Bytes>, p: PutArgs, ps: seq<PutArgs>)
    requires ValidIds(p) && Answers(env, files, p) && forall other | other in ps :: LeavesAlone(p, other)
    ensures Answers(env, FilesAfterPuts(env, files, ps), p)
  {
    if ps != [] {
      PutsKeepAnswer(env, files, p, ps[..|ps| - 1]);
      OtherPutKeepsAnswer(env, FilesAfterPuts(env, files, ps[..|ps| - 1]), p, ps[|ps| - 1]);
    }
  }

  /** Put, then any number of other Puts, then Get: the same output ID, the same path, the same bytes. */
  lemma PutPutsGet(env: Env, files: map<string, Bytes>, p: PutArgs, ps: seq<PutArgs>)
    requires RoundTrips(env.json) && PutSucceeds(p) && forall other | other in ps :: LeavesAlone(p, other)
    ensures var now := FilesAfterPuts(env, FilesAfterPut(env, files, p), ps);
            var path := OutputFilename(env.dir, p.outputId);
            && DiskCrash.Get(env, now, p.actionId) == Hit(p.outputId, path)
            && path in now && now[path] == p.body.data
  {
    PutMakesAnswer(env, files, p);
    PutsKeepAnswer(env, FilesAfterPut(env, files, p), p, ps);
  }
}

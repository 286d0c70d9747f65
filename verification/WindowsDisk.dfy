/** The Windows flavour of the disk cache: files are overwritten in place and truncated afterwards. */
module WindowsDisk {
  import opened Basics
  import opened Hex
  import opened DiskNames
  import opened DiskCaching
  import DiskCrash

  // ---- Byte-level file operations ----

  /** Writing data at an offset inside a file, or right at its end. */
  function WriteAt(file: Bytes, offset: nat, data: Bytes): Bytes
    requires offset <= |file|
  {
    file[..offset] + data + (if offset + |data| < |file| then file[offset + |data|..] else [])
  }

  function Truncate(file: Bytes, size: nat): Bytes {
    if size <= |file| then file[..size] else file + seq(size - |file|, i => 0 as Byte)
  }

  /** What both leave of the old file, byte by byte, with zeros for the bytes that never were. */
  lemma WriteThenTruncate(file: Bytes, offset: nat, data: Bytes, size: nat)
    requires offset <= |file|
    ensures var after := Truncate(WriteAt(file, offset, data), size);
            |after| == size && forall i | 0 <= i < size ::
              after[i] == if offset <= i < offset + |data| then data[i - offset] else if i < |file| then file[i] else 0
  {
    assert forall i | 0 <= i < |WriteAt(file, offset, data)| ::
             offset <= i < offset + |data| ==> WriteAt(file, offset, data)[i] == data[i - offset];
  }

  // ---- writeActionFile: any number of writers of the same bytes ----

  datatype Writer = Opened(offset: nat) | Truncated | Closed

  /** The one action file, None while it does not exist, and its writers. */
  datatype State = State(file: Option<Bytes>, writers: map<nat, Writer>)

  datatype Event =
    | Open(w: nat)                 // O_WRONLY|O_CREATE: existing content stays
    | Write(w: nat, n: nat)        // the next n bytes, at the writer's own offset
    | Cut(w: nat)                  // Truncate(len(b)), once everything is written
    | Close(w: nat)

  function Next(b: Bytes, s: State, e: Event): State {
    match e
    case Open(w) =>
      if w in s.writers then s
      else State(if s.file == None then Some([]) else s.file, s.writers[w := Opened(0)])
    case Write(w, n) =>
      if w in s.writers && s.writers[w].Opened? && s.writers[w].offset + n <= |b| && s.file.Some?
         && s.writers[w].offset <= |s.file.value| then
        var offset := s.writers[w].offset;
        State(Some(WriteAt(s.file.value, offset, b[offset..offset + n])), s.writers[w := Opened(offset + n)])
      else s
    case Cut(w) =>
      if w in s.writers && s.writers[w] == Opened(|b|) && s.file.Some?
      then State(Some(Truncate(s.file.value, |b|)), s.writers[w := Truncated]) else s
    case Close(w) =>
      if w in s.writers && s.writers[w].Truncated? then s.(writers := s.writers[w := Closed]) else s
  }

  function Run(b: Bytes, s: State, events: seq<Event>): State {
    if events == [] then s else Next(b, Run(b, s, events[..|events| - 1]), events[|events| - 1])
  }

  /** What each writer has written is there, and after the first truncation the file is b. */
  ghost predicate WritersOk(b: Bytes, s: State) {
    && (forall w | w in s.writers && s.writers[w].Opened? ::
          && s.file.Some?
          && s.writers[w].offset <= |b| && s.writers[w].offset <= |s.file.value|
          && s.file.value[..s.writers[w].offset] == b[..s.writers[w].offset])
    && (forall w | w in s.writers && !s.writers[w].Opened? :: s.file == Some(b))
  }

  lemma WriteKeepsWritten(file: Bytes, b: Bytes, offset: nat, n: nat, other: nat)
    requires offset <= |file| && offset + n <= |b| && file[..offset] == b[..offset]
    requires other <= |file| && other <= |b| && file[..other] == b[..other]
    ensures var after := WriteAt(file, offset, b[offset..offset + n]);
            && offset + n <= |after| && after[..offset + n] == b[..offset + n]
            && other <= |after| && after[..other] == b[..other]
  {
    var after := WriteAt(file, offset, b[offset..offset + n]);
    forall i | 0 <= i < other
      ensures after[i] == b[i]
    {
      assert i < offset ==> file[..offset][i] == b[..offset][i];
      assert file[..other][i] == b[..other][i];
    }
  }

  lemma WriteIsIdempotent(b: Bytes, offset: nat, n: nat)
    requires offset + n <= |b|
    ensures WriteAt(b, offset, b[offset..offset + n]) == b
  {
  }

  lemma NextKeepsWritersOk(b: Bytes, s: State, e: Event)
    requires WritersOk(b, s)
    ensures WritersOk(b, Next(b, s, e))
  {
    if e.Write? && Next(b, s, e) != s {
      var offset := s.writers[e.w].offset;
      forall w | w in s.writers && s.writers[w].Opened?
        ensures var after := WriteAt(s.file.value, offset, b[offset..offset + e.n]);
                && offset + e.n <= |after| && after[..offset + e.n] == b[..offset + e.n]
                && s.writers[w].offset <= |after| && after[..s.writers[w].offset] == b[..s.writers[w].offset]
      {
        WriteKeepsWritten(s.file.value, b, offset, e.n, s.writers[w].offset);
      }
      WriteIsIdempotent(b, offset, e.n);
    } else if e.Cut? && Next(b, s, e) != s {
      assert b[..|b|] == b;
    }
  }

  lemma {:induction false} RunKeepsWritersOk(b: Bytes, file: Option<Bytes>, events: seq<Event>)
    ensures WritersOk(b, Run(b, State(file, map[]), events))
  {
    if events != [] {
      RunKeepsWritersOk(b, file, events[..|events| - 1]);
      NextKeepsWritersOk(b, Run(b, State(file, map[]), events[..|events| - 1]), events[|events| - 1]);
    }
  }

  /** From whatever older content, absent, shorter or longer: once every writer has finished, and there
      was at least one, the file is exactly the bytes; in fact one finished writer is enough. */
  lemma FinishedWritersLeaveExactBytes(b: Bytes, file: Option<Bytes>, events: seq<Event>)
    ensures var s := Run(b, State(file, map[]), events);
            (exists w :: w in s.writers && s.writers[w].Closed?) ==> s.file == Some(b)
  {
    RunKeepsWritersOk(b, file, events);
  }

  /** A file that already holds the bytes holds them at every intermediate step of every interleaving. */
  lemma {:induction false} RewritingIsInvisible(b: Bytes, events: seq<Event>)
    ensures Run(b, State(Some(b), map[]), events).file == Some(b)
  {
    if events != [] {
      var before, e := events[..|events| - 1], events[|events| - 1];
      var s := Run(b, State(Some(b), map[]), before);
      RewritingIsInvisible(b, before);
      RunKeepsWritersOk(b, Some(b), before);
      if e.Write? && Next(b, s, e) != s {
        WriteIsIdempotent(b, s.writers[e.w].offset, e.n);
      } else if e.Cut? {
        assert b[..|b|] == b;
      }
    }
  }

  // ---- Put, single writer ----

  class WindowsDiskCache {
    const dir: string
    const json: DiskCrash.Json
    const sha256: Bytes -> string
    var files: map<string, Bytes>

    constructor (dir: string, json: DiskCrash.Json, sha256: Bytes -> string)
      ensures this.dir == dir && this.json == json && this.sha256 == sha256 && files == map[]
    {
      this.dir, this.json, this.sha256, files := dir, json, sha256, map[];
    }

    /** io.Copy of data into a file that is open at offset 0, in pieces of at most step bytes. */
    method CopyInto(dest: string, data: Bytes, step: nat)
      requires dest in files && step > 0
      modifies this`files
      ensures files == old(files)[dest := WriteAt(old(files[dest]), 0, data)]
    {
      ghost var was := files[dest];
      var offset := 0;
      assert WriteAt(was, 0, data[..0]) == was;
      while offset < |data|
        invariant offset <= |data| && files == old(files)[dest := WriteAt(was, 0, data[..offset])]
        decreases |data| - offset
      {
        var n := Min(step, |data| - offset);
        assert data[..offset] + data[offset..offset + n] == data[..offset + n];
        assert WriteAt(files[dest], offset, data[offset..offset + n]) == WriteAt(was, 0, data[..offset + n]);
        files := files[dest := WriteAt(files[dest], offset, data[offset..offset + n])];
        offset := offset + n;
      }
      assert data[..|data|] == data;
    }

    method WriteOutputFile(dest: string, r: Reader, size: int, outputId: string, f: OutputFaults, step: nat)
      returns (wrote: Option<nat>)
      requires step > 0
      modifies this`files
      ensures (wrote, files) == AfterWriteOutput(sha256, old(files), dest, r, size, outputId, f)
    {
      var known := dest in files && !f.stat;
      if known && |files[dest]| == size && !f.check {
        if sha256(files[dest]) == outputId {
          return if r.fails then None else Some(|r.data|);
        }
      }
      if f.open {
        return None;
      }
      if known && |files[dest]| > size {
        files := files[dest := []];
      } else if dest !in files {
        files := files[dest := []];
      }
      ghost var base := files[dest];
      CopyInto(dest, r.data, step);
      assert files == old(files)[dest := WriteAt(base, 0, r.data)];
      if r.fails || sha256(r.data) != outputId || f.close {
        assert files - {dest} == old(files) - {dest};
        files := files - {dest};
        return None;
      }
      return Some(|r.data|);
    }

    method WriteActionFile(dest: string, b: Bytes, fault: IndexFault, step: nat) returns (ok: bool)
      requires step > 0
      modifies this`files
      ensures ok <==> fault.NoFault?
      ensures files == AfterWriteAction(old(files), dest, b, fault)
    {
      if fault.OpenFails? {
        return false;
      }
      if dest !in files {
        files := files[dest := []];
      }
      CopyInto(dest, b, step);
      if fault.LaterFails? {
        assert files - {dest} == old(files) - {dest};
        files := files - {dest};
        return false;
      }
      files := files[dest := Truncate(files[dest], |b|)];
      assert files[dest] == b;
      return true;
    }

    method Put(p: PutArgs, f: OutputFaults, fault: IndexFault, step: nat) returns (diskPath: Option<string>)
      requires step > 0
      modifies this`files
      ensures diskPath == if Succeeds(sha256, dir, old(files), p, f, fault) then Some(OutputFilename(dir, p.outputId))
                          else None
      ensures files == FilesAfterWindowsPut(sha256, dir, json, old(files), p, f, fault)
    {
      if !ValidClientId(p.actionId) || !ValidClientId(p.outputId) {
        return None;
      }
      var outputFile := OutputFilename(dir, p.outputId);
      var wrote := WriteOutputFile(outputFile, p.body, p.size, p.outputId, f, step);
      if wrote.None? || wrote.value != p.size {
        return None;
      }
      var ok := WriteActionFile(ActionFilename(dir, p.actionId), IndexFor(json, p), fault, step);
      return if ok then Some(outputFile) else None;
    }
  }

  /** Errors around the output file: of os.Stat on a file that may exist all the same, of opening it to
      check its hash, of opening it to write, and of closing it. One of writing counts as one of the reader. */
  datatype OutputFaults = OutputFaults(stat: bool, check: bool, open: bool, close: bool)

  /** Errors around the action file; after opening it, they remove it. */
  datatype IndexFault = NoFault | OpenFails | LaterFails

  /** The file is found with the right size and hash, so only the reader is drained. */
  predicate AlreadyThere(sha256: Bytes -> string, files: map<string, Bytes>, dest: string, p: PutArgs, f: OutputFaults)
  {
    !f.stat && !f.check && dest in files && |files[dest]| == p.size && sha256(files[dest]) == p.outputId
  }

  /** A longer file that os.Stat did not report: the one case in which its tail survives. */
  predicate HiddenLonger(files: map<string, Bytes>, dest: string, size: int, f: OutputFaults) {
    f.stat && dest in files && |files[dest]| > size
  }

  function AfterWriteOutput(sha256: Bytes -> string, files: map<string, Bytes>, dest: string, r: Reader, size: int,
                            outputId: string, f: OutputFaults): (Option<nat>, map<string, Bytes>)
  {
    var known := dest in files && !f.stat;
    if known && |files[dest]| == size && !f.check && sha256(files[dest]) == outputId then
      (if r.fails then None else Some(|r.data|), files)
    else if f.open then (None, files)
    else
      var base := if dest !in files || (known && |files[dest]| > size) then [] else files[dest];
      if r.fails || sha256(r.data) != outputId || f.close then (None, files - {dest})
      else (Some(|r.data|), files[dest := WriteAt(base, 0, r.data)])
  }

  function AfterWriteAction(files: map<string, Bytes>, dest: string, b: Bytes, fault: IndexFault): map<string, Bytes> {
    match fault
    case NoFault => files[dest := b]
    case OpenFails => files
    case LaterFails => files - {dest}
  }

  /** When Put succeeds: valid IDs, a reader that delivers size bytes, an index without errors, and the right
      hash, of the file that is already there or of the bytes delivered, these without errors. */
  predicate Succeeds(sha256: Bytes -> string, dir: string, files: map<string, Bytes>, p: PutArgs,
                     f: OutputFaults, fault: IndexFault)
  {
    && ValidIds(p) && !p.body.fails && |p.body.data| == p.size && fault.NoFault?
    && (AlreadyThere(sha256, files, OutputFilename(dir, p.outputId), p, f)
        || (sha256(p.body.data) == p.outputId && !f.open && !f.close))
  }

  function FilesAfterWindowsPut(sha256: Bytes -> string, dir: string, json: DiskCrash.Json, files: map<string, Bytes>,
                                p: PutArgs, f: OutputFaults, fault: IndexFault): map<string, Bytes>
  {
    if !ValidIds(p) then files
    else
      var dest := OutputFilename(dir, p.outputId);
      var (wrote, files1) := AfterWriteOutput(sha256, files, dest, p.body, p.size, p.outputId, f);
      if wrote != Some(p.size) then files1
      else AfterWriteAction(files1, ActionFilename(dir, p.actionId), IndexFor(json, p), fault)
  }

  /** Whatever the old file held: if Put succeeds, the output file is exactly size bytes with the right
      hash, except exactly when Stat failed on a longer file, whose tail is then still there. */
  lemma SuccessIsExact(sha256: Bytes -> string, dir: string, json: DiskCrash.Json, files: map<string, Bytes>,
                       p: PutArgs, f: OutputFaults)
    requires Succeeds(sha256, dir, files, p, f, NoFault)
    ensures var now := FilesAfterWindowsPut(sha256, dir, json, files, p, f, NoFault);
            var path := OutputFilename(dir, p.outputId);
            && path in now
            && (|now[path]| == p.size && sha256(now[path]) == p.outputId <==> !HiddenLonger(files, path, p.size, f))
  {
    var path := OutputFilename(dir, p.outputId);
    if ActionFilename(dir, p.actionId) == path {
      FilenameIsInjective(dir, 'a', p.actionId, 'o', p.outputId);
    }
    if !AlreadyThere(sha256, files, path, p, f) {
      var known := path in files && !f.stat;
      var base := if path !in files || (known && |files[path]| > p.size) then [] else files[path];
      if |base| <= p.size {
        assert WriteAt(base, 0, p.body.data) == p.body.data;
      }
    }
  }

  /** And a Get finds it. */
  lemma PutThenGet(sha256: Bytes -> string, env: DiskCrash.Env, files: map<string, Bytes>, p: PutArgs, f: OutputFaults)
    requires DiskCrash.RoundTrips(env.json) && Succeeds(sha256, env.dir, files, p, f, NoFault)
    requires !HiddenLonger(files, OutputFilename(env.dir, p.outputId), p.size, f)
    ensures var now := FilesAfterWindowsPut(sha256, env.dir, env.json, files, p, f, NoFault);
            var path := OutputFilename(env.dir, p.outputId);
            && DiskCrash.Get(env, now, p.actionId) == DiskCrash.Hit(p.outputId, path)
            && path in now && |now[path]| == p.size && sha256(now[path]) == p.outputId
  {
    SuccessIsExact(sha256, env.dir, env.json, files, p, f);
  }

  /** The file begins with the bytes delivered. An old file that was longer shows behind them, unless it was
      longer than announced and Stat said so. */
  predicate KeepsLongerTail(files: map<string, Bytes>, out: string, p: PutArgs, f: OutputFaults,
                            now: map<string, Bytes>)
  {
    var delivered := |p.body.data|;
    && out in now && |now[out]| >= delivered && now[out][..delivered] == p.body.data
    && (|now[out]| > delivered <==>
          out in files && |files[out]| > delivered && (f.stat || |files[out]| <= p.size))
    && (|now[out]| > delivered ==> |now[out]| == |files[out]| && now[out][delivered..] == files[out][delivered..])
  }

  /** No Put changes another file; one that fails leaves the index as it was or removes it; and once the file
      has been opened to write, it has the bytes delivered, or an error or a wrong hash removes it. */
  lemma PutTouchesOnlyItsFiles(sha256: Bytes -> string, dir: string, json: DiskCrash.Json, files: map<string, Bytes>,
                               p: PutArgs, f: OutputFaults, fault: IndexFault)
    requires ValidIds(p)
    ensures var now := FilesAfterWindowsPut(sha256, dir, json, files, p, f, fault);
            var out, act := OutputFilename(dir, p.outputId), ActionFilename(dir, p.actionId);
            && out != act && now - {out, act} == files - {out, act}
            && (!Succeeds(sha256, dir, files, p, f, fault) ==>
                  act !in now || (act in files && now[act] == files[act]))
            && (!AlreadyThere(sha256, files, out, p, f) ==>
                  if f.open then now == files
                  else if p.body.fails || f.close || sha256(p.body.data) != p.outputId then out !in now
                  else KeepsLongerTail(files, out, p, f, now))
  {
    if ActionFilename(dir, p.actionId) == OutputFilename(dir, p.outputId) {
      FilenameIsInjective(dir, 'a', p.actionId, 'o', p.outputId);
    }
  }
}

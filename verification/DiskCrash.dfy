/** Concurrent DiskCache.Put calls on Unix, one file system step at a time, with crashes: what is visible
    under the names of action and output files at every moment. */
module DiskCrash {
  import opened Basics
  import opened Hex
  import opened DiskNames

  datatype IndexEntry = IndexEntry(version: int, outputId: string, size: int, timeNanos: int)

  /** JSON for the index entries; decode gives None for bytes it cannot unmarshal. */
  datatype Json = Json(encode: IndexEntry -> Bytes, decode: Bytes -> Option<IndexEntry>)

  ghost predicate RoundTrips(json: Json) {
    forall e: IndexEntry :: json.decode(json.encode(e)) == Some(e)
  }

  /** content gives the content that belongs to an output ID. */
  datatype Env = Env(dir: string, json: Json, content: string -> Bytes)

  datatype Step =
    | Begun
    | CopyingOutput(temp: string, done: nat)
    | OutputClosed(temp: string)
    | OutputVisible
    | CopyingIndex(temp: string, done: nat)
    | IndexClosed(temp: string)
    | Returned(ok: bool)

  /** One Put call. Its reader delivers body and then ends, or fails. */
  datatype Call = Call(actionId: string, outputId: string, size: int, body: Bytes, fails: bool, index: Bytes,
                       step: Step)

  datatype State = State(files: map<string, Bytes>, calls: map<nat, Call>)

  datatype Event =
    | Begin(t: nat, actionId: string, outputId: string, size: int, body: Bytes, fails: bool, timeNanos: int)
    | CreateTemp(t: nat, suffix: string)
    | Copy(t: nat, n: nat)
    | Close(t: nat)
    | Rename(t: nat)
    | Fail(t: nat)          // a read or disk error; the temporary file is removed
    | SizeMismatch(t: nat)  // the check in Put, after the output file is in place
    | Crash

  function DestOf(env: Env, call: Call): string {
    if call.step.CopyingOutput? || call.step.OutputClosed? || call.step.Begun?
    then OutputFilename(env.dir, call.outputId) else ActionFilename(env.dir, call.actionId)
  }

  /** What the call is writing at the moment. */
  function Source(call: Call): Bytes {
    if call.step.CopyingOutput? || call.step.OutputClosed? then call.body else call.index
  }

  predicate HasTemp(call: Call) {
    call.step.CopyingOutput? || call.step.OutputClosed? || call.step.CopyingIndex? || call.step.IndexClosed?
  }

  function Go(s: State, t: nat, step: Step): State
    requires t in s.calls
  {
    s.(calls := s.calls[t := s.calls[t].(step := step)])
  }

  function Next(env: Env, s: State, e: Event): State {
    match e
    case Begin(t, a, o, size, body, fails, time) =>
      if t !in s.calls && ValidClientId(a) && ValidClientId(o) && (fails || body == env.content(o))
      then s.(calls := s.calls[t := Call(a, o, size, body, fails,
                                         env.json.encode(IndexEntry(1, o, size, time)), Begun)])
      else s
    case CreateTemp(t, suffix) =>
      if t in s.calls then
        var call := s.calls[t];
        if call.step.Begun? && TempName(DestOf(env, call), suffix) !in s.files then
          var temp := TempName(DestOf(env, call), suffix);
          Go(s.(files := s.files[temp := []]), t, CopyingOutput(temp, 0))
        else if call.step.OutputVisible? && |call.body| == call.size
                && TempName(DestOf(env, call), suffix) !in s.files then
          var temp := TempName(DestOf(env, call), suffix);
          Go(s.(files := s.files[temp := []]), t, CopyingIndex(temp, 0))
        else s
      else s
    case Copy(t, n) =>
      if t in s.calls && (s.calls[t].step.CopyingOutput? || s.calls[t].step.CopyingIndex?) then
        var call := s.calls[t];
        var done, temp := call.step.done, call.step.temp;
        if done + n <= |Source(call)| && temp in s.files then
          Go(s.(files := s.files[temp := s.files[temp] + Source(call)[done..done + n]]), t,
             call.step.(done := done + n))
        else s
      else s
    case Close(t) =>
      if t in s.calls then
        var call := s.calls[t];
        if call.step.CopyingOutput? && call.step.done == |call.body| && !call.fails
        then Go(s, t, OutputClosed(call.step.temp))
        else if call.step.CopyingIndex? && call.step.done == |call.index|
        then Go(s, t, IndexClosed(call.step.temp))
        else s
      else s
    case Rename(t) =>
      if t in s.calls && (s.calls[t].step.OutputClosed? || s.calls[t].step.IndexClosed?) then
        var call := s.calls[t];
        var temp := call.step.temp;
        if temp in s.files then
          Go(s.(files := (s.files - {temp})[DestOf(env, call) := s.files[temp]]), t,
             if call.step.OutputClosed? then OutputVisible else Returned(true))
        else s
      else s
    case Fail(t) =>
      if t in s.calls && !s.calls[t].step.Returned? then
        var call := s.calls[t];
        Go(if HasTemp(call) then s.(files := s.files - {call.step.temp}) else s, t, Returned(false))
      else s
    case SizeMismatch(t) =>
      if t in s.calls && s.calls[t].step.OutputVisible? && |s.calls[t].body| != s.calls[t].size
      then Go(s, t, Returned(false)) else s
    case Crash => s.(calls := map[])
  }

  function Run(env: Env, s: State, events: seq<Event>): State {
    if events == [] then s else Next(env, Run(env, s, events[..|events| - 1]), events[|events| - 1])
  }

  // ---- What Get sees ----

  datatype GetResult = Error | Miss | Hit(outputId: string, diskPath: string)

  function Get(env: Env, files: map<string, Bytes>, actionId: string): GetResult {
    if !ValidClientId(actionId) then Error
    else if ActionFilename(env.dir, actionId) !in files then Miss
    else
      match env.json.decode(files[ActionFilename(env.dir, actionId)])
      case None => Miss
      case Some(ie) =>
        if !ValidClientId(ie.outputId) then Miss else Hit(ie.outputId, OutputFilename(env.dir, ie.outputId))
  }

  // ---- Invariants ----

  /** Every output file holds exactly the content its name stands for. */
  ghost predicate OutputsOk(env: Env, files: map<string, Bytes>) {
    forall o | ValidClientId(o) && OutputFilename(env.dir, o) in files ::
      files[OutputFilename(env.dir, o)] == env.content(o)
  }

  /** Every action file names an output whose file exists. */
  ghost predicate ActionsOk(env: Env, files: map<string, Bytes>) {
    forall a | ValidClientId(a) && ActionFilename(env.dir, a) in files ::
      var entry := env.json.decode(files[ActionFilename(env.dir, a)]);
      entry.Some? && ValidClientId(entry.value.outputId) && OutputFilename(env.dir, entry.value.outputId) in files
  }

  /** The name of no output or action file. */
  ghost predicate Apart(env: Env, name: string) {
    forall id: string | ValidClientId(id) :: name != OutputFilename(env.dir, id) && name != ActionFilename(env.dir, id)
  }

  predicate OutputInPlace(step: Step) {
    step.OutputVisible? || step.CopyingIndex? || step.IndexClosed?
  }

  /** The bytes an action file of this output may have. */
  ghost predicate IsIndexFor(env: Env, outputId: string, bytes: Bytes) {
    env.json.decode(bytes).Some? && env.json.decode(bytes).value.outputId == outputId
  }

  ghost predicate RequestOk(env: Env, call: Call) {
    && ValidClientId(call.actionId) && ValidClientId(call.outputId)
    && (call.fails || call.body == env.content(call.outputId))
    && IsIndexFor(env, call.outputId, call.index)
  }

  ghost predicate ProgressOk(env: Env, files: map<string, Bytes>, call: Call) {
    && (call.step.OutputClosed? ==> !call.fails)
    && (OutputInPlace(call.step) ==> OutputFilename(env.dir, call.outputId) in files)
    && (HasTemp(call) ==>
          && call.step.temp in files
          && Apart(env, call.step.temp)
          && Progress(call) <= |Source(call)|
          && files[call.step.temp] == Source(call)[..Progress(call)])
  }

  ghost predicate CallOk(env: Env, files: map<string, Bytes>, call: Call) {
    RequestOk(env, call) && ProgressOk(env, files, call)
  }

  /** How many bytes the temporary file has. */
  function Progress(call: Call): nat
    requires HasTemp(call)
  {
    if call.step.CopyingOutput? || call.step.CopyingIndex? then call.step.done else |Source(call)|
  }

  ghost predicate CallsOk(env: Env, s: State) {
    && (forall t | t in s.calls :: CallOk(env, s.files, s.calls[t]))
    && (forall t, t' | t in s.calls && t' in s.calls && t != t' && HasTemp(s.calls[t]) && HasTemp(s.calls[t']) ::
          s.calls[t].step.temp != s.calls[t'].step.temp)
  }

  ghost predicate Inv(env: Env, s: State) {
    OutputsOk(env, s.files) && ActionsOk(env, s.files) && CallsOk(env, s)
  }

  // ---- One step ----

  lemma TempIsApart(env: Env, call: Call, suffix: string)
    requires ValidClientId(call.actionId) && ValidClientId(call.outputId)
    ensures Apart(env, TempName(DestOf(env, call), suffix))
  {
    forall id: string | ValidClientId(id)
      ensures TempName(DestOf(env, call), suffix) != OutputFilename(env.dir, id)
      ensures TempName(DestOf(env, call), suffix) != ActionFilename(env.dir, id)
    {
      TempNamesAreApart(env.dir, 'o', call.outputId, suffix, 'o', id);
      TempNamesAreApart(env.dir, 'o', call.outputId, suffix, 'a', id);
      TempNamesAreApart(env.dir, 'a', call.actionId, suffix, 'o', id);
      TempNamesAreApart(env.dir, 'a', call.actionId, suffix, 'a', id);
    }
  }

  /** What a step of the call that owns temp does to the files of everyone else: no other temporary
      file changes, and no output or action file goes away. */
  ghost predicate FilesStep(env: Env, files: map<string, Bytes>, files': map<string, Bytes>, temp: string) {
    forall n | n in files && n != temp :: n in files' && (Apart(env, n) ==> files'[n] == files[n])
  }

  lemma OtherCallsKeep(env: Env, s: State, s': State, t: nat, temp: string)
    requires CallsOk(env, s) && FilesStep(env, s.files, s'.files, temp) && Apart(env, temp)
    requires t in s'.calls && s'.calls == s.calls[t := s'.calls[t]] && CallOk(env, s'.files, s'.calls[t])
    requires forall o | o in s.calls && o != t && HasTemp(s.calls[o]) :: s.calls[o].step.temp != temp
    requires HasTemp(s'.calls[t]) ==> s'.calls[t].step.temp == temp
    ensures CallsOk(env, s')
  {
    forall o | o in s'.calls && o != t
      ensures CallOk(env, s'.files, s'.calls[o])
    {
      assert CallOk(env, s.files, s.calls[o]);
    }
  }

  /** Changing one temporary file shows in no output or action file. */
  lemma TempChangeIsInvisible(env: Env, files: map<string, Bytes>, files': map<string, Bytes>, temp: string)
    requires OutputsOk(env, files) && ActionsOk(env, files) && Apart(env, temp)
    requires files - {temp} == files' - {temp}
    ensures OutputsOk(env, files') && ActionsOk(env, files') && FilesStep(env, files, files', temp)
  {
    assert forall n | n != temp :: (n in files - {temp} <==> n in files) && (n in files' - {temp} <==> n in files');
    assert forall n | n != temp && n in files :: (files - {temp})[n] == files[n];
    assert forall n | n != temp && n in files' :: (files' - {temp})[n] == files'[n];
  }

  lemma RenamedOutputKeeps(env: Env, files: map<string, Bytes>, temp: string, outputId: string, bytes: Bytes)
    requires OutputsOk(env, files) && ActionsOk(env, files) && Apart(env, temp)
    requires ValidClientId(outputId) && bytes == env.content(outputId)
    ensures var files' := (files - {temp})[OutputFilename(env.dir, outputId) := bytes];
            OutputsOk(env, files') && ActionsOk(env, files') && FilesStep(env, files, files', temp)
  {
    var files' := (files - {temp})[OutputFilename(env.dir, outputId) := bytes];
    forall id: string | ValidClientId(id)
      ensures OutputFilename(env.dir, id) == OutputFilename(env.dir, outputId) ==> id == outputId
      ensures ActionFilename(env.dir, id) != OutputFilename(env.dir, outputId)
    {
      if OutputFilename(env.dir, id) == OutputFilename(env.dir, outputId) {
        FilenameIsInjective(env.dir, 'o', id, 'o', outputId);
      }
      if ActionFilename(env.dir, id) == OutputFilename(env.dir, outputId) {
        FilenameIsInjective(env.dir, 'a', id, 'o', outputId);
      }
    }
  }

  lemma RenamedActionKeeps(env: Env, files: map<string, Bytes>, temp: string, actionId: string, outputId: string,
                           bytes: Bytes)
    requires OutputsOk(env, files) && ActionsOk(env, files) && Apart(env, temp)
    requires ValidClientId(actionId) && ValidClientId(outputId) && OutputFilename(env.dir, outputId) in files
    requires IsIndexFor(env, outputId, bytes)
    ensures var files' := (files - {temp})[ActionFilename(env.dir, actionId) := bytes];
            OutputsOk(env, files') && ActionsOk(env, files') && FilesStep(env, files, files', temp)
  {
    forall id: string | ValidClientId(id)
      ensures OutputFilename(env.dir, id) != ActionFilename(env.dir, actionId)
    {
      if OutputFilename(env.dir, id) == ActionFilename(env.dir, actionId) {
        FilenameIsInjective(env.dir, 'o', id, 'a', actionId);
      }
    }
  }

  /** A fresh temporary file, and a call that has begun to fill it. */
  lemma NewTempKeepsInv(env: Env, s: State, s': State, t: nat, temp: string, step: Step)
    requires Inv(env, s) && t in s.calls && temp !in s.files && Apart(env, temp)
    requires step == CopyingOutput(temp, 0) || (step == CopyingIndex(temp, 0) && OutputInPlace(s.calls[t].step))
    requires s' == State(s.files[temp := []], s.calls[t := s.calls[t].(step := step)])
    ensures Inv(env, s')
  {
    assert CallOk(env, s.files, s.calls[t]);
    TempChangeIsInvisible(env, s.files, s'.files, temp);
    assert CallOk(env, s'.files, s'.calls[t]);
    forall o | o in s.calls && o != t && HasTemp(s.calls[o])
      ensures s.calls[o].step.temp != temp
    {
      assert CallOk(env, s.files, s.calls[o]);
    }
    OtherCallsKeep(env, s, s', t, temp);
  }

  lemma CreateTempKeepsInv(env: Env, s: State, t: nat, suffix: string)
    requires Inv(env, s)
    ensures Inv(env, Next(env, s, CreateTemp(t, suffix)))
  {
    var s' := Next(env, s, CreateTemp(t, suffix));
    if s' != s {
      var call := s.calls[t];
      assert RequestOk(env, call) by { assert CallOk(env, s.files, call); }
      TempIsApart(env, call, suffix);
      NewTempKeepsInv(env, s, s', t, TempName(DestOf(env, call), suffix), s'.calls[t].step);
    }
  }

  lemma CopyKeepsInv(env: Env, s: State, t: nat, n: nat)
    requires Inv(env, s)
    ensures Inv(env, Next(env, s, Copy(t, n)))
  {
    var s' := Next(env, s, Copy(t, n));
    if s' != s {
      var call := s.calls[t];
      assert RequestOk(env, call) && ProgressOk(env, s.files, call) by { assert CallOk(env, s.files, call); }
      var temp, done := call.step.temp, call.step.done;
      assert Source(call)[..done] + Source(call)[done..done + n] == Source(call)[..done + n];
      assert s'.files == s.files[temp := Source(call)[..done + n]];
      assert ProgressOk(env, s'.files, s'.calls[t]);
      TempChangeIsInvisible(env, s.files, s'.files, temp);
      OtherCallsKeep(env, s, s', t, temp);
    }
  }

  lemma FailKeepsInv(env: Env, s: State, t: nat)
    requires Inv(env, s)
    ensures Inv(env, Next(env, s, Fail(t)))
  {
    var s' := Next(env, s, Fail(t));
    if s' != s {
      var call := s.calls[t];
      assert RequestOk(env, call) && ProgressOk(env, s.files, call) by { assert CallOk(env, s.files, call); }
      assert RequestOk(env, s'.calls[t]) && ProgressOk(env, s'.files, s'.calls[t]);
      if HasTemp(call) {
        TempChangeIsInvisible(env, s.files, s'.files, call.step.temp);
        OtherCallsKeep(env, s, s', t, call.step.temp);
      }
    }
  }

  lemma RenameKeepsInv(env: Env, s: State, t: nat)
    requires RoundTrips(env.json) && Inv(env, s)
    ensures Inv(env, Next(env, s, Rename(t)))
  {
    var s' := Next(env, s, Rename(t));
    if s' != s {
      var call := s.calls[t];
      assert CallOk(env, s.files, call);
      if call.step.OutputClosed? {
        OutputRenameKeepsInv(env, s, s', t);
      } else {
        IndexRenameKeepsInv(env, s, s', t);
      }
    }
  }

  lemma OutputRenameKeepsInv(env: Env, s: State, s': State, t: nat)
    requires RoundTrips(env.json) && Inv(env, s) && t in s.calls && s.calls[t].step.OutputClosed?
    requires var call := s.calls[t]; var temp := call.step.temp;
             && temp in s.files
             && s' == State((s.files - {temp})[OutputFilename(env.dir, call.outputId) := s.files[temp]],
                            s.calls[t := call.(step := OutputVisible)])
    ensures Inv(env, s')
  {
    var call := s.calls[t];
    assert CallOk(env, s.files, call);
    assert s.files[call.step.temp] == call.body;
    RenamedOutputKeeps(env, s.files, call.step.temp, call.outputId, call.body);
    assert CallOk(env, s'.files, s'.calls[t]);
    OtherCallsKeep(env, s, s', t, call.step.temp);
  }

  lemma IndexRenameKeepsInv(env: Env, s: State, s': State, t: nat)
    requires RoundTrips(env.json) && Inv(env, s) && t in s.calls && s.calls[t].step.IndexClosed?
    requires var call := s.calls[t]; var temp := call.step.temp;
             && temp in s.files
             && s' == State((s.files - {temp})[ActionFilename(env.dir, call.actionId) := s.files[temp]],
                            s.calls[t := call.(step := Returned(true))])
    ensures Inv(env, s')
  {
    var call := s.calls[t];
    assert CallOk(env, s.files, call);
    assert s.files[call.step.temp] == call.index;
    RenamedActionKeeps(env, s.files, call.step.temp, call.actionId, call.outputId, call.index);
    assert CallOk(env, s'.files, s'.calls[t]);
    OtherCallsKeep(env, s, s', t, call.step.temp);
  }

  lemma BeginKeepsInv(env: Env, s: State, e: Event)
    requires RoundTrips(env.json) && Inv(env, s) && e.Begin?
    ensures Inv(env, Next(env, s, e))
  {
    var s' := Next(env, s, e);
    if s' != s {
      assert RequestOk(env, s'.calls[e.t]);
      forall t | t in s'.calls
        ensures CallOk(env, s'.files, s'.calls[t])
      {
        if t != e.t {
          assert CallOk(env, s.files, s.calls[t]);
        }
      }
    }
  }

  lemma QuietCallsKeep(env: Env, s: State, t: nat, step: Step)
    requires CallsOk(env, s) && t in s.calls && CallOk(env, s.files, s.calls[t].(step := step))
    requires HasTemp(s.calls[t].(step := step)) ==> HasTemp(s.calls[t]) && step.temp == s.calls[t].step.temp
    ensures CallsOk(env, Go(s, t, step))
  {
  }

  lemma QuietStepKeepsInv(env: Env, s: State, t: nat, step: Step)
    requires Inv(env, s) && t in s.calls && ProgressOk(env, s.files, s.calls[t].(step := step))
    requires HasTemp(s.calls[t].(step := step)) ==> HasTemp(s.calls[t]) && step.temp == s.calls[t].step.temp
    ensures Inv(env, Go(s, t, step))
  {
    assert RequestOk(env, s.calls[t]) by { assert CallOk(env, s.files, s.calls[t]); }
    QuietCallsKeep(env, s, t, step);
  }

  lemma CloseKeepsInv(env: Env, s: State, t: nat)
    requires Inv(env, s)
    ensures Inv(env, Next(env, s, Close(t)))
  {
    if t in s.calls {
      var call := s.calls[t];
      assert ProgressOk(env, s.files, call) by { assert CallOk(env, s.files, call); }
      if call.step.CopyingOutput? && call.step.done == |call.body| && !call.fails {
        QuietStepKeepsInv(env, s, t, OutputClosed(call.step.temp));
      } else if call.step.CopyingIndex? && call.step.done == |call.index| {
        QuietStepKeepsInv(env, s, t, IndexClosed(call.step.temp));
      }
    }
  }

  lemma SizeMismatchKeepsInv(env: Env, s: State, t: nat)
    requires Inv(env, s)
    ensures Inv(env, Next(env, s, SizeMismatch(t)))
  {
    if Next(env, s, SizeMismatch(t)) != s {
      QuietStepKeepsInv(env, s, t, Returned(false));
    }
  }

  lemma NextKeepsInv(env: Env, s: State, e: Event)
    requires RoundTrips(env.json) && Inv(env, s)
    ensures Inv(env, Next(env, s, e))
  {
    match e
    case CreateTemp(t, suffix) => CreateTempKeepsInv(env, s, t, suffix);
    case Copy(t, n) => CopyKeepsInv(env, s, t, n);
    case Rename(t) => RenameKeepsInv(env, s, t);
    case Fail(t) => FailKeepsInv(env, s, t);
    case Begin(_, _, _, _, _, _, _) => BeginKeepsInv(env, s, e);
    case Close(t) => CloseKeepsInv(env, s, t);
    case SizeMismatch(t) => SizeMismatchKeepsInv(env, s, t);
    case Crash =>
  }

  lemma {:induction false} RunKeepsInv(env: Env, files: map<string, Bytes>, events: seq<Event>)
    requires RoundTrips(env.json) && OutputsOk(env, files) && ActionsOk(env, files)
    ensures Inv(env, Run(env, State(files, map[]), events))
  {
    if events != [] {
      RunKeepsInv(env, files, events[..|events| - 1]);
      NextKeepsInv(env, Run(env, State(files, map[]), events[..|events| - 1]), events[|events| - 1]);
    }
  }

  /** From any directory in good order, at every moment of every interleaving and after any crash: what
      Get finds for an action is an output whose file exists and holds exactly its content. */
  lemma VisibleActionsHaveTheirOutputs(env: Env, files: map<string, Bytes>, events: seq<Event>, actionId: string)
    requires RoundTrips(env.json) && OutputsOk(env, files) && ActionsOk(env, files)
    ensures var now := Run(env, State(files, map[]), events).files;
            match Get(env, now, actionId)
            case Hit(outputId, diskPath) => diskPath in now && now[diskPath] == env.content(outputId)
            case Miss => ValidClientId(actionId) ==> ActionFilename(env.dir, actionId) !in now
            case Error => !ValidClientId(actionId)
  {
    RunKeepsInv(env, files, events);
  }
}

/** An uninterrupted Put of the transition system leaves the same files as the method. */
module DiskRefinement {
  import opened Basics
  import opened DiskNames
  import opened DiskCrash
  import opened DiskCaching

  lemma RunOneMore(env: Env, s: State, events: seq<Event>, e: Event)
    ensures Run(env, s, events + [e]) == Next(env, Run(env, s, events), e)
  {
    assert (events + [e])[..|events|] == events;
  }

  /** Create, copy all, close, rename: the steps of writeAtomic without an error. */
  function WriteTrace(t: nat, suffix: string, size: nat): seq<Event> {
    [CreateTemp(t, suffix)] + [Copy(t, size)] + [Close(t)] + [Rename(t)]
  }

  function Start(t: nat, p: PutArgs): seq<Event> {
    [Begin(t, p.actionId, p.outputId, p.size, p.body.data, p.body.fails, p.timeNanos)]
  }

  function PutTrace(env: Env, t: nat, p: PutArgs, suffix: string, suffix': string): seq<Event> {
    if p.body.fails then Start(t, p) + [CreateTemp(t, suffix)] + [Copy(t, |p.body.data|)] + [Fail(t)]
    else if |p.body.data| != p.size then Start(t, p) + WriteTrace(t, suffix, |p.body.data|) + [SizeMismatch(t)]
    else if p.indexFails then
      Start(t, p) + WriteTrace(t, suffix, |p.body.data|)
        + ([CreateTemp(t, suffix')] + [Copy(t, |IndexFor(env.json, p)|)] + [Fail(t)])
    else Start(t, p) + WriteTrace(t, suffix, |p.body.data|) + WriteTrace(t, suffix', |IndexFor(env.json, p)|)
  }

  function CallOf(env: Env, p: PutArgs, step: Step): Call {
    Call(p.actionId, p.outputId, p.size, p.body.data, p.body.fails, IndexFor(env.json, p), step)
  }

  /** What Begin demands: valid IDs, and a body that is the output's content unless its reader fails. */
  predicate MayBegin(env: Env, p: PutArgs) {
    ValidIds(p) && (p.body.fails || p.body.data == env.content(p.outputId))
  }

  function Copied(env: Env, s: State, t: nat, suffix: string, size: nat): State {
    Next(env, Next(env, s, CreateTemp(t, suffix)), Copy(t, size))
  }

  function Written(env: Env, s: State, t: nat, suffix: string, size: nat): State {
    Next(env, Next(env, Copied(env, s, t, suffix, size), Close(t)), Rename(t))
  }

  lemma RunWrites(env: Env, s: State, events: seq<Event>, t: nat, suffix: string, size: nat)
    ensures Run(env, s, events + WriteTrace(t, suffix, size)) == Written(env, Run(env, s, events), t, suffix, size)
  {
    RunOneMore(env, s, events, CreateTemp(t, suffix));
    RunOneMore(env, s, events + [CreateTemp(t, suffix)], Copy(t, size));
    RunOneMore(env, s, events + [CreateTemp(t, suffix)] + [Copy(t, size)], Close(t));
    RunOneMore(env, s, events + [CreateTemp(t, suffix)] + [Copy(t, size)] + [Close(t)], Rename(t));
    assert events + WriteTrace(t, suffix, size)
        == events + [CreateTemp(t, suffix)] + [Copy(t, size)] + [Close(t)] + [Rename(t)];
  }

  /** A copy into a fresh temporary file. */
  lemma CopiesIt(env: Env, s: State, t: nat, p: PutArgs, step: Step, suffix: string) returns (s': State)
    requires ValidIds(p) && s.calls == map[t := CallOf(env, p, step)]
    requires step == Begun || (step == OutputVisible && |p.body.data| == p.size)
    requires TempName(DestOf(env, CallOf(env, p, step)), suffix) !in s.files
    ensures var temp := TempName(DestOf(env, CallOf(env, p, step)), suffix);
            var bytes := if step == Begun then p.body.data else IndexFor(env.json, p);
            && s' == Copied(env, s, t, suffix, |bytes|)
            && s'.files == s.files[temp := bytes]
            && s'.calls == map[t := CallOf(env, p, if step == Begun then CopyingOutput(temp, |bytes|)
                                                   else CopyingIndex(temp, |bytes|))]
  {
    var bytes := if step == Begun then p.body.data else IndexFor(env.json, p);
    var s1 := Next(env, s, CreateTemp(t, suffix));
    assert Source(s1.calls[t]) == bytes && s1.calls[t].step.done == 0;
    assert [] + bytes[0..|bytes|] == bytes;
    s' := Next(env, s1, Copy(t, |bytes|));
  }

  lemma WritesIt(env: Env, s: State, t: nat, p: PutArgs, step: Step, suffix: string) returns (s': State)
    requires ValidIds(p) && !p.body.fails && s.calls == map[t := CallOf(env, p, step)]
    requires step == Begun || (step == OutputVisible && |p.body.data| == p.size)
    requires TempName(DestOf(env, CallOf(env, p, step)), suffix) !in s.files
    ensures var bytes := if step == Begun then p.body.data else IndexFor(env.json, p);
            && s' == Written(env, s, t, suffix, |bytes|)
            && s'.files == s.files[DestOf(env, CallOf(env, p, step)) := bytes]
            && s'.calls == map[t := CallOf(env, p, if step == Begun then OutputVisible else Returned(true))]
  {
    var bytes := if step == Begun then p.body.data else IndexFor(env.json, p);
    var dest := DestOf(env, CallOf(env, p, step));
    var s1 := CopiesIt(env, s, t, p, step, suffix);
    var s2 := Next(env, s1, Close(t));
    s' := Next(env, s2, Rename(t));
    assert (s.files[TempName(dest, suffix) := bytes] - {TempName(dest, suffix)})[dest := bytes]
        == s.files[dest := bytes];
  }

  lemma Starts(env: Env, files: map<string, Bytes>, t: nat, p: PutArgs) returns (s: State)
    requires MayBegin(env, p)
    ensures s == Run(env, State(files, map[]), Start(t, p)) == State(files, map[t := CallOf(env, p, Begun)])
  {
    assert Start(t, p)[..0] == [];
    s := Run(env, State(files, map[]), Start(t, p));
  }

  /** A Put up to the output file. */
  lemma OutputWritten(env: Env, files: map<string, Bytes>, t: nat, p: PutArgs, suffix: string) returns (s: State)
    requires MayBegin(env, p) && !p.body.fails
    requires TempName(OutputFilename(env.dir, p.outputId), suffix) !in files
    ensures s == Run(env, State(files, map[]), Start(t, p) + WriteTrace(t, suffix, |p.body.data|))
    ensures s == State(files[OutputFilename(env.dir, p.outputId) := p.body.data],
                       map[t := CallOf(env, p, OutputVisible)])
  {
    var s0 := Starts(env, files, t, p);
    s := WritesIt(env, s0, t, p, Begun, suffix);
    RunWrites(env, State(files, map[]), Start(t, p), t, suffix, |p.body.data|);
  }

  /** And its end, for an output of the right size. */
  lemma IndexEnds(env: Env, files: map<string, Bytes>, s: State, events: seq<Event>, t: nat, p: PutArgs,
                  suffix': string)
    requires ValidIds(p) && !p.body.fails && |p.body.data| == p.size && s == Run(env, State(files, map[]), events)
    requires s == State(files[OutputFilename(env.dir, p.outputId) := p.body.data],
                       map[t := CallOf(env, p, OutputVisible)])
    requires TempName(ActionFilename(env.dir, p.actionId), suffix') !in files
    ensures var n := |IndexFor(env.json, p)|;
            Run(env, State(files, map[]),
                events + if p.indexFails then [CreateTemp(t, suffix')] + [Copy(t, n)] + [Fail(t)]
                         else WriteTrace(t, suffix', n)).files
              == FilesAfterPut(env, files, p)
  {
    var n := |IndexFor(env.json, p)|;
    TempNamesAreApart(env.dir, 'a', p.actionId, suffix', 'o', p.outputId);
    if p.indexFails {
      FailedCopy(env, State(files, map[]), events, t, p, OutputVisible, suffix');
      assert events + ([CreateTemp(t, suffix')] + [Copy(t, n)] + [Fail(t)])
          == events + [CreateTemp(t, suffix')] + [Copy(t, n)] + [Fail(t)];
    } else {
      var s2 := WritesIt(env, s, t, p, OutputVisible, suffix');
      RunWrites(env, State(files, map[]), events, t, suffix', n);
    }
  }

  /** The uninterrupted Put of the transition system, whether its reader or its index fails, its size is
      wrong or it succeeds, leaves the files that the method is proved to leave. */
  lemma UninterruptedPut(env: Env, files: map<string, Bytes>, t: nat, p: PutArgs, suffix: string, suffix': string)
    requires MayBegin(env, p)
    requires TempName(OutputFilename(env.dir, p.outputId), suffix) !in files
    requires TempName(ActionFilename(env.dir, p.actionId), suffix') !in files
    ensures Run(env, State(files, map[]), PutTrace(env, t, p, suffix, suffix')).files == FilesAfterPut(env, files, p)
  {
    var start, written := Start(t, p), Start(t, p) + WriteTrace(t, suffix, |p.body.data|);
    if p.body.fails {
      var s := Starts(env, files, t, p);
      FailedCopy(env, State(files, map[]), start, t, p, Begun, suffix);
    } else {
      var s := OutputWritten(env, files, t, p, suffix);
      if |p.body.data| != p.size {
        RunOneMore(env, State(files, map[]), written, SizeMismatch(t));
        assert Next(env, s, SizeMismatch(t)).files == s.files;
      } else {
        IndexEnds(env, files, s, written, t, p, suffix');
      }
    }
  }

  lemma FailRemovesTemp(env: Env, s: State, t: nat, temp: string)
    requires t in s.calls && HasTemp(s.calls[t]) && s.calls[t].step.temp == temp
    ensures Next(env, s, Fail(t)).files == s.files - {temp}
  {
  }

  /** An error while the output or the index is copied removes the temporary file again. */
  lemma FailedCopy(env: Env, s: State, events: seq<Event>, t: nat, p: PutArgs, step: Step, suffix: string)
    requires ValidIds(p) && Run(env, s, events).calls == map[t := CallOf(env, p, step)]
    requires step == Begun || (step == OutputVisible && |p.body.data| == p.size)
    requires TempName(DestOf(env, CallOf(env, p, step)), suffix) !in Run(env, s, events).files
    ensures var size := if step == Begun then |p.body.data| else |IndexFor(env.json, p)|;
            Run(env, s, events + [CreateTemp(t, suffix)] + [Copy(t, size)] + [Fail(t)]).files
              == Run(env, s, events).files
  {
    var size := if step == Begun then |p.body.data| else |IndexFor(env.json, p)|;
    var temp := TempName(DestOf(env, CallOf(env, p, step)), suffix);
    var s0 := Run(env, s, events);
    var s1 := CopiesIt(env, s0, t, p, step, suffix);
    FailRemovesTemp(env, s1, t, temp);
    RunThreeMore(env, s, events, CreateTemp(t, suffix), Copy(t, size), Fail(t));
    assert s1.files - {temp} == s0.files;
  }

  lemma RunThreeMore(env: Env, s: State, events: seq<Event>, e: Event, e': Event, e'': Event)
    ensures Run(env, s, events + [e] + [e'] + [e'']) == Next(env, Next(env, Next(env, Run(env, s, events), e), e'), e'')
  {
    RunOneMore(env, s, events, e);
    RunOneMore(env, s, events + [e], e');
    RunOneMore(env, s, events + [e] + [e'], e'');
  }
}

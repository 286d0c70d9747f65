/** Every run of the cache process: the decoder, one goroutine for each request, and the writers that
    share standard output. */
module ProcessRuns {
  import opened Basics
  import opened Wire

  /** encode is the line of JSON that a response is written as. */
  datatype Env = Env(encode: Response -> Bytes)

  /** Writing(result, n): the goroutine holds the writers' mutex and n bytes of its line are out. */
  datatype Phase =
    | Spawned
    | Working
    | Finished(result: Result)
    | Writing(result: Result, n: nat)
    | Replied(result: Result)

  datatype Handler = Handler(req: Request, phase: Phase)

  datatype Counters = Counters(gets: nat, getHits: nat, getMisses: nat, getErrors: nat, puts: nat, putErrors: nat)

  /** Ended is the return of Run at the end of input, Failed its return of an error, Dead is log.Fatal. */
  datatype Status = Reading | Ended | Failed | Dead

  /** A whole reply and the handler it came from. */
  datatype Sent = Sent(from: nat, response: Response)

  datatype State = State(input: seq<Value>, status: Status, handlers: seq<Handler>, counters: Counters,
                         writer: Option<nat>, output: Bytes, sent: seq<Sent>)

  function Init(input: seq<Value>): State {
    State(input, Reading, [], Counters(0, 0, 0, 0, 0, 0), None, [], [])
  }

  datatype Event =
    | Decode
    | Start(i: nat)
    | Finish(i: nat, result: Result)
    | LockWriter(i: nat)
    | WritePiece(i: nat, n: nat)
    | UnlockWriter(i: nat)

  // ---- Steps ----

  function Spawn(s: State, req: Request, input: seq<Value>): State {
    s.(input := input, handlers := s.handlers + [Handler(req, Spawned)])
  }

  /** What one turn of Run's loop finds. */
  datatype Taken = Nothing | Wrong | Fatal | Taken(req: Request, rest: seq<Value>)

  function TakeOne(input: seq<Value>): Taken {
    if input == [] then Nothing
    else
      match input[0]
      case RequestValue(r) =>
        var req := Normalize(r.(body := None));
        if !HasBody(req) then Taken(req, input[1..])
        else if |input| < 2 || !input[1].BytesValue? then Fatal
        else if |input[1].bytes| != req.bodySize then Fatal
        else Taken(req.(body := Some(input[1].bytes)), input[2..])
      case _ => Wrong
  }

  function DecodeNext(s: State): State {
    match TakeOne(s.input)
    case Nothing => s.(status := Ended)
    case Wrong => s.(status := Failed)
    case Fatal => s.(status := Dead)
    case Taken(req, rest) => Spawn(s, req, rest)
  }

  function CountStart(c: Counters, req: Request): Counters {
    if req.command == CmdGet then c.(gets := c.gets + 1)
    else if req.command == CmdPut then c.(puts := c.puts + 1)
    else c
  }

  function CountEnd(c: Counters, req: Request, result: Result): Counters {
    if req.command == CmdGet then
      if result.failed then c.(getErrors := c.getErrors + 1)
      else if result.miss then c.(getMisses := c.getMisses + 1)
      else c.(getHits := c.getHits + 1)
    else if req.command == CmdPut && result.failed then c.(putErrors := c.putErrors + 1)
    else c
  }

  /** Any result of a get, put or close; an unknown command is an error. */
  predicate MayFinish(req: Request, result: Result) {
    req.command.Unknown? ==> result == ERROR
  }

  predicate At(s: State, i: nat) {
    i < |s.handlers|
  }

  function Go(s: State, i: nat, phase: Phase): State
    requires At(s, i)
  {
    s.(handlers := s.handlers[i := s.handlers[i].(phase := phase)])
  }

  function ResponseOf(h: Handler): Response
    requires h.phase.Finished? || h.phase.Writing? || h.phase.Replied?
  {
    Response(h.req.id, h.phase.result)
  }

  function HandlerNext(env: Env, s: State, e: Event): State
    requires !e.Decode? && At(s, e.i)
  {
    var h := s.handlers[e.i];
    match e
    case Start(i) =>
      if h.phase == Spawned then Go(s, i, Working).(counters := CountStart(s.counters, h.req)) else s
    case Finish(i, result) =>
      if h.phase == Working && MayFinish(h.req, result)
      then Go(s, i, Finished(result)).(counters := CountEnd(s.counters, h.req, result)) else s
    case LockWriter(i) =>
      if h.phase.Finished? && s.writer == None then Go(s, i, Writing(h.phase.result, 0)).(writer := Some(i)) else s
    case WritePiece(i, n) =>
      if h.phase.Writing? && h.phase.n + n <= |env.encode(ResponseOf(h))|
      then Go(s, i, Writing(h.phase.result, h.phase.n + n)).(
             output := s.output + env.encode(ResponseOf(h))[h.phase.n..h.phase.n + n])
      else s
    case UnlockWriter(i) =>
      if h.phase.Writing? && h.phase.n == |env.encode(ResponseOf(h))|
      then Go(s, i, Replied(h.phase.result)).(writer := None, sent := s.sent + [Sent(i, ResponseOf(h))]) else s
  }

  function Next(env: Env, s: State, e: Event): State {
    if s.status == Dead then s
    else if e.Decode? then (if s.status == Reading then DecodeNext(s) else s)
    else if At(s, e.i) then HandlerNext(env, s, e)
    else s
  }

  function Run(env: Env, s: State, events: seq<Event>): State {
    if events == [] then s else Next(env, Run(env, s, events[..|events| - 1]), events[|events| - 1])
  }

  // ---- Decoding ----

  predicate AllWellFramed(reqs: seq<Request>) {
    forall req | req in reqs :: WellFramed(req)
  }

  /** The requests decoded so far are a prefix of reqs, and the rest of the input encodes the others. */
  predicate Decoded(reqs: seq<Request>, s: State)
    requires AllWellFramed(reqs)
  {
    var n := |s.handlers|;
    && n <= |reqs|
    && (forall i | 0 <= i < n :: s.handlers[i].req == Normalize(reqs[i]))
    && s.input == Encode(reqs[n..])
    && (s.status == Reading || (s.status == Ended && n == |reqs|))
  }

  lemma TakesBody(input: seq<Value>, req: Request, rest: seq<Value>)
    requires WellFramed(req) && HasBody(req) && input == EncodeOne(req) + rest
    ensures TakeOne(input) == Taken(Normalize(req), rest)
  {
    assert input == [RequestValue(req.(body := None)), BytesValue(req.body.value)] + rest;
    assert input[2..] == rest;
  }

  lemma TakesNoBody(input: seq<Value>, req: Request, rest: seq<Value>)
    requires WellFramed(req) && !HasBody(req) && input == EncodeOne(req) + rest
    ensures TakeOne(input) == Taken(Normalize(req), rest)
  {
    assert input == [RequestValue(req)] + rest;
    assert input[1..] == rest;
  }

  /** One turn of the loop takes exactly one request, with its body if it has one. */
  lemma TakesExactlyOne(reqs: seq<Request>)
    requires AllWellFramed(reqs) && reqs != []
    ensures TakeOne(Encode(reqs)) == Taken(Normalize(reqs[0]), Encode(reqs[1..]))
  {
    if HasBody(reqs[0]) {
      TakesBody(Encode(reqs), reqs[0], Encode(reqs[1..]));
    } else {
      TakesNoBody(Encode(reqs), reqs[0], Encode(reqs[1..]));
    }
  }

  // ---- The loop of Run by itself ----

  function ReadAll(input: seq<Value>): (seq<Request>, Status)
    decreases |input|
  {
    match TakeOne(input)
    case Nothing => ([], Ended)
    case Wrong => ([], Failed)
    case Fatal => ([], Dead)
    case Taken(req, rest) => var (reqs, status) := ReadAll(rest); ([req] + reqs, status)
  }

  /** One turn: a request, the fallback for its output ID, and its body. */
  method ReadOne(input: seq<Value>) returns (t: Taken)
    ensures t == TakeOne(input)
  {
    if input == [] {
      return Nothing;
    }
    if !input[0].RequestValue? {
      return Wrong;
    }
    var req := input[0].req.(body := None);
    if |req.outputId| == 0 && |req.objectId| != 0 {
      req := req.(outputId := req.objectId);
    }
    if req.command == CmdPut && req.bodySize > 0 {
      if |input| < 2 || !input[1].BytesValue? || |input[1].bytes| != req.bodySize {
        return Fatal;
      }
      return Taken(req.(body := Some(input[1].bytes)), input[2..]);
    }
    return Taken(req, input[1..]);
  }

  /** The requests for which Run starts a goroutine, in order, and how it ends. */
  method ReadRequests(input: seq<Value>) returns (spawned: seq<Request>, status: Status)
    ensures (spawned, status) == ReadAll(input)
    ensures forall reqs | AllWellFramed(reqs) && input == Encode(reqs) ::
              status == Ended && |spawned| == |reqs| && forall i | 0 <= i < |reqs| :: AsSent(spawned[i], reqs[i])
  {
    spawned, status := [], Reading;
    var rest := input;
    while true
      invariant status == Reading
      invariant ReadAll(input).0 == spawned + ReadAll(rest).0 && ReadAll(input).1 == ReadAll(rest).1
      decreases |rest|
    {
      assert spawned + [] == spawned;
      var t := ReadOne(rest);
      match t {
        case Nothing =>
          status := Ended;
          break;
        case Wrong =>
          status := Failed;
          break;
        case Fatal =>
          status := Dead;
          break;
        case Taken(req, rest') =>
          assert spawned + ([req] + ReadAll(rest').0) == spawned + [req] + ReadAll(rest').0;
          spawned, rest := spawned + [req], rest';
      }
    }
    forall reqs | AllWellFramed(reqs) && input == Encode(reqs)
      ensures status == Ended && |spawned| == |reqs| && forall i | 0 <= i < |reqs| :: AsSent(spawned[i], reqs[i])
    {
      EncodeThenRead(reqs);
    }
  }

  /** Reading undoes encoding, for every list of requests. */
  lemma {:induction false} EncodeThenRead(reqs: seq<Request>)
    requires AllWellFramed(reqs)
    ensures var (got, status) := ReadAll(Encode(reqs));
            status == Ended && |got| == |reqs| && forall i | 0 <= i < |reqs| :: AsSent(got[i], reqs[i])
  {
    if reqs != [] {
      TakesExactlyOne(reqs);
      NormalizedAsSent(reqs[0]);
      EncodeThenRead(reqs[1..]);
      var got, rest := ReadAll(Encode(reqs)).0, ReadAll(Encode(reqs[1..])).0;
      assert got == [Normalize(reqs[0])] + rest;
      forall i | 1 <= i < |reqs|
        ensures AsSent(got[i], reqs[i])
      {
        assert got[i] == rest[i - 1] && reqs[i] == reqs[1..][i - 1];
      }
    }
  }

  lemma HandlersKeepDecoded(env: Env, s: State, reqs: seq<Request>, e: Event)
    requires AllWellFramed(reqs) && Decoded(reqs, s) && !e.Decode? && At(s, e.i)
    ensures Decoded(reqs, HandlerNext(env, s, e))
  {
    var s' := HandlerNext(env, s, e);
    assert |s'.handlers| == |s.handlers| && s'.handlers[e.i].req == s.handlers[e.i].req;
    assert s'.input == s.input && s'.status == s.status;
  }

  lemma DecodeKeepsDecoded(s: State, reqs: seq<Request>)
    requires AllWellFramed(reqs) && Decoded(reqs, s) && s.status == Reading
    ensures Decoded(reqs, DecodeNext(s))
  {
    var n := |s.handlers|;
    if n < |reqs| {
      assert forall req | req in reqs[n..] :: req in reqs;
      TakesExactlyOne(reqs[n..]);
      assert reqs[n..][1..] == reqs[n + 1..];
    } else {
      assert reqs[n..] == [];
    }
  }

  lemma NextKeepsDecoded(env: Env, s: State, reqs: seq<Request>, e: Event)
    requires AllWellFramed(reqs) && Decoded(reqs, s)
    ensures Decoded(reqs, Next(env, s, e))
  {
    if e.Decode? && s.status == Reading {
      DecodeKeepsDecoded(s, reqs);
    } else if !e.Decode? && At(s, e.i) {
      HandlersKeepDecoded(env, s, reqs, e);
    }
  }

  lemma {:induction false} RunDecodes(env: Env, reqs: seq<Request>, events: seq<Event>)
    requires AllWellFramed(reqs)
    ensures Decoded(reqs, Run(env, Init(Encode(reqs)), events))
  {
    if events == [] {
      assert reqs[0..] == reqs;
    } else {
      RunDecodes(env, reqs, events[..|events| - 1]);
      NextKeepsDecoded(env, Run(env, Init(Encode(reqs)), events[..|events| - 1]), reqs, events[|events| - 1]);
    }
  }

  /** In every run over the encoding of a request list: the requests decoded are a prefix of the list, in
      order and with their bodies; the process neither dies nor fails; and it ends only after the last. */
  lemma StreamIsSplitBack(env: Env, reqs: seq<Request>, events: seq<Event>)
    requires AllWellFramed(reqs)
    ensures var s := Run(env, Init(Encode(reqs)), events);
            && |s.handlers| <= |reqs|
            && (forall i | 0 <= i < |s.handlers| :: AsSent(s.handlers[i].req, reqs[i]))
            && (s.status == Reading || s.status == Ended)
            && (s.status == Ended ==> |s.handlers| == |reqs|)
  {
    RunDecodes(env, reqs, events);
    var s := Run(env, Init(Encode(reqs)), events);
    forall i | 0 <= i < |s.handlers|
      ensures AsSent(s.handlers[i].req, reqs[i])
    {
      NormalizedAsSent(reqs[i]);
    }
  }

  predicate BodiesAsDeclared(s: State) {
    forall i | 0 <= i < |s.handlers| :: WellFramed(s.handlers[i].req)
  }

  /** Whatever the input, no handler ever sees a put whose body has not the declared size. */
  lemma {:induction false} BodiesHaveTheirSize(env: Env, input: seq<Value>, events: seq<Event>)
    ensures BodiesAsDeclared(Run(env, Init(input), events))
  {
    if events != [] {
      var s := Run(env, Init(input), events[..|events| - 1]);
      BodiesHaveTheirSize(env, input, events[..|events| - 1]);
      assert forall i | 0 <= i < |s.handlers| :: WellFramed(s.handlers[i].req);
    }
  }

  // ---- Counting handlers ----

  datatype Kind = GetsStarted | GetsHit | GetsMissed | GetsFailed | PutsStarted | PutsFailed | InFlight | Answered

  predicate HasResult(h: Handler) {
    h.phase.Finished? || h.phase.Writing? || h.phase.Replied?
  }

  predicate Is(kind: Kind, h: Handler) {
    match kind
    case GetsStarted => h.req.command == CmdGet && h.phase != Spawned
    case GetsHit => h.req.command == CmdGet && HasResult(h) && !h.phase.result.failed && !h.phase.result.miss
    case GetsMissed => h.req.command == CmdGet && HasResult(h) && !h.phase.result.failed && h.phase.result.miss
    case GetsFailed => h.req.command == CmdGet && HasResult(h) && h.phase.result.failed
    case PutsStarted => h.req.command == CmdPut && h.phase != Spawned
    case PutsFailed => h.req.command == CmdPut && HasResult(h) && h.phase.result.failed
    case InFlight => !h.phase.Replied?
    case Answered => h.phase.Replied?
  }

  function One(b: bool): nat {
    if b then 1 else 0
  }

  function Count(kind: Kind, hs: seq<Handler>): nat {
    if hs == [] then 0 else Count(kind, hs[..|hs| - 1]) + One(Is(kind, hs[|hs| - 1]))
  }

  lemma CountAppend(kind: Kind, hs: seq<Handler>, h: Handler)
    ensures Count(kind, hs + [h]) == Count(kind, hs) + One(Is(kind, h))
  {
    assert (hs + [h])[..|hs|] == hs;
  }

  lemma {:induction false} CountUpdate(kind: Kind, hs: seq<Handler>, i: nat, h: Handler)
    requires i < |hs|
    ensures Count(kind, hs[i := h]) + One(Is(kind, hs[i])) == Count(kind, hs) + One(Is(kind, h))
  {
    var last := |hs| - 1;
    if i < last {
      CountUpdate(kind, hs[..last], i, h);
      assert hs[i := h][..last] == hs[..last][i := h];
    } else {
      assert hs[i := h][..last] == hs[..last];
    }
  }

  function CounterOf(kind: Kind, s: State): int {
    match kind
    case GetsStarted => s.counters.gets
    case GetsHit => s.counters.getHits
    case GetsMissed => s.counters.getMisses
    case GetsFailed => s.counters.getErrors
    case PutsStarted => s.counters.puts
    case PutsFailed => s.counters.putErrors
    case InFlight => |s.handlers| - |s.sent|
    case Answered => |s.sent|
  }

  /** Every counter is the number of handlers it stands for. */
  predicate CountersOk(s: State) {
    forall kind: Kind :: CounterOf(kind, s) == Count(kind, s.handlers)
  }

  lemma DecodeKeepsCounters(s: State)
    requires CountersOk(s)
    ensures CountersOk(DecodeNext(s))
  {
    var s' := DecodeNext(s);
    if |s'.handlers| > |s.handlers| {
      var h := s'.handlers[|s.handlers|];
      assert s'.handlers == s.handlers + [h];
      forall kind: Kind
        ensures CounterOf(kind, s') == Count(kind, s'.handlers)
      {
        CountAppend(kind, s.handlers, h);
        assert CounterOf(kind, s) == Count(kind, s.handlers);
      }
    } else {
      assert forall kind: Kind :: CounterOf(kind, s') == CounterOf(kind, s);
    }
  }

  lemma StepCounts(env: Env, s: State, e: Event, kind: Kind)
    requires !e.Decode? && At(s, e.i)
    ensures var s' := HandlerNext(env, s, e);
            CounterOf(kind, s') + One(Is(kind, s.handlers[e.i])) == CounterOf(kind, s) + One(Is(kind, s'.handlers[e.i]))
  {
    match e
    case Start(i) =>
    case Finish(i, result) =>
    case LockWriter(i) =>
    case WritePiece(i, n) =>
    case UnlockWriter(i) =>
  }

  lemma HandlerKeepsCounter(env: Env, s: State, e: Event, kind: Kind)
    requires !e.Decode? && At(s, e.i) && CounterOf(kind, s) == Count(kind, s.handlers)
    ensures var s' := HandlerNext(env, s, e); CounterOf(kind, s') == Count(kind, s'.handlers)
  {
    var s' := HandlerNext(env, s, e);
    assert s'.handlers == s.handlers[e.i := s'.handlers[e.i]];
    CountUpdate(kind, s.handlers, e.i, s'.handlers[e.i]);
    StepCounts(env, s, e, kind);
  }

  lemma HandlerKeepsCounters(env: Env, s: State, e: Event)
    requires CountersOk(s) && !e.Decode? && At(s, e.i)
    ensures CountersOk(HandlerNext(env, s, e))
  {
    forall kind: Kind
      ensures CounterOf(kind, HandlerNext(env, s, e)) == Count(kind, HandlerNext(env, s, e).handlers)
    {
      assert CounterOf(kind, s) == Count(kind, s.handlers);
      HandlerKeepsCounter(env, s, e, kind);
    }
  }

  lemma {:induction false} RunKeepsCounters(env: Env, input: seq<Value>, events: seq<Event>)
    ensures CountersOk(Run(env, Init(input), events))
  {
    if events == [] {
      assert forall kind: Kind :: CounterOf(kind, Init(input)) == 0;
    } else {
      var s, e := Run(env, Init(input), events[..|events| - 1]), events[|events| - 1];
      RunKeepsCounters(env, input, events[..|events| - 1]);
      if s.status == Dead {
      } else if e.Decode? {
        DecodeKeepsCounters(s);
      } else if At(s, e.i) {
        HandlerKeepsCounters(env, s, e);
      }
    }
  }

  /** The handlers of one kind. */
  function Members(kind: Kind, hs: seq<Handler>): set<int> {
    set i | 0 <= i < |hs| && Is(kind, hs[i])
  }

  lemma {:induction false} CountIsSize(kind: Kind, hs: seq<Handler>)
    ensures Count(kind, hs) == |Members(kind, hs)|
  {
    if hs == [] {
      assert Members(kind, hs) == {};
    } else {
      var last := |hs| - 1;
      CountIsSize(kind, hs[..last]);
      OneMoreMember(kind, hs);
    }
  }

  lemma OneMoreMember(kind: Kind, hs: seq<Handler>)
    requires hs != []
    ensures |Members(kind, hs)| == |Members(kind, hs[..|hs| - 1])| + One(Is(kind, hs[|hs| - 1]))
  {
    var last := |hs| - 1;
    SameOrOneMore(Members(kind, hs), Members(kind, hs[..last]), last, Is(kind, hs[last]));
  }

  lemma SameOrOneMore<T>(all: set<T>, before: set<T>, last: T, more: bool)
    requires last !in before && before <= all && (last in all <==> more)
    requires forall i | i in all && i != last :: i in before
    ensures |all| == |before| + One(more)
  {
    if more {
      assert all == before + {last};
    } else {
      assert all == before;
    }
  }

  /** In every run each counter is the number of handlers it promises to count. */
  lemma CountersCount(env: Env, input: seq<Value>, events: seq<Event>)
    ensures var s := Run(env, Init(input), events); var hs := s.handlers;
            var gets := set i | 0 <= i < |hs| && hs[i].req.command == CmdGet && hs[i].phase != Spawned;
            var puts := set i | 0 <= i < |hs| && hs[i].req.command == CmdPut && hs[i].phase != Spawned;
            && s.counters.gets == |gets| && s.counters.puts == |puts|
            && s.counters.getHits ==
                 |set i | i in gets && HasResult(hs[i]) && !hs[i].phase.result.failed && !hs[i].phase.result.miss|
            && s.counters.getMisses ==
                 |set i | i in gets && HasResult(hs[i]) && !hs[i].phase.result.failed && hs[i].phase.result.miss|
            && s.counters.getErrors == |set i | i in gets && HasResult(hs[i]) && hs[i].phase.result.failed|
            && s.counters.putErrors == |set i | i in puts && HasResult(hs[i]) && hs[i].phase.result.failed|
  {
    var s := Run(env, Init(input), events);
    RunKeepsCounters(env, input, events);
    KindsAre(s.handlers);
    forall kind: Kind
      ensures CounterOf(kind, s) == |Members(kind, s.handlers)|
    {
      CountIsSize(kind, s.handlers);
    }
    assert CounterOf(GetsStarted, s) == |Members(GetsStarted, s.handlers)|;
    assert CounterOf(GetsHit, s) == |Members(GetsHit, s.handlers)|;
    assert CounterOf(GetsMissed, s) == |Members(GetsMissed, s.handlers)|;
    assert CounterOf(GetsFailed, s) == |Members(GetsFailed, s.handlers)|;
    assert CounterOf(PutsStarted, s) == |Members(PutsStarted, s.handlers)|;
    assert CounterOf(PutsFailed, s) == |Members(PutsFailed, s.handlers)|;
  }

  lemma KindsAre(hs: seq<Handler>)
    ensures var gets := set i | 0 <= i < |hs| && hs[i].req.command == CmdGet && hs[i].phase != Spawned;
            var puts := set i | 0 <= i < |hs| && hs[i].req.command == CmdPut && hs[i].phase != Spawned;
            && Members(GetsStarted, hs) == gets && Members(PutsStarted, hs) == puts
            && Members(GetsHit, hs) ==
                 (set i | i in gets && HasResult(hs[i]) && !hs[i].phase.result.failed && !hs[i].phase.result.miss)
            && Members(GetsMissed, hs) ==
                 (set i | i in gets && HasResult(hs[i]) && !hs[i].phase.result.failed && hs[i].phase.result.miss)
            && Members(GetsFailed, hs) == (set i | i in gets && HasResult(hs[i]) && hs[i].phase.result.failed)
            && Members(PutsFailed, hs) == (set i | i in puts && HasResult(hs[i]) && hs[i].phase.result.failed)
  {
  }

  function GetsInFlight(hs: seq<Handler>): nat {
    if hs == [] then 0
    else GetsInFlight(hs[..|hs| - 1]) + One(hs[|hs| - 1].req.command == CmdGet && hs[|hs| - 1].phase == Working)
  }

  lemma {:induction false} CountsAddUp(hs: seq<Handler>)
    ensures Count(GetsStarted, hs)
         == Count(GetsHit, hs) + Count(GetsMissed, hs) + Count(GetsFailed, hs) + GetsInFlight(hs)
    ensures Count(InFlight, hs) + Count(Answered, hs) == |hs|
    ensures Count(PutsFailed, hs) <= Count(PutsStarted, hs)
  {
    if hs != [] {
      CountsAddUp(hs[..|hs| - 1]);
    }
  }

  /** In every run: replies written plus handlers in flight are the requests decoded, and every get that
      has started is counted as a hit, a miss, an error, or is in flight. */
  lemma RepliesAndCountersBalance(env: Env, input: seq<Value>, events: seq<Event>)
    ensures var s := Run(env, Init(input), events); var c := s.counters;
            && |s.sent| + Count(InFlight, s.handlers) == |s.handlers|
            && c.gets == c.getHits + c.getMisses + c.getErrors + GetsInFlight(s.handlers)
            && c.putErrors <= c.puts
  {
    RunKeepsCounters(env, input, events);
    CountersBalance(Run(env, Init(input), events));
  }

  lemma CountersBalance(s: State)
    requires CountersOk(s)
    ensures var c := s.counters;
            && |s.sent| + Count(InFlight, s.handlers) == |s.handlers|
            && c.gets == c.getHits + c.getMisses + c.getErrors + GetsInFlight(s.handlers)
            && c.putErrors <= c.puts
  {
    CountsAddUp(s.handlers);
    assert CounterOf(GetsStarted, s) == Count(GetsStarted, s.handlers);
    assert CounterOf(GetsHit, s) == Count(GetsHit, s.handlers);
    assert CounterOf(GetsMissed, s) == Count(GetsMissed, s.handlers);
    assert CounterOf(GetsFailed, s) == Count(GetsFailed, s.handlers);
    assert CounterOf(PutsStarted, s) == Count(PutsStarted, s.handlers);
    assert CounterOf(PutsFailed, s) == Count(PutsFailed, s.handlers);
    assert CounterOf(Answered, s) == Count(Answered, s.handlers);
  }

  // ---- Replies ----

  function Lines(env: Env, sent: seq<Sent>): Bytes {
    if sent == [] then [] else Lines(env, sent[..|sent| - 1]) + env.encode(sent[|sent| - 1].response)
  }

  predicate WriterOk(env: Env, s: State) {
    && (forall i | 0 <= i < |s.handlers| :: s.handlers[i].phase.Writing? <==> s.writer == Some(i))
    && (s.writer.Some? ==>
          && At(s, s.writer.value)
          && s.handlers[s.writer.value].phase.n <= |env.encode(ResponseOf(s.handlers[s.writer.value]))|)
  }

  /** The part of its line that the holder of the mutex has written. */
  function Partial(env: Env, s: State): Bytes
    requires WriterOk(env, s)
  {
    if s.writer == None then []
    else
      var h := s.handlers[s.writer.value];
      env.encode(ResponseOf(h))[..h.phase.n]
  }

  predicate SentOk(s: State) {
    && (forall k | 0 <= k < |s.sent| ::
          && At(s, s.sent[k].from)
          && s.handlers[s.sent[k].from].phase.Replied?
          && s.sent[k].response == ResponseOf(s.handlers[s.sent[k].from]))
    && (forall j, k | 0 <= j < k < |s.sent| :: s.sent[j].from != s.sent[k].from)
  }

  predicate OutputOk(env: Env, s: State) {
    && WriterOk(env, s)
    && SentOk(s)
    && s.output == Lines(env, s.sent) + Partial(env, s)
  }

  lemma OthersKeepWriter(env: Env, s: State, s': State, i: nat)
    requires WriterOk(env, s) && At(s, i) && |s'.handlers| == |s.handlers|
    requires s'.handlers == s.handlers[i := s'.handlers[i]] && s'.writer == s.writer
    requires !s.handlers[i].phase.Writing? && !s'.handlers[i].phase.Writing?
    ensures WriterOk(env, s') && Partial(env, s') == Partial(env, s)
  {
  }

  lemma OthersKeepSent(s: State, s': State, i: nat)
    requires SentOk(s) && At(s, i) && |s'.handlers| == |s.handlers|
    requires s'.handlers == s.handlers[i := s'.handlers[i]] && s'.sent == s.sent && !s.handlers[i].phase.Replied?
    ensures SentOk(s')
  {
  }

  /** A handler that starts or finishes its work. */
  lemma WorkKeepsOutput(env: Env, s: State, e: Event)
    requires OutputOk(env, s) && (e.Start? || e.Finish?) && At(s, e.i)
    ensures OutputOk(env, HandlerNext(env, s, e))
  {
    var s' := HandlerNext(env, s, e);
    if s' != s {
      OthersKeepWriter(env, s, s', e.i);
      OthersKeepSent(s, s', e.i);
    }
  }

  lemma LockKeepsOutput(env: Env, s: State, i: nat)
    requires OutputOk(env, s) && At(s, i)
    ensures OutputOk(env, HandlerNext(env, s, LockWriter(i)))
  {
    var s' := HandlerNext(env, s, LockWriter(i));
    if s' != s {
      OthersKeepSent(s, s', i);
      assert WriterOk(env, s') && Partial(env, s') == [];
    }
  }

  lemma PieceKeepsOutput(env: Env, s: State, i: nat, n: nat)
    requires OutputOk(env, s) && At(s, i)
    ensures OutputOk(env, HandlerNext(env, s, WritePiece(i, n)))
  {
    var s', h := HandlerNext(env, s, WritePiece(i, n)), s.handlers[i];
    if s' != s {
      var line := env.encode(ResponseOf(h));
      OthersKeepSent(s, s', i);
      assert WriterOk(env, s');
      assert Partial(env, s) == line[..h.phase.n] && Partial(env, s') == line[..h.phase.n + n];
      assert line[..h.phase.n] + line[h.phase.n..h.phase.n + n] == line[..h.phase.n + n];
    }
  }

  lemma UnlockKeepsSent(env: Env, s: State, i: nat)
    requires OutputOk(env, s) && At(s, i) && HandlerNext(env, s, UnlockWriter(i)) != s
    ensures SentOk(HandlerNext(env, s, UnlockWriter(i)))
  {
    var s' := HandlerNext(env, s, UnlockWriter(i));
    assert s'.sent == s.sent + [Sent(i, ResponseOf(s.handlers[i]))];
    forall k | 0 <= k < |s.sent|
      ensures s.sent[k].from != i && s'.handlers[s.sent[k].from] == s.handlers[s.sent[k].from]
    {
    }
  }

  lemma UnlockFreesWriter(env: Env, s: State, i: nat)
    requires OutputOk(env, s) && At(s, i) && HandlerNext(env, s, UnlockWriter(i)) != s
    ensures var s' := HandlerNext(env, s, UnlockWriter(i));
            && WriterOk(env, s') && Partial(env, s') == []
            && Partial(env, s) == env.encode(ResponseOf(s.handlers[i]))
  {
    var line := env.encode(ResponseOf(s.handlers[i]));
    assert line[..s.handlers[i].phase.n] == line;
  }

  lemma OneMoreLine(env: Env, sent: seq<Sent>, one: Sent)
    ensures Lines(env, sent + [one]) == Lines(env, sent) + env.encode(one.response)
  {
    assert (sent + [one])[..|sent|] == sent;
  }

  lemma UnlockKeepsOutput(env: Env, s: State, i: nat)
    requires OutputOk(env, s) && At(s, i)
    ensures OutputOk(env, HandlerNext(env, s, UnlockWriter(i)))
  {
    if HandlerNext(env, s, UnlockWriter(i)) != s {
      UnlockKeepsSent(env, s, i);
      UnlockFreesWriter(env, s, i);
      OneMoreLine(env, s.sent, Sent(i, ResponseOf(s.handlers[i])));
    }
  }

  lemma HandlerKeepsOutput(env: Env, s: State, e: Event)
    requires OutputOk(env, s) && !e.Decode? && At(s, e.i)
    ensures OutputOk(env, HandlerNext(env, s, e))
  {
    match e
    case Start(_) => WorkKeepsOutput(env, s, e);
    case Finish(_, _) => WorkKeepsOutput(env, s, e);
    case LockWriter(i) => LockKeepsOutput(env, s, i);
    case WritePiece(i, n) => PieceKeepsOutput(env, s, i, n);
    case UnlockWriter(i) => UnlockKeepsOutput(env, s, i);
  }

  lemma SpawnsAtMostOne(s: State)
    ensures var s' := DecodeNext(s);
            && |s.handlers| <= |s'.handlers|
            && (forall i | 0 <= i < |s.handlers| :: s'.handlers[i] == s.handlers[i])
            && (forall i | |s.handlers| <= i < |s'.handlers| :: s'.handlers[i].phase == Spawned)
            && s'.writer == s.writer && s'.output == s.output && s'.sent == s.sent
  {
  }

  lemma DecodeKeepsOutput(env: Env, s: State)
    requires OutputOk(env, s)
    ensures OutputOk(env, DecodeNext(s))
  {
    var s' := DecodeNext(s);
    SpawnsAtMostOne(s);
    assert WriterOk(env, s') && Partial(env, s') == Partial(env, s);
    assert SentOk(s');
  }

  lemma NextKeepsOutput(env: Env, s: State, e: Event)
    requires OutputOk(env, s)
    ensures OutputOk(env, Next(env, s, e))
  {
    if s.status != Dead {
      if e.Decode? {
        DecodeKeepsOutput(env, s);
      } else if At(s, e.i) {
        HandlerKeepsOutput(env, s, e);
      }
    }
  }

  lemma {:induction false} RunKeepsOutput(env: Env, input: seq<Value>, events: seq<Event>)
    ensures OutputOk(env, Run(env, Init(input), events))
  {
    if events != [] {
      RunKeepsOutput(env, input, events[..|events| - 1]);
      NextKeepsOutput(env, Run(env, Init(input), events[..|events| - 1]), events[|events| - 1]);
    }
  }

  /** In every run, standard output is a sequence of whole reply lines, at most one for each request, and
      then at most a part of one more line: replies never interleave. Each carries its request's ID. */
  lemma RepliesAreWholeAndSingle(env: Env, input: seq<Value>, events: seq<Event>)
    ensures var s := Run(env, Init(input), events);
            && (s.writer == None ==> s.output == Lines(env, s.sent))
            && (s.writer.Some? ==>
                  && At(s, s.writer.value)
                  && var h := s.handlers[s.writer.value];
                     && h.phase.Writing? && h.phase.n <= |env.encode(ResponseOf(h))|
                     && s.output == Lines(env, s.sent) + env.encode(ResponseOf(h))[..h.phase.n])
            && (forall k | 0 <= k < |s.sent| ::
                  && s.sent[k].from < |s.handlers|
                  && s.sent[k].response.id == s.handlers[s.sent[k].from].req.id)
            && (forall j, k | 0 <= j < k < |s.sent| :: s.sent[j].from != s.sent[k].from)
  {
    RunKeepsOutput(env, input, events);
  }

  predicate UnknownFails(s: State) {
    forall i | 0 <= i < |s.handlers| :: s.handlers[i].req.command.Unknown? && HasResult(s.handlers[i]) ==>
      s.handlers[i].phase.result.failed && s.handlers[i].phase.result == ERROR
  }

  lemma HandlerKeepsUnknownFails(env: Env, s: State, e: Event)
    requires UnknownFails(s) && !e.Decode? && At(s, e.i)
    ensures UnknownFails(HandlerNext(env, s, e))
  {
    var h, h' := s.handlers[e.i], HandlerNext(env, s, e).handlers[e.i];
    assert HandlerNext(env, s, e).handlers == s.handlers[e.i := h'];
    assert h'.req == h.req && (HasResult(h) && HasResult(h') ==> h'.phase.result == h.phase.result);
  }

  lemma NextKeepsUnknownFails(env: Env, s: State, e: Event)
    requires UnknownFails(s)
    ensures UnknownFails(Next(env, s, e))
  {
    if s.status != Dead {
      if e.Decode? {
        SpawnsAtMostOne(s);
      } else if At(s, e.i) {
        HandlerKeepsUnknownFails(env, s, e);
      }
    }
  }

  lemma {:induction false} RunKeepsUnknownFails(env: Env, input: seq<Value>, events: seq<Event>)
    ensures UnknownFails(Run(env, Init(input), events))
  {
    if events != [] {
      RunKeepsUnknownFails(env, input, events[..|events| - 1]);
      NextKeepsUnknownFails(env, Run(env, Init(input), events[..|events| - 1]), events[|events| - 1]);
    }
  }

  /** Every request with a command that the program does not know gets an error for its reply. */
  lemma UnknownCommandsFail(env: Env, input: seq<Value>, events: seq<Event>)
    ensures var s := Run(env, Init(input), events);
            forall k | 0 <= k < |s.sent| :: s.sent[k].from < |s.handlers|
              && (s.handlers[s.sent[k].from].req.command.Unknown? ==> s.sent[k].response.result.failed)
  {
    RunKeepsOutput(env, input, events);
    RunKeepsUnknownFails(env, input, events);
  }

  /** So, if cmd/go numbers its requests uniquely, no ID is answered twice and none that was not asked. */
  lemma IdsAreAnsweredOnce(env: Env, reqs: seq<Request>, events: seq<Event>)
    requires AllWellFramed(reqs) && forall i, j | 0 <= i < j < |reqs| :: reqs[i].id != reqs[j].id
    ensures var s := Run(env, Init(Encode(reqs)), events);
            && (forall k | 0 <= k < |s.sent| :: exists i :: 0 <= i < |reqs| && s.sent[k].response.id == reqs[i].id)
            && (forall j, k | 0 <= j < k < |s.sent| :: s.sent[j].response.id != s.sent[k].response.id)
  {
    StreamIsSplitBack(env, reqs, events);
    RepliesAreWholeAndSingle(env, Encode(reqs), events);
    var s := Run(env, Init(Encode(reqs)), events);
    forall k | 0 <= k < |s.sent|
      ensures s.sent[k].from < |reqs| && s.sent[k].response.id == reqs[s.sent[k].from].id
    {
    }
  }
}

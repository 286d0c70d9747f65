/** Access times are written in batches. This module has the batch with its flush timer, the timed runs
    of hits, flushes, inserts and evictions, and how far a recorded access time can lag. */
module AccessTimes {
  import opened Basics
  import opened Clock
  import opened Store

  const REL_ATIME_SECONDS: int := 86_400
  const ACCESS_BATCH_SIZE_SOFT_LIMIT: nat := 1000
  const FLUSH_DELAY: int := 5 * SECOND

  /** timer is accessFlushTimer; timers holds the deadline of every timer that has yet to fire, which
      may include timers the server no longer refers to. */
  datatype Batch = Batch(dirty: map<string, int>, timer: Option<nat>, timers: map<nat, int>, nextTimer: nat)

  const EMPTY_BATCH := Batch(map[], None, map[], 0)

  function Enqueue(b: Batch, actionId: string, now: int): Batch {
    if actionId in b.dirty then b
    else
      var dirty := b.dirty[actionId := Unix(now)];
      match b.timer
      case None =>
        Batch(dirty, Some(b.nextTimer), b.timers[b.nextTimer := now + FLUSH_DELAY], b.nextTimer + 1)
      case Some(timer) =>
        if |dirty| < ACCESS_BATCH_SIZE_SOFT_LIMIT
        then b.(dirty := dirty, timers := b.timers[timer := now + FLUSH_DELAY])
        else b.(dirty := dirty)
  }

  /** Whether a hit on a row with this access time is old enough to be recorded. */
  predicate WantsBump(accessTime: int, now: int) {
    accessTime <= Unix(now) - REL_ATIME_SECONDS
  }

  function MaybeBump(b: Batch, actionId: string, accessTime: int, now: int): Batch {
    if WantsBump(accessTime, now) then Enqueue(b, actionId, now) else b
  }

  /** A flush without errors: the timer reference is dropped, but not stopped. */
  function FlushBatch(b: Batch): Batch {
    b.(dirty := map[], timer := None)
  }

  /** A flush that fails keeps the batch and sets a new timer. */
  function RetryFlush(b: Batch, now: int): Batch {
    b.(timer := Some(b.nextTimer), timers := b.timers[b.nextTimer := now + FLUSH_DELAY], nextTimer := b.nextTimer + 1)
  }

  /** With nothing pending there is nothing that could fail. */
  function FlushOutcome(b: Batch, now: int, fails: bool): Batch {
    if fails && b.dirty != map[] then RetryFlush(b, now) else FlushBatch(b)
  }

  function FlushActions(actions: map<string, ActionRow>, dirty: map<string, int>): map<string, ActionRow> {
    map a | a in actions :: if a in dirty then actions[a].(accessTime := dirty[a]) else actions[a]
  }

  // ---- What a hit, a bump and a flush do ----

  lemma EnqueueAdds(b: Batch, actionId: string, now: int)
    ensures Enqueue(b, actionId, now).dirty ==
              if actionId in b.dirty then b.dirty else b.dirty[actionId := Unix(now)]
  {
  }

  /** A hit within a day of the stored access time leaves no trace; a later one is pending from then on, with
      its own time unless an earlier hit of the batch is pending already. Nothing else becomes pending. */
  lemma HitIsPending(b: Batch, actionId: string, accessTime: int, now: int)
    ensures var b' := MaybeBump(b, actionId, accessTime, now);
            && (Unix(now) - accessTime < 86_400 ==> b' == b)
            && (Unix(now) - accessTime >= 86_400 ==>
                  && actionId in b'.dirty
                  && b'.dirty[actionId] == if actionId in b.dirty then b.dirty[actionId] else Unix(now))
            && b'.dirty - {actionId} == b.dirty - {actionId}
  {
    EnqueueAdds(b, actionId, now);
  }

  /** A new entry puts the flush off to five seconds from now, unless 999 entries are there already; a
      batch without a timer gets one. No other timer is touched. */
  lemma BumpSetsTimer(b: Batch, actionId: string, now: int)
    requires b.timer.Some? ==> b.timer.value in b.timers
    ensures var b' := Enqueue(b, actionId, now);
            && (actionId in b.dirty ==> b' == b)
            && (actionId !in b.dirty ==>
                  && b'.timer == (if b.timer.Some? then b.timer else Some(b.nextTimer))
                  && b'.timer.value in b'.timers
                  && b'.timers[b'.timer.value] == (if b.timer.Some? && |b.dirty| >= 999 then b.timers[b.timer.value]
                                                   else now + 5_000_000_000)
                  && b'.timers - {b'.timer.value} == b.timers - {b'.timer.value})
  {
    OneMoreEntry(b.dirty, actionId, Unix(now));
  }

  /** A flush empties the batch and stops no timer; one that fails keeps the batch and comes again in five
      seconds. */
  lemma FlushSetsTimer(b: Batch, now: int, fails: bool)
    ensures var b' := FlushOutcome(b, now, fails);
            if fails && b.dirty != map[] then
              && b'.dirty == b.dirty && b'.timer == Some(b.nextTimer)
              && b'.timers == b.timers[b.nextTimer := now + 5_000_000_000]
            else b'.dirty == map[] && b'.timer == None && b'.timers == b.timers
  {
  }

  // ---- Timed runs ----

  /** firstEntry is when the current batch got its first entry, failures how often its flush has failed,
      worst the largest number of failures of any batch, and lastHit the latest GET hit of each live
      action. They are read only by the proofs. */
  datatype State = State(
    now: int,
    actions: map<string, ActionRow>,
    batch: Batch,
    firstEntry: int,
    failures: nat,
    worst: nat,
    lastHit: map<string, int>)

  function Init(now: int): State {
    State(now, map[], EMPTY_BATCH, now, 0, 0, map[])
  }

  datatype Event =
    | Tick(ns: nat)
    | Hit(actionId: string)
    | Fire(timer: nat, fails: bool)
    | FlushNow(fails: bool)                 // the flush at the start of usageStats
    | Insert(actionId: string, row: ActionRow)
    | Evict(actionId: string)

  /** Time does not pass a deadline: a due timer fires first. */
  predicate MayTick(s: State, ns: nat) {
    forall id | id in s.batch.timers :: s.now + ns <= s.batch.timers[id]
  }

  function Flush(s: State, fails: bool): State {
    if fails && s.batch.dirty != map[]
    then s.(batch := FlushOutcome(s.batch, s.now, true),
            failures := s.failures + 1, worst := Max(s.worst, s.failures + 1))
    else s.(actions := FlushActions(s.actions, s.batch.dirty), batch := FlushOutcome(s.batch, s.now, false))
  }

  function Next(s: State, e: Event): State {
    match e
    case Tick(ns) => if MayTick(s, ns) then s.(now := s.now + ns) else s
    case Hit(a) =>
      if a in s.actions then
        var batch := MaybeBump(s.batch, a, s.actions[a].accessTime, s.now);
        s.(batch := batch,
           firstEntry := if s.batch.dirty == map[] then s.now else s.firstEntry,
           failures := if s.batch.dirty == map[] then 0 else s.failures,
           lastHit := s.lastHit[a := s.now])
      else s
    case Fire(timer, fails) =>
      if timer in s.batch.timers && s.batch.timers[timer] <= s.now
      then Flush(s.(batch := s.batch.(timers := s.batch.timers - {timer})), fails) else s
    case FlushNow(fails) => if s.batch.dirty != map[] then Flush(s, fails) else s
    case Insert(a, row) =>
      if a !in s.actions then s.(actions := s.actions[a := row.(createTime := Unix(s.now), accessTime := Unix(s.now))])
      else s
    case Evict(a) => s.(actions := s.actions - {a}, lastHit := s.lastHit - {a})
  }

  function Run(s: State, events: seq<Event>): State {
    if events == [] then s else Next(Run(s, events[..|events| - 1]), events[|events| - 1])
  }

  /** Pending if there is one, else stored. */
  function Recorded(s: State, actionId: string): int
    requires actionId in s.actions
  {
    if actionId in s.batch.dirty then s.batch.dirty[actionId] else s.actions[actionId].accessTime
  }

  // ---- Invariants ----

  ghost predicate TimersOk(s: State) {
    && (forall id | id in s.batch.timers :: id < s.batch.nextTimer && s.now <= s.batch.timers[id])
    && (s.batch.timer.Some? ==> s.batch.timer.value in s.batch.timers)
  }

  /** A batch of n entries is due at most 5n seconds after its first, no reset comes after 999, and each
      failure adds 5 seconds at most. */
  ghost predicate BatchDue(s: State) {
    && s.failures <= s.worst
    && (s.batch.dirty != map[] ==>
          && s.batch.timer.Some? && s.batch.timer.value in s.batch.timers
          && s.firstEntry <= s.now
          && s.batch.timers[s.batch.timer.value]
             <= s.firstEntry + FLUSH_DELAY * (Min(|s.batch.dirty|, 999) + s.failures)
          && (forall a | a in s.batch.dirty :: Unix(s.firstEntry) <= s.batch.dirty[a]))
  }

  /** A day, unless flushes fail so often that a batch can get older than that. */
  function MaxLag(worst: nat): int {
    Max(REL_ATIME_SECONDS, 4996 + 5 * worst)
  }

  ghost predicate LagOk(s: State) {
    && (forall a | a in s.lastHit :: a in s.actions && s.lastHit[a] <= s.now)
    && (forall a | a in s.lastHit :: Unix(s.lastHit[a]) - Recorded(s, a) < MaxLag(s.worst))
  }

  ghost predicate Inv(s: State) {
    TimersOk(s) && BatchDue(s) && LagOk(s)
  }

  /** A batch that is still open is at most 4995 seconds old, and 5 more for each failure. */
  lemma BatchAge(s: State)
    requires TimersOk(s) && BatchDue(s) && s.batch.dirty != map[]
    ensures s.now <= s.firstEntry + (4995 + 5 * s.failures) * SECOND
    ensures Unix(s.now) <= Unix(s.firstEntry) + 4995 + 5 * s.failures
  {
    assert Min(|s.batch.dirty|, 999) <= 999;
  }

  function AfterEnqueue(s: State, actionId: string): State {
    s.(batch := Enqueue(s.batch, actionId, s.now),
       firstEntry := if s.batch.dirty == map[] then s.now else s.firstEntry,
       failures := if s.batch.dirty == map[] then 0 else s.failures)
  }

  lemma OneMoreEntry(dirty: map<string, int>, actionId: string, time: int)
    ensures |dirty[actionId := time]| == |dirty| + if actionId in dirty then 0 else 1
  {
    assert dirty[actionId := time].Keys == dirty.Keys + {actionId};
  }

  lemma UnixIsMonotone(earlier: int, later: int)
    requires earlier <= later
    ensures Unix(earlier) <= Unix(later)
  {
  }

  /** One entry more is five seconds more, up to the soft limit; from there on the deadline stays. */
  lemma EnqueueKeepsDue(s: State, actionId: string)
    requires TimersOk(s) && BatchDue(s)
    ensures TimersOk(AfterEnqueue(s, actionId)) && BatchDue(AfterEnqueue(s, actionId))
  {
    if actionId !in s.batch.dirty {
      var s' := AfterEnqueue(s, actionId);
      OneMoreEntry(s.batch.dirty, actionId, Unix(s.now));
      UnixIsMonotone(s'.firstEntry, s.now);
      assert TimersOk(s');
      var due, n := s'.batch.timers[s'.batch.timer.value], |s.batch.dirty|;
      if n < 999 {
        assert due == s.now + FLUSH_DELAY;
        if n > 0 {
          assert s.now <= s.firstEntry + FLUSH_DELAY * (n + s.failures);
        }
        assert due <= s'.firstEntry + FLUSH_DELAY * (n + 1 + s'.failures);
      }
      assert due <= s'.firstEntry + FLUSH_DELAY * (Min(n + 1, 999) + s'.failures);
    }
  }

  /** A hit is recorded at once, in a batch of limited age, or less than a day late. */
  lemma HitKeepsLag(s: State, actionId: string)
    requires Inv(s) && actionId in s.actions
    requires var s' := Next(s, Hit(actionId)); TimersOk(s') && BatchDue(s')
    ensures LagOk(Next(s, Hit(actionId)))
  {
    var s' := Next(s, Hit(actionId));
    assert s'.worst == s.worst && s'.now == s.now && s'.actions == s.actions;
    forall a | a in s'.lastHit
      ensures Unix(s'.lastHit[a]) - Recorded(s', a) < MaxLag(s'.worst)
    {
      if a in s'.batch.dirty && (a == actionId || a !in s.batch.dirty) {
        BatchAge(s');
        UnixIsMonotone(s'.lastHit[a], s'.now);
      }
    }
  }

  lemma HitKeepsDue(s: State, actionId: string)
    requires TimersOk(s) && BatchDue(s) && actionId in s.actions
    ensures TimersOk(Next(s, Hit(actionId))) && BatchDue(Next(s, Hit(actionId)))
  {
    if WantsBump(s.actions[actionId].accessTime, s.now) {
      EnqueueKeepsDue(s, actionId);
      assert Next(s, Hit(actionId)) == AfterEnqueue(s, actionId).(lastHit := s.lastHit[actionId := s.now]);
    }
  }

  lemma HitKeepsInv(s: State, actionId: string)
    requires Inv(s)
    ensures Inv(Next(s, Hit(actionId)))
  {
    if actionId in s.actions {
      HitKeepsDue(s, actionId);
      HitKeepsLag(s, actionId);
    }
  }

  /** What a flush finds, whether or not it was its own timer that fired. */
  ghost predicate Flushable(s: State) {
    && LagOk(s) && s.failures <= s.worst
    && (forall id | id in s.batch.timers :: id < s.batch.nextTimer && s.now <= s.batch.timers[id])
    && (s.batch.dirty != map[] ==>
          && s.firstEntry <= s.now <= s.firstEntry + FLUSH_DELAY * (Min(|s.batch.dirty|, 999) + s.failures)
          && (forall a | a in s.batch.dirty :: Unix(s.firstEntry) <= s.batch.dirty[a]))
  }

  lemma FailedFlushKeepsInv(s: State)
    requires Flushable(s) && s.batch.dirty != map[]
    ensures Inv(Flush(s, true))
  {
    var s' := Flush(s, true);
    assert s'.batch.timers[s'.batch.timer.value] == s.now + FLUSH_DELAY;
    assert forall a | a in s.lastHit :: Recorded(s', a) == Recorded(s, a);
  }

  lemma FlushKeepsInv(s: State, fails: bool)
    requires Flushable(s)
    ensures Inv(Flush(s, fails))
  {
    if fails && s.batch.dirty != map[] {
      FailedFlushKeepsInv(s);
    } else {
      assert forall a | a in s.lastHit :: Recorded(Flush(s, fails), a) == Recorded(s, a);
    }
  }

  lemma FireKeepsInv(s: State, timer: nat, fails: bool)
    requires Inv(s)
    ensures Inv(Next(s, Fire(timer, fails)))
  {
    if timer in s.batch.timers && s.batch.timers[timer] <= s.now {
      var fired := s.(batch := s.batch.(timers := s.batch.timers - {timer}));
      assert forall a | a in s.lastHit :: Recorded(fired, a) == Recorded(s, a);
      FlushKeepsInv(fired, fails);
    }
  }

  lemma NextKeepsInv(s: State, e: Event)
    requires Inv(s)
    ensures Inv(Next(s, e))
  {
    if e.Hit? {
      HitKeepsInv(s, e.actionId);
    } else if e.Fire? {
      FireKeepsInv(s, e.timer, e.fails);
    } else if e.FlushNow? {
      FlushKeepsInv(s, e.fails);
    }
  }

  lemma {:induction false} RunKeepsInv(now: int, events: seq<Event>)
    ensures Inv(Run(Init(now), events))
  {
    if events != [] {
      RunKeepsInv(now, events[..|events| - 1]);
      NextKeepsInv(Run(Init(now), events[..|events| - 1]), events[|events| - 1]);
    }
  }

  /** In every timed run: a batch with entries has a flush scheduled, and that is due within 4995 seconds
      of its first entry, and 5 seconds more for each time its flush has failed. */
  lemma BatchesAreFlushed(now: int, events: seq<Event>)
    ensures var s := Run(Init(now), events);
            s.batch.dirty != map[] ==>
              && s.batch.timer.Some? && s.batch.timer.value in s.batch.timers
              && s.now <= s.batch.timers[s.batch.timer.value] <= s.firstEntry + (4995 + 5 * s.failures) * SECOND
  {
    RunKeepsInv(now, events);
    if Run(Init(now), events).batch.dirty != map[] {
      DueBound(Run(Init(now), events));
    }
  }

  lemma DueBound(s: State)
    requires BatchDue(s) && s.batch.dirty != map[]
    ensures s.batch.timers[s.batch.timer.value] <= s.firstEntry + (4995 + 5 * s.failures) * SECOND
  {
    assert Min(|s.batch.dirty|, 999) <= 999;
  }

  // ---- Never later than the hit ----

  /** No time, stored or pending, is later than now, and none of a live action later than its latest hit. */
  ghost predicate NoneEarly(s: State) {
    && (forall a | a in s.actions :: s.actions[a].accessTime <= Unix(s.now))
    && (forall a | a in s.batch.dirty :: s.batch.dirty[a] <= Unix(s.now))
    && (forall a | a in s.lastHit :: a in s.actions && s.actions[a].accessTime <= Unix(s.lastHit[a]))
    && (forall a | a in s.lastHit && a in s.batch.dirty :: s.batch.dirty[a] <= Unix(s.lastHit[a]))
  }

  lemma TickKeepsNoneEarly(s: State, ns: nat)
    requires NoneEarly(s)
    ensures NoneEarly(Next(s, Tick(ns)))
  {
    UnixIsMonotone(s.now, s.now + ns);
  }

  lemma HitKeepsNoneEarly(s: State, actionId: string)
    requires NoneEarly(s) && actionId in s.actions
    ensures NoneEarly(Next(s, Hit(actionId)))
  {
    HitIsPending(s.batch, actionId, s.actions[actionId].accessTime, s.now);
  }

  lemma FlushKeepsNoneEarly(s: State, fails: bool)
    requires NoneEarly(s)
    ensures NoneEarly(Flush(s, fails))
  {
  }

  lemma NextKeepsNoneEarly(s: State, e: Event)
    requires NoneEarly(s)
    ensures NoneEarly(Next(s, e))
  {
    match e
    case Tick(ns) => TickKeepsNoneEarly(s, ns);
    case Hit(a) => if a in s.actions { HitKeepsNoneEarly(s, a); }
    case Fire(timer, fails) => FlushKeepsNoneEarly(s.(batch := s.batch.(timers := s.batch.timers - {timer})), fails);
    case FlushNow(fails) => FlushKeepsNoneEarly(s, fails);
    case Insert(a, row) =>
    case Evict(a) =>
  }

  lemma {:induction false} RunKeepsNoneEarly(now: int, events: seq<Event>)
    ensures NoneEarly(Run(Init(now), events))
  {
    if events != [] {
      RunKeepsNoneEarly(now, events[..|events| - 1]);
      NextKeepsNoneEarly(Run(Init(now), events[..|events| - 1]), events[|events| - 1]);
    }
  }

  /** And so the recorded access time of a live action is never later than its latest hit, and less than a
      day behind it, unless the flushes of some batch have failed more than 16280 times; then by no more
      than the age that a batch can get. */
  lemma RecordedTimeLagsLessThanADay(now: int, events: seq<Event>, actionId: string)
    ensures var s := Run(Init(now), events);
            actionId in s.lastHit ==>
              && actionId in s.actions
              && var lag := Unix(s.lastHit[actionId]) - Recorded(s, actionId);
                 && 0 <= lag < Max(86_400, 4996 + 5 * s.worst)
                 && (s.worst <= 16280 ==> lag < 86_400)
  {
    RunKeepsInv(now, events);
    RunKeepsNoneEarly(now, events);
  }

  /** What is pending is a time of the past, and for a live action that was hit no later than that hit. */
  lemma PendingTimesArePast(now: int, events: seq<Event>, actionId: string)
    ensures var s := Run(Init(now), events);
            actionId in s.batch.dirty ==>
              && s.batch.dirty[actionId] <= Unix(s.now)
              && (actionId in s.lastHit ==> s.batch.dirty[actionId] <= Unix(s.lastHit[actionId]))
  {
    RunKeepsNoneEarly(now, events);
  }

  predicate FailsAtAll(e: Event) {
    (e.Fire? || e.FlushNow?) && e.fails
  }

  /** A run without flush errors has no failures to add. */
  lemma {:induction false} NoErrorsNoFailures(now: int, events: seq<Event>)
    requires forall e | e in events :: !FailsAtAll(e)
    ensures Run(Init(now), events).failures == 0 && Run(Init(now), events).worst == 0
  {
    if events != [] {
      assert forall e | e in events[..|events| - 1] :: e in events;
      assert events[|events| - 1] in events;
      NoErrorsNoFailures(now, events[..|events| - 1]);
    }
  }
}

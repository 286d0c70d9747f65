/** What usageStats counts: the definition by brute force, and facts about ages and totals. */
module Usage {
  import opened Basics
  import opened Clock
  import opened Store

  datatype CountAndSize = CountAndSize(count: int, size: int)

  datatype UsageStats = UsageStats(actionsLE: map<int, CountAndSize>, missingBlobRows: nat)
  {
    /** A bucket that was never written reads as zero. */
    function At(d: int): CountAndSize {
      if d in actionsLE then actionsLE[d] else CountAndSize(0, 0)
    }

    function All(): CountAndSize {
      At(MAX_DURATION)
    }
  }

  const STANDARD_DURATIONS: seq<int> :=
    [1 * DAY, 2 * DAY, 4 * DAY, 7 * DAY, 14 * DAY, 30 * DAY, 90 * DAY, MAX_DURATION]

  /** The age usageStats computes, in wrapping 64-bit arithmetic, and never negative. */
  function AgeOf(now: int, accessTime: int): int {
    Max(0, Wrap64((Unix(now) - accessTime) * SECOND))
  }

  /** The actions that have a blob row. */
  function Counted(db: Db): set<string> {
    set a | a in db.actions && db.actions[a].blobId in db.blobs
  }

  /** Those among them with an age below d. */
  function Younger(db: Db, now: int, d: int): set<string> {
    set a | a in Counted(db) && AgeOf(now, db.actions[a].accessTime) < d
  }

  function StoredSizes(db: Db, actions: set<string>): map<string, nat> {
    map a | a in db.actions && a in actions && db.actions[a].blobId in db.blobs ::
      db.blobs[db.actions[a].blobId].storedSize
  }

  /** Number and total stored size of the given actions, each counted with its whole blob. */
  ghost function Tally(db: Db, actions: set<string>): CountAndSize {
    CountAndSize(|actions|, Sum(StoredSizes(db, actions)))
  }

  /** The definition usageStats must meet, for every bucket of a list of durations. */
  ghost predicate IsUsage(db: Db, now: int, durs: seq<int>, us: UsageStats) {
    && (forall d | d in durs :: us.At(d) == Tally(db, Younger(db, now, d)))
    && (forall d | d in us.actionsLE :: d in durs)
    && us.missingBlobRows == |MissingBlobRows(db)|
  }

  function Times(n: nat, cs: CountAndSize): CountAndSize {
    CountAndSize(n * cs.count, n * cs.size)
  }

  /** What a pass over the rows and the list of durations leaves: a duration that is listed n times counts
      every younger action n times. */
  ghost predicate IsListedUsage(db: Db, now: int, durs: seq<int>, us: UsageStats) {
    && (forall d | d in durs :: us.At(d) == Times(multiset(durs)[d], Tally(db, Younger(db, now, d))))
    && (forall d | d in us.actionsLE :: d in durs)
    && us.missingBlobRows == |MissingBlobRows(db)|
  }

  /** No age reaches the infinity bucket, even when the 64-bit arithmetic overflows: every age is an
      even number of nanoseconds. */
  lemma AgeBelowInfinity(now: int, accessTime: int)
    ensures AgeOf(now, accessTime) < MAX_DURATION
  {
    var k := Unix(now) - accessTime;
    var x := k * SECOND + MAX_DURATION + 1;
    assert x == 2 * (k * 500_000_000 + 0x4000_0000_0000_0000);
    EvenRemainder(k * 500_000_000 + 0x4000_0000_0000_0000);
  }

  lemma EvenRemainder(half: int)
    ensures (2 * half) % TWO_64 != TWO_64 - 1
  {
    var q := (2 * half) / TWO_64;
    assert 2 * half == q * TWO_64 + (2 * half) % TWO_64;
  }

  /** The infinity bucket is the total over all actions that have a blob. */
  lemma InfinityIsTotal(db: Db, now: int)
    ensures Younger(db, now, MAX_DURATION) == Counted(db)
  {
    forall a | a in Counted(db)
      ensures AgeOf(now, db.actions[a].accessTime) < MAX_DURATION
    {
      AgeBelowInfinity(now, db.actions[a].accessTime);
    }
  }

  /** The buckets are cumulative: a longer duration never counts less. */
  lemma BucketsAreMonotone(db: Db, now: int, durs: seq<int>, us: UsageStats, d: int, longer: int)
    requires IsUsage(db, now, durs, us) && d in durs && longer in durs && d <= longer
    ensures us.At(d).count <= us.At(longer).count && us.At(d).size <= us.At(longer).size
  {
    var few, many := Younger(db, now, d), Younger(db, now, longer);
    assert many == few + (many - few);
    SumAtMost(StoredSizes(db, few), StoredSizes(db, many));
  }

  /** Adding an action to a tally. */
  lemma TallyOneMore(db: Db, actions: set<string>, a: string)
    requires a !in actions && a in Counted(db)
    ensures Tally(db, actions + {a}).count == Tally(db, actions).count + 1
    ensures Tally(db, actions + {a}).size == Tally(db, actions).size + db.blobs[db.actions[a].blobId].storedSize
  {
    var size := db.blobs[db.actions[a].blobId].storedSize;
    assert StoredSizes(db, actions + {a}) == StoredSizes(db, actions)[a := size];
    SumInsert(StoredSizes(db, actions), a, size);
  }

  // ---- Ages without overflow ----

  /** The last second at which no access since 1970 is 2^63 nanoseconds ago; it is in the year 2262. */
  const LAST_SECOND: int := 9_223_372_036

  ghost predicate NoNegativeAccess(db: Db) {
    forall a | a in db.actions :: db.actions[a].accessTime >= 0
  }

  /** No access is so long ago that its age overflows. Accesses in the future may be as far off as they like. */
  ghost predicate AgesFit(db: Db, now: int) {
    forall a | a in db.actions :: (Unix(now) - db.actions[a].accessTime) * SECOND <= MAX_DURATION
  }

  /** The schema admits no other tables until then. */
  lemma AgesFitUntil2262(db: Db, now: int)
    requires NoNegativeAccess(db) && Unix(now) <= LAST_SECOND
    ensures AgesFit(db, now)
  {
    forall a | a in db.actions
      ensures (Unix(now) - db.actions[a].accessTime) * SECOND <= MAX_DURATION
    {
      assert Unix(now) - db.actions[a].accessTime <= LAST_SECOND;
    }
  }

  /** Where nothing overflows, the computed age is the true one. */
  lemma AgeIsTrueAge(now: int, accessTime: int)
    requires -MAX_DURATION <= (Unix(now) - accessTime) * SECOND <= MAX_DURATION
    ensures AgeOf(now, accessTime) == Max(0, (Unix(now) - accessTime) * SECOND)
  {
  }
}

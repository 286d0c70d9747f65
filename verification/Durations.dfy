/** The histogram's list of durations. */
module Durations {
  import opened Basics
  import opened Clock
  import opened Store
  import opened Usage

  predicate Increasing(durs: seq<int>) {
    forall i, j | 0 <= i < j < |durs| :: durs[i] < durs[j]
  }

  predicate Ordered(durs: seq<int>) {
    forall i, j | 0 <= i < j < |durs| :: durs[i] <= durs[j]
  }

  function InsertSorted(x: int, s: seq<int>): (r: seq<int>)
    requires Ordered(s)
    ensures Ordered(r)
    ensures forall y :: y in r <==> y == x || y in s
    ensures Increasing(s) && x !in s ==> Increasing(r)
    ensures |r| == |s| + 1
  {
    var smaller := CountSmaller(x, s);
    s[..smaller] + [x] + s[smaller..]
  }

  function CountSmaller(x: int, s: seq<int>): (n: nat)
    requires Ordered(s)
    ensures n <= |s|
    ensures forall i | 0 <= i < n :: s[i] < x
    ensures forall i | n <= i < |s| :: x <= s[i]
  {
    if s == [] || x <= s[0] then 0 else 1 + CountSmaller(x, s[1..])
  }

  /** slices.Sort; without repetitions in s, the result is strictly increasing. */
  function Sorted(s: seq<int>): (r: seq<int>)
    ensures Ordered(r)
    ensures forall y :: y in r <==> y in s
    ensures |r| == |s|
    ensures Distinct(s) ==> Increasing(r)
  {
    if s == [] then [] else InsertSorted(s[0], Sorted(s[1..]))
  }

  lemma InsertedIntoIncreasing(x: int, s: seq<int>)
    requires Ordered(s) && Increasing(InsertSorted(x, s))
    ensures Increasing(s) && x !in s
  {
    var r, n := InsertSorted(x, s), CountSmaller(x, s);
    assert r[n] == x;
    forall i | 0 <= i < |s|
      ensures s[i] == r[if i < n then i else i + 1] && s[i] != x
    {
    }
  }

  /** Sorting does not hide repetitions. */
  lemma {:induction false} IncreasingMeansDistinct(s: seq<int>)
    requires Increasing(Sorted(s))
    ensures Distinct(s)
  {
    if s != [] {
      InsertedIntoIncreasing(s[0], Sorted(s[1..]));
      IncreasingMeansDistinct(s[1..]);
      FirstIsNew(s);
    }
  }

  lemma FirstIsNew(s: seq<int>)
    requires s != [] && s[0] !in s[1..] && Distinct(s[1..])
    ensures Distinct(s)
  {
    forall i, j | 0 <= i < j < |s|
      ensures s[i] != s[j]
    {
      assert s[j] == s[1..][j - 1];
      assert i > 0 ==> s[i] == s[1..][i - 1];
    }
  }

  /** What usageStats appends before it sorts. */
  function Unsorted(maxAge: int): seq<int> {
    [maxAge] + Kept(maxAge, STANDARD_DURATIONS)
  }

  function Kept(maxAge: int, durs: seq<int>): (r: seq<int>)
    ensures forall d :: d in r <==> d in durs && (d < maxAge || d == MAX_DURATION)
    ensures Increasing(durs) ==> Increasing(r)
  {
    if durs == [] then []
    else
      var rest := Kept(maxAge, durs[1..]);
      assert forall d | d in rest :: d in durs[1..];
      assert forall j | 0 <= j < |rest| :: rest[j] in rest;
      if durs[0] < maxAge || durs[0] == MAX_DURATION then [durs[0]] + rest else rest
  }

  lemma KeptOneMore(maxAge: int, durs: seq<int>, d: int)
    ensures Kept(maxAge, durs + [d]) == Kept(maxAge, durs) + Kept(maxAge, [d])
  {
    if durs != [] {
      assert (durs + [d])[1..] == durs[1..] + [d];
      KeptOneMore(maxAge, durs[1..], d);
    } else {
      assert durs + [d] == [d];
    }
  }

  function BucketsOf(maxAge: int): seq<int> {
    if maxAge == 0 then STANDARD_DURATIONS else Sorted(Unsorted(maxAge))
  }

  /** One day, two, four, seven, fourteen, thirty and ninety days, in nanoseconds, and infinity. */
  predicate IsStandard(d: int) {
    || d == 86_400_000_000_000 || d == 172_800_000_000_000 || d == 345_600_000_000_000 || d == 604_800_000_000_000
    || d == 1_209_600_000_000_000 || d == 2_592_000_000_000_000 || d == 7_776_000_000_000_000
    || d == 9_223_372_036_854_775_807
  }

  lemma BucketMembers(maxAge: int)
    ensures forall d :: d in BucketsOf(maxAge) <==>
              if maxAge == 0 then IsStandard(d)
              else d == maxAge || (IsStandard(d) && (d < maxAge || d == MAX_DURATION))
    ensures MAX_DURATION in BucketsOf(maxAge)
  {
    assert STANDARD_DURATIONS[7] == MAX_DURATION;
    StandardMembers();
  }

  lemma StandardMembers()
    ensures forall d :: d in STANDARD_DURATIONS <==> IsStandard(d)
  {
    var s := STANDARD_DURATIONS;
    assert s[0] == 86_400_000_000_000 && s[1] == 172_800_000_000_000 && s[2] == 345_600_000_000_000
        && s[3] == 604_800_000_000_000 && s[4] == 1_209_600_000_000_000 && s[5] == 2_592_000_000_000_000
        && s[6] == 7_776_000_000_000_000 && s[7] == 9_223_372_036_854_775_807;
  }

  lemma StandardIsIncreasing()
    ensures Increasing(STANDARD_DURATIONS) && |STANDARD_DURATIONS| == 8
    ensures forall d | d in STANDARD_DURATIONS :: d <= MAX_DURATION
  {
  }

  lemma AllKept(durs: seq<int>)
    requires forall d | d in durs :: d <= MAX_DURATION
    ensures Kept(MAX_DURATION, durs) == durs
  {
    if durs != [] {
      assert forall d | d in durs[1..] :: d in durs;
      AllKept(durs[1..]);
      assert durs[0] in durs && durs == [durs[0]] + durs[1..];
    }
  }

  /** The list is strictly increasing, except when maxAge is the largest duration itself, which is then
      listed twice. */
  lemma BucketsAreIncreasing(maxAge: int)
    ensures Increasing(BucketsOf(maxAge)) <==> maxAge != MAX_DURATION
  {
    StandardIsIncreasing();
    if maxAge == MAX_DURATION {
      AllKept(STANDARD_DURATIONS);
      assert Unsorted(maxAge)[0] == Unsorted(maxAge)[8];
      if Increasing(BucketsOf(maxAge)) {
        IncreasingMeansDistinct(Unsorted(maxAge));
      }
    } else if maxAge != 0 {
      var kept := Kept(maxAge, STANDARD_DURATIONS);
      assert forall d | d in kept :: d != maxAge;
      assert Distinct(Unsorted(maxAge)) by {
        assert forall j | 0 <= j < |kept| :: kept[j] in kept;
      }
    }
  }

  lemma InsertedOnce(x: int, s: seq<int>)
    requires Ordered(s)
    ensures multiset(InsertSorted(x, s)) == multiset(s) + multiset{x}
  {
    var n := CountSmaller(x, s);
    assert s == s[..n] + s[n..];
  }

  /** Sorting keeps every repetition. */
  lemma {:induction false} SortedKeepsCounts(s: seq<int>)
    ensures multiset(Sorted(s)) == multiset(s)
  {
    if s != [] {
      SortedKeepsCounts(s[1..]);
      InsertedOnce(s[0], Sorted(s[1..]));
      assert s == [s[0]] + s[1..];
    }
  }

  lemma {:induction false} ListedOnce(durs: seq<int>, d: int)
    requires Increasing(durs) && d in durs
    ensures multiset(durs)[d] == 1
  {
    var first, rest := durs[0], durs[1..];
    assert durs == [first] + rest;
    assert multiset(durs)[d] == multiset([first])[d] + multiset(rest)[d];
    if d in rest {
      ListedOnce(rest, d);
      assert first < d;
    } else {
      assert d == first && multiset(rest)[d] == 0;
    }
  }

  lemma OneInFront(x: int, s: seq<int>, d: int)
    ensures multiset([x] + s)[d] == multiset(s)[d] + if d == x then 1 else 0
  {
    assert multiset([x] + s) == multiset{x} + multiset(s);
  }

  lemma InfinityTwice(d: int)
    requires d in STANDARD_DURATIONS
    ensures multiset(Unsorted(MAX_DURATION))[d] == if d == MAX_DURATION then 2 else 1
  {
    StandardIsIncreasing();
    AllKept(STANDARD_DURATIONS);
    OneInFront(MAX_DURATION, STANDARD_DURATIONS, d);
    ListedOnce(STANDARD_DURATIONS, d);
  }

  /** How often each duration is listed: once, but infinity twice if it is maxAge. */
  lemma ListedCounts(maxAge: int, d: int)
    requires d in BucketsOf(maxAge)
    ensures multiset(BucketsOf(maxAge))[d] == if d == maxAge == MAX_DURATION then 2 else 1
  {
    if maxAge != MAX_DURATION {
      BucketsAreIncreasing(maxAge);
      ListedOnce(BucketsOf(maxAge), d);
    } else {
      SortedKeepsCounts(Unsorted(maxAge));
      assert d in STANDARD_DURATIONS by {
        BucketMembers(maxAge);
        StandardMembers();
      }
      InfinityTwice(d);
    }
  }

  lemma NothingCounted(db: Db, now: int, d: int)
    requires Counted(db) == {}
    ensures Tally(db, Younger(db, now, d)) == CountAndSize(0, 0)
  {
    assert Younger(db, now, d) == {};
    assert StoredSizes(db, {}) == map[];
  }

  lemma InfinityBucket(db: Db, now: int, maxAge: int, us: UsageStats)
    requires IsListedUsage(db, now, BucketsOf(maxAge), us)
    ensures us.All() == Times(if maxAge == MAX_DURATION then 2 else 1, Tally(db, Counted(db)))
  {
    BucketMembers(maxAge);
    ListedCounts(maxAge, MAX_DURATION);
    InfinityIsTotal(db, now);
  }

  lemma OnceIsPlain(db: Db, now: int, durs: seq<int>, us: UsageStats)
    requires IsListedUsage(db, now, durs, us)
    requires Counted(db) == {} || forall d | d in durs :: multiset(durs)[d] == 1
    ensures IsUsage(db, now, durs, us)
  {
    forall d | d in durs
      ensures us.At(d) == Tally(db, Younger(db, now, d))
    {
      if Counted(db) == {} {
        NothingCounted(db, now, d);
      }
    }
  }

  lemma MeetsDefinition(db: Db, now: int, maxAge: int, us: UsageStats)
    requires IsListedUsage(db, now, BucketsOf(maxAge), us)
    requires maxAge != MAX_DURATION || Counted(db) == {}
    ensures IsUsage(db, now, BucketsOf(maxAge), us)
  {
    var durs := BucketsOf(maxAge);
    forall d | d in durs && maxAge != MAX_DURATION
      ensures multiset(durs)[d] == 1
    {
      ListedCounts(maxAge, d);
    }
    OnceIsPlain(db, now, durs, us);
  }

  /** The statistics meet their definition exactly unless maxAge is the largest duration and there is
      anything to count: the infinity bucket then counts every action twice. */
  lemma UsageIsExact(db: Db, now: int, maxAge: int, us: UsageStats)
    requires IsListedUsage(db, now, BucketsOf(maxAge), us)
    ensures IsUsage(db, now, BucketsOf(maxAge), us) <==> maxAge != MAX_DURATION || Counted(db) == {}
    ensures us.All() == Times(if maxAge == MAX_DURATION then 2 else 1, Tally(db, Counted(db)))
  {
    InfinityBucket(db, now, maxAge, us);
    if maxAge != MAX_DURATION || Counted(db) == {} {
      MeetsDefinition(db, now, maxAge, us);
    } else {
      BucketMembers(maxAge);
      InfinityIsTotal(db, now);
      assert us.All().count == 2 * |Counted(db)|;
    }
  }
}

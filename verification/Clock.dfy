/** Times in nanoseconds, Unix seconds, and Go's 64-bit durations. */
module Clock {
  const SECOND: int := 1_000_000_000
  const DAY: int := 86_400 * SECOND
  const MAX_DURATION: int := 0x7FFF_FFFF_FFFF_FFFF
  const TWO_64: int := 0x1_0000_0000_0000_0000

  /** time.Time.Unix: seconds, rounded down. */
  function Unix(now: int): int {
    now / SECOND
  }

  /** The value of an int64 operation whose exact result is x. */
  function Wrap64(x: int): int {
    (x + MAX_DURATION + 1) % TWO_64 - MAX_DURATION - 1
  }

  /** The last whole second that is over. */
  lemma UnixIsFloor(now: int)
    ensures Unix(now) * 1_000_000_000 <= now < (Unix(now) + 1) * 1_000_000_000
  {
  }

  /** Wrapping keeps the value modulo 2^64, in the range of an int64; it changes nothing that is in range. */
  lemma Wrap64IsCongruent(x: int)
    ensures -0x8000_0000_0000_0000 <= Wrap64(x) < 0x8000_0000_0000_0000
    ensures (x - Wrap64(x)) % 0x1_0000_0000_0000_0000 == 0
  {
    var y := x + MAX_DURATION + 1;
    assert y == (y / TWO_64) * TWO_64 + y % TWO_64;
    assert x - Wrap64(x) == (y / TWO_64) * TWO_64;
    MultipleLeavesNothing(y / TWO_64);
  }

  lemma MultipleLeavesNothing(n: int)
    ensures (n * TWO_64) % TWO_64 == 0
  {
  }

  /** A day has 86400 seconds, and the longest duration is the largest int64. */
  lemma Durations()
    ensures DAY == 86_400_000_000_000 && MAX_DURATION == 9_223_372_036_854_775_807
  {
  }
}

/**
  Instants as the library sees them through `chrono`. The wall clock is read
  with nanosecond precision, so the current instant is an integer count of
  nanoseconds since the Unix epoch, passed in as a parameter; block times
  are whole seconds.
*/
module Clock {
  import opened TruncatedArith

  const NANOS_PER_SECOND: int := 1_000_000_000

  /** A block time (whole seconds) as an instant in nanoseconds. */
  function BlockInstant(blockTime: int): int {
    blockTime * NANOS_PER_SECOND
  }

  /** `DateTime::timestamp()`: the whole seconds of an instant, rounded down. */
  function UnixSeconds(nowNanos: int): (secs: int)
    ensures BlockInstant(secs) <= nowNanos < BlockInstant(secs + 1)
  {
    nowNanos / NANOS_PER_SECOND
  }

  /**
    `now.signed_duration_since(block).num_seconds()`: the signed distance
    from the block time to `now`, in whole seconds rounded toward zero.
  */
  function SecondsSince(nowNanos: int, blockTime: int): (d: int)
    ensures nowNanos >= BlockInstant(blockTime) ==>
      0 <= d && BlockInstant(blockTime + d) <= nowNanos < BlockInstant(blockTime + d + 1)
    ensures nowNanos < BlockInstant(blockTime) ==>
      d <= 0 && BlockInstant(blockTime + d - 1) < nowNanos <= BlockInstant(blockTime + d)
  {
    TruncDiv(nowNanos - BlockInstant(blockTime), NANOS_PER_SECOND)
  }

  /** When the clock reads a whole second the distance is the plain difference of seconds. */
  lemma SecondsSinceOnWholeSecond(nowNanos: int, blockTime: int)
    requires nowNanos % NANOS_PER_SECOND == 0
    ensures SecondsSince(nowNanos, blockTime) == UnixSeconds(nowNanos) - blockTime
  {
    var d := SecondsSince(nowNanos, blockTime);
    var n := UnixSeconds(nowNanos);
    assert nowNanos == BlockInstant(n);
    if nowNanos >= BlockInstant(blockTime) {
      assert BlockInstant(blockTime + d) <= BlockInstant(n) < BlockInstant(blockTime + d + 1);
    } else {
      assert BlockInstant(blockTime + d - 1) < BlockInstant(n) <= BlockInstant(blockTime + d);
    }
  }
}

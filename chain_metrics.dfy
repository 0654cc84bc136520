/**
  The single-expression metrics of the library: the difficulty epoch of the
  tip, the average block time over the last difficulty period, and the
  seconds elapsed since the tip was mined. Each takes the node's answer as
  a parameter instead of calling the node.
*/
module ChainMetrics {
  import opened BlockStats
  import opened Clock

  /** Blocks between two difficulty adjustments; also the window of `getchaintxstats`. */
  const BLOCKS_PER_EPOCH: nat := 2016

  /** `block_count / 2016 + 1` on `u64`: the 1-based difficulty period the height falls in. */
  function CurrentDifficultyEpoch(blockCount: nat): (epoch: nat)
    ensures epoch >= 1
    ensures (epoch - 1) * BLOCKS_PER_EPOCH <= blockCount < epoch * BLOCKS_PER_EPOCH
  {
    blockCount / BLOCKS_PER_EPOCH + 1
  }

  /** The epoch is the only number whose period contains the height. */
  lemma EpochIsUnique(blockCount: nat, e: nat)
    requires (e - 1) * BLOCKS_PER_EPOCH <= blockCount < e * BLOCKS_PER_EPOCH
    ensures CurrentDifficultyEpoch(blockCount) == e
  {
  }

  /** Heights 0..2015 are epoch 1 and 2016 opens epoch 2; a higher height never has a lower epoch. */
  lemma EpochBoundaries(h1: nat, h2: nat)
    requires h1 <= h2
    ensures CurrentDifficultyEpoch(h1) <= CurrentDifficultyEpoch(h2)
    ensures h2 < 2016 ==> CurrentDifficultyEpoch(h2) == 1
    ensures CurrentDifficultyEpoch(2016) == 2 && CurrentDifficultyEpoch(4032) == 3
  {
    if h2 < 2016 {
      EpochIsUnique(h2, 1);
    }
    EpochIsUnique(2016, 2);
    EpochIsUnique(4032, 3);
  }

  /** `window_interval / 2016` on `u64`: mean seconds per block over the window, rounded down. */
  function AverageBlockTime(windowInterval: nat): (average: nat)
    ensures average * BLOCKS_PER_EPOCH <= windowInterval < (average + 1) * BLOCKS_PER_EPOCH
  {
    windowInterval / BLOCKS_PER_EPOCH
  }

  /**
    Seconds between the tip's block time and `now` (the wall clock, in
    nanoseconds), rounded toward zero. The answer must carry the `time`
    field when it is a selective one, or the library panics.
  */
  function TimeSinceLastBlockInSeconds(tipStats: BlockStatsResponse, nowNanos: int): (seconds: int)
    requires tipStats.AllStatsResponse? || tipStats.selective.time.Some?
    ensures seconds == SecondsSince(nowNanos, ReportedTime(tipStats).value)
    ensures nowNanos >= BlockInstant(TimeOf(tipStats)) ==> seconds >= 0
  {
    SecondsSince(nowNanos, TimeOf(tipStats))
  }
}

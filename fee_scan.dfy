/**
  `get_total_fee_for_24_hours`: starting at the tip, add each block's total
  fee and step one height down, until the block just added is older than
  24 hours before `now`. As written:
  - the first test is made on `now` itself, so the tip is always added;
  - a block's fee is added before its own time is tested, so the first
    block outside the window is added too;
  - the height counter is a `u64` decremented on every step, so the scan
    must stop before it would step below height 0.
  The node is an immutable chain of blocks indexed by height; `now` is one
  fixed instant in nanoseconds.
*/
module FeeScan {
  import opened Clock

  /** What the scan reads at one height: the block time (seconds) and the total fee. */
  datatype Block = Block(time: nat, totalFee: nat)

  /** The chain the node serves: `blocks[h]` is the block at height `h`; the tip is the last one. */
  datatype Chain = Chain(blocks: seq<Block>)

  const HOURS_IN_WINDOW: int := 24
  const WINDOW_SECONDS: int := 60 * 60 * HOURS_IN_WINDOW

  function Tip(chain: Chain): int {
    |chain.blocks| - 1
  }

  /**
    `timestamp_is_from_more_than_24_hours_ago`: the block instant lies
    strictly before `now` minus 24 hours. In whole seconds: a block more
    than 86400 s before the current second is always older, a later one
    never is, and one exactly 86400 s before it is older only when `now`
    has a fractional second.
  */
  function IsMoreThan24HoursAgo(timestamp: int, nowNanos: int): (older: bool)
    ensures timestamp < UnixSeconds(nowNanos) - WINDOW_SECONDS ==> older
    ensures timestamp > UnixSeconds(nowNanos) - WINDOW_SECONDS ==> !older
    ensures timestamp == UnixSeconds(nowNanos) - WINDOW_SECONDS ==> (older <==> nowNanos % NANOS_PER_SECOND != 0)
  {
    var n := UnixSeconds(nowNanos);
    assert nowNanos == BlockInstant(n) + nowNanos % NANOS_PER_SECOND;
    BlockInstant(timestamp) < nowNanos - WINDOW_SECONDS * NANOS_PER_SECOND
  }

  /** The stop test is strict: a block exactly at the cutoff instant does not stop the scan. */
  lemma CutoffIsStrict(timestamp: int, nowNanos: int)
    ensures BlockInstant(timestamp) == nowNanos - WINDOW_SECONDS * NANOS_PER_SECOND
      ==> !IsMoreThan24HoursAgo(timestamp, nowNanos)
    ensures nowNanos % NANOS_PER_SECOND == 0 ==>
      (IsMoreThan24HoursAgo(timestamp, nowNanos) <==> timestamp < UnixSeconds(nowNanos) - WINDOW_SECONDS)
  {
    if nowNanos % NANOS_PER_SECOND == 0 {
      var n := UnixSeconds(nowNanos);
      assert nowNanos == BlockInstant(n);
      assert nowNanos - WINDOW_SECONDS * NANOS_PER_SECOND == BlockInstant(n - WINDOW_SECONDS);
    }
  }

  /** The seed of the loop, `now` in whole seconds, never passes the test: the tip is always added. */
  lemma {:induction false} SeedNeverStops(nowNanos: int)
    ensures !IsMoreThan24HoursAgo(UnixSeconds(nowNanos), nowNanos)
  {
    assert BlockInstant(UnixSeconds(nowNanos)) > nowNanos - NANOS_PER_SECOND;
  }

  /**
    The height at which the scan stops: the highest height in 1..`h` whose
    block is older than the window, or 0 when there is none.
  */
  function LastOlderHeight(chain: Chain, nowNanos: int, h: nat): (k: nat)
    requires h < |chain.blocks|
    ensures k <= h
    ensures k >= 1 ==> IsMoreThan24HoursAgo(chain.blocks[k].time, nowNanos)
    ensures forall j :: k < j <= h ==> !IsMoreThan24HoursAgo(chain.blocks[j].time, nowNanos)
  {
    if h == 0 then 0
    else if IsMoreThan24HoursAgo(chain.blocks[h].time, nowNanos) then h
    else LastOlderHeight(chain, nowNanos, h - 1)
  }

  /** The height of the last block the scan adds; 0 means it would run into genesis. */
  function StopHeight(chain: Chain, nowNanos: int): nat
    requires |chain.blocks| >= 1
  {
    LastOlderHeight(chain, nowNanos, Tip(chain))
  }

  /** The scan ends above genesis exactly when some block above height 0 is older than the window. */
  lemma {:induction false} StopsAboveGenesisIff(chain: Chain, nowNanos: int)
    requires |chain.blocks| >= 1
    ensures StopHeight(chain, nowNanos) >= 1 <==>
      exists h :: 1 <= h < |chain.blocks| && IsMoreThan24HoursAgo(chain.blocks[h].time, nowNanos)
  {
    var k := StopHeight(chain, nowNanos);
    if k >= 1 {
      assert IsMoreThan24HoursAgo(chain.blocks[k].time, nowNanos);
    }
  }

  /** Heights `hi`, `hi - 1`, ..., `lo`: the order in which the scan visits the chain. */
  function ScanOrder(hi: int, lo: nat): (hs: seq<nat>)
    requires lo <= hi + 1
    ensures |hs| == hi - lo + 1
    ensures forall i :: 0 <= i < |hs| ==> hs[i] == hi - i
    decreases hi - lo
  {
    if lo > hi then [] else [hi as nat] + ScanOrder(hi - 1, lo)
  }

  /** Each height between `lo` and `hi` is visited once, and no other height is. */
  lemma ScanOrderVisitsEachOnce(hi: int, lo: nat)
    requires lo <= hi + 1
    ensures forall h :: h in ScanOrder(hi, lo) <==> lo <= h <= hi
    ensures forall i, j :: 0 <= i < j < |ScanOrder(hi, lo)| ==> ScanOrder(hi, lo)[i] > ScanOrder(hi, lo)[j]
  {
    var hs := ScanOrder(hi, lo);
    forall h | lo <= h <= hi ensures h in hs {
      assert hs[hi - h] == h;
    }
  }

  lemma ScanOrderStep(hi: int, lo: nat)
    requires 1 <= lo <= hi + 1
    ensures ScanOrder(hi, lo - 1) == ScanOrder(hi, lo) + [lo - 1]
  {
    var a := ScanOrder(hi, lo - 1);
    var b := ScanOrder(hi, lo) + [lo - 1];
    assert |a| == |b|;
    forall i | 0 <= i < |a| ensures a[i] == b[i] {
    }
  }

  /** Sum of the total fees of the blocks at the given heights. */
  function SumFees(chain: Chain, hs: seq<nat>): nat
    requires forall i :: 0 <= i < |hs| ==> hs[i] < |chain.blocks|
  {
    if hs == [] then 0 else chain.blocks[hs[0]].totalFee + SumFees(chain, hs[1..])
  }

  /** Visiting one more height adds exactly that block's fee, so the running total never decreases. */
  lemma {:induction false} SumFeesAppend(chain: Chain, hs: seq<nat>, h: nat)
    requires forall i :: 0 <= i < |hs| ==> hs[i] < |chain.blocks|
    requires h < |chain.blocks|
    ensures SumFees(chain, hs + [h]) == SumFees(chain, hs) + chain.blocks[h].totalFee
    ensures SumFees(chain, hs) <= SumFees(chain, hs + [h])
  {
    if hs != [] {
      assert (hs + [h])[1..] == hs[1..] + [h];
      SumFeesAppend(chain, hs[1..], h);
    }
  }

  /**
    The loop of `get_total_fee_for_24_hours`, over the chain and a fixed
    `now`. It requires that some block above genesis is older than the
    window: otherwise the `u64` height would step below 0. It visits the
    heights tip, tip - 1, ... down to and including the first block older
    than the window, and returns the sum of their fees.
  */
  method TotalFeeFor24Hours(chain: Chain, nowNanos: int) returns (totalFee: nat, ghost visited: seq<nat>)
    requires |chain.blocks| >= 1
    requires StopHeight(chain, nowNanos) >= 1
    ensures totalFee == SumFees(chain, ScanOrder(Tip(chain), StopHeight(chain, nowNanos)))
    ensures visited == ScanOrder(Tip(chain), StopHeight(chain, nowNanos))
    ensures visited[0] == Tip(chain)
    ensures IsMoreThan24HoursAgo(chain.blocks[visited[|visited| - 1]].time, nowNanos)
    ensures forall i :: 0 <= i < |visited| - 1 ==> !IsMoreThan24HoursAgo(chain.blocks[visited[i]].time, nowNanos)
  {
    ghost var stop := StopHeight(chain, nowNanos);
    totalFee := 0;
    var currentHeight: nat := |chain.blocks| - 1;
    var nextBlockTimestamp := UnixSeconds(nowNanos);
    visited := [];
    SeedNeverStops(nowNanos);
    while !IsMoreThan24HoursAgo(nextBlockTimestamp, nowNanos)
      invariant stop - 1 <= currentHeight <= Tip(chain)
      invariant visited == ScanOrder(Tip(chain), currentHeight + 1)
      invariant totalFee == SumFees(chain, visited)
      invariant IsMoreThan24HoursAgo(nextBlockTimestamp, nowNanos) <==> currentHeight + 1 == stop
      decreases currentHeight
    {
      assert currentHeight >= stop;
      var fee := chain.blocks[currentHeight].totalFee;
      var time := chain.blocks[currentHeight].time;
      totalFee := totalFee + fee;
      SumFeesAppend(chain, visited, currentHeight);
      ScanOrderStep(Tip(chain), currentHeight + 1);
      visited := visited + [currentHeight];
      currentHeight := currentHeight - 1;
      nextBlockTimestamp := time;
    }
    WindowShape(chain, nowNanos);
  }

  /** The window the scan covers starts at the tip and ends at the first block older than the window. */
  lemma WindowShape(chain: Chain, nowNanos: int)
    requires |chain.blocks| >= 1
    requires StopHeight(chain, nowNanos) >= 1
    ensures var hs := ScanOrder(Tip(chain), StopHeight(chain, nowNanos));
      |hs| >= 1 && hs[0] == Tip(chain) &&
      IsMoreThan24HoursAgo(chain.blocks[hs[|hs| - 1]].time, nowNanos) &&
      forall i :: 0 <= i < |hs| - 1 ==> !IsMoreThan24HoursAgo(chain.blocks[hs[i]].time, nowNanos)
  {
  }

  /** A tip older than the window is still added, and then the scan stops at once. */
  lemma OlderTipIsAddedAlone(chain: Chain, nowNanos: int)
    requires |chain.blocks| >= 2
    requires IsMoreThan24HoursAgo(chain.blocks[Tip(chain)].time, nowNanos)
    ensures StopHeight(chain, nowNanos) == Tip(chain)
    ensures ScanOrder(Tip(chain), StopHeight(chain, nowNanos)) == [Tip(chain) as nat]
    ensures SumFees(chain, ScanOrder(Tip(chain), StopHeight(chain, nowNanos))) == chain.blocks[Tip(chain)].totalFee
  {
  }

  /**
    Four blocks, `now` = 100000 s, so the cutoff is 13600 s. Heights 3 and 2
    are inside the window, height 1 is the first one older and is added as
    well; height 0 is not visited.
  */
  lemma ScanExample()
    ensures var chain := Chain([Block(1000, 1), Block(5000, 2), Block(20000, 3), Block(90000, 4)]);
      var now := 100000 * NANOS_PER_SECOND;
      StopHeight(chain, now) == 1 &&
      ScanOrder(Tip(chain), StopHeight(chain, now)) == [3, 2, 1] &&
      SumFees(chain, [3, 2, 1]) == 9
  {
    var chain := Chain([Block(1000, 1), Block(5000, 2), Block(20000, 3), Block(90000, 4)]);
    var now := 100000 * NANOS_PER_SECOND;
    assert !IsMoreThan24HoursAgo(90000, now) && !IsMoreThan24HoursAgo(20000, now);
    assert IsMoreThan24HoursAgo(5000, now);
    assert LastOlderHeight(chain, now, 1) == 1;
    assert LastOlderHeight(chain, now, 2) == 1;
    assert LastOlderHeight(chain, now, 3) == 1;
    assert ScanOrder(3, 1) == [3] + ScanOrder(2, 1);
  }
}

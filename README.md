# bitcoin-node-query: a Dafny model of its computed metrics

`bitcoin-node-query` is a Rust library that asks a Bitcoin Core node
(`bitcoind`) for chain metrics over JSON-RPC. Most of its functions issue one
RPC command and return one field of the answer. This project models the parts
that compute something:

- the 24-hour fee scan `get_total_fee_for_24_hours`. It starts at the tip,
  adds each block's total fee and steps one height down. It stops once the
  block it has just added is older than 24 hours before now. It is modelled
  as a `while` loop (`FeeScan.TotalFeeFor24Hours`) over an immutable chain of
  blocks indexed by height. It is proved against a specification: the scan
  order, the stop height and the sum of the fees;
- the difficulty epoch `block_count / 2016 + 1` and the average block time
  `window_interval / 2016` (`ChainMetrics`);
- the seconds since the last block, `now - tip time`, rounded toward zero as
  `chrono`'s `num_seconds` does (`Clock`, `ChainMetrics`);
- reading `time` or `totalfee` out of a `getblockstats` answer, which comes
  either with all statistics (`AllStats`) or only the requested ones, each
  optional (`SelectiveStats`) (`BlockStats`);
- `format_duration` in the example binary. It prints signed seconds as
  `minutes:seconds` with Rust's truncating `/` and `%` and no zero padding
  (`TruncatedArith`, `Decimal`, `DurationFormat`).

The wall clock is a parameter `nowNanos`: one fixed instant, counted in
nanoseconds since the Unix epoch. `chrono::Utc::now()` has sub-second
precision and the library compares full date-times. Block times are whole
seconds.

The fee scan is modelled as the code is written, quirks included:

- The loop is seeded with the current time in whole seconds, not with the
  tip's block time, so the tip is always added (`FeeScan.SeedNeverStops`).
- A block's fee is added before its own time is tested, so the first block
  older than the window is added too.
- The height counter is a `u64` that is decremented on every step, so the
  scan needs a block above height 0 older than the window. Without one the
  counter would go below 0. This is the precondition
  `StopHeight(chain, nowNanos) >= 1`, and `FeeScan.StopsAboveGenesisIff`
  restates it as "some block at height 1 or more is older than the window".

- The stop test reads `Utc::now()` again on every call (src/lib.rs:131).
  The model uses one fixed instant, as explained under "Left out".

## Model

| member | source | states |
|---|---|---|
| `TruncatedArith.TruncDiv` | examples/example.rs:24 | Rust's signed `/`: the magnitude of the quotient is the floor of the magnitudes' quotient, and its sign is that of the operands' product (the quotient rounds toward zero) |
| `TruncatedArith.TruncRem` | examples/example.rs:23 | Rust's signed `%`: `a == (a / b) * b + r`, `abs(r) < abs(b)`, and a nonzero remainder has the sign of the dividend |
| `TruncatedArith.TruncAgreesOnNonNegative` | examples/example.rs:23-24 | on a non-negative dividend and a positive divisor the truncating operators equal Dafny's Euclidean ones |
| `TruncatedArith.TruncNegation` | examples/example.rs:23-24 | negating the dividend negates both the truncated quotient and the remainder |
| `Decimal.NatToString` | examples/example.rs:25 | the printed magnitude is one or more decimal digits, with no leading zero except for `"0"`, and the digits read back to the number |
| `Decimal.IntToString` | examples/example.rs:25 | how `{:#?}` prints an `i64`: a negative number is `-` followed by `NatToString` of its magnitude, so at least one digit and no leading zero; any other number is exactly its `NatToString`. `Decimal.IntToStringRoundTrip` proves that `ParseInt` reads the text back to the same integer |
| `Decimal.IntToStringRoundTrip` | examples/example.rs:25 | reading back the text that `{:#?}` prints for an integer (a `-` for negatives, then the digits) gives the same integer |
| `DurationFormat.SecondsComponent` | examples/example.rs:23 | `seconds % 60` lies strictly between -60 and 60, equals the Euclidean remainder for non-negative input, is never positive for negative input, and differs from the input by a multiple of 60 |
| `DurationFormat.MinutesComponent` | examples/example.rs:24 | `(seconds / 60) % 60` lies strictly between -60 and 60, equals `(s / 60) % 60` for non-negative input, and is never positive for negative input |
| `DurationFormat.FormatDuration` | examples/example.rs:22-26 | the text before its first colon is exactly the `{:#?}` text of the minutes component and the text after it exactly that of the seconds component (unpadded, no `-0`), and the whole reads back to the two components |
| `DurationFormat.NonNegativeComponents` | examples/example.rs:23-24 | for input 0 or more both components are in 0..59, and minutes * 60 + seconds is the input modulo 3600 |
| `DurationFormat.HoursDiscarded` | examples/example.rs:24 | for input 0 or more, adding 3600 seconds prints the same text |
| `DurationFormat.NegativeMirrorsPositive` | examples/example.rs:23-24 | the components of `-s` are the negated components of `s` |
| `DurationFormat.Examples` | examples/example.rs:22-26 | 65 prints `1:5`, -65 prints `-1:-5`, and 3725 prints `2:5` |
| `DurationFormat.ZeroMinuteExamples` | examples/example.rs:22-26 | a zero minute prints as `0`, never padded or `-0`: 5 prints `0:5` and -5 prints `0:-5` |
| `Clock.UnixSeconds` | src/lib.rs:141 | `timestamp()` gives the whole second containing the instant: `secs * 10^9 <= now < (secs + 1) * 10^9` |
| `Clock.SecondsSince` | src/lib.rs:51-54 | the signed distance from a block time to now, in whole seconds rounded toward zero: not negative and rounded down when now is at or after the block, not positive and rounded up when now is before it |
| `Clock.SecondsSinceOnWholeSecond` | src/lib.rs:51-54 | when now is a whole second, the distance is the plain difference of seconds |
| `BlockStats.TimeOf` | src/lib.rs:114-123 | the extracted `time` is the time the answer reports; a selective answer without it is excluded, because `unwrap` panics |
| `BlockStats.TotalFeeOf` | src/lib.rs:103-112 | the extracted `totalfee` is the fee the answer reports; a selective answer without it is excluded, because `unwrap` panics |
| `BlockStats.ExtractionDefinedExactlyWhenReported` | src/lib.rs:107-110 | extraction can be called exactly when the answer carries the field, for both `time` and `totalfee` |
| `BlockStats.ShapeDoesNotMatter` | src/lib.rs:118-121 | a full and a selective answer that report the same block give the same `time` and `totalfee` |
| `ChainMetrics.CurrentDifficultyEpoch` | src/lib.rs:162-166 | the epoch is at least 1, and the height lies in `[(epoch - 1) * 2016, epoch * 2016)` |
| `ChainMetrics.EpochIsUnique` | src/lib.rs:164 | any number whose 2016-block period contains the height is the epoch |
| `ChainMetrics.EpochBoundaries` | src/lib.rs:164 | the epoch never decreases as the height grows; heights 0..2015 are epoch 1, 2016 is epoch 2, and 4032 is epoch 3 |
| `ChainMetrics.AverageBlockTime` | src/lib.rs:57-64 | the average is the window interval divided by 2016, rounded down: `avg * 2016 <= interval < (avg + 1) * 2016` |
| `ChainMetrics.TimeSinceLastBlockInSeconds` | src/lib.rs:43-55 | the tip answer carries a time, the result is the rounded-toward-zero distance from that time to now, and it is not negative when the block is not in the future |
| `FeeScan.IsMoreThan24HoursAgo` | src/lib.rs:128-137 | the block instant is strictly before now minus 86 400 s. In whole seconds: a block time more than 86 400 s before the current second is always older, a later one never is, and one exactly 86 400 s before it is older only when now has a fractional second |
| `FeeScan.CutoffIsStrict` | src/lib.rs:128-137 | a block exactly at the cutoff instant does not stop the scan; with now on a whole second, the test is `time < now - 86400` in seconds, in both directions |
| `FeeScan.SeedNeverStops` | src/lib.rs:141-143 | the seed (now in whole seconds) never passes the stop test, so the tip is always added whatever its time |
| `FeeScan.LastOlderHeight` | src/lib.rs:143-153 | the stop height is the highest height at or below `h` and above 0 whose block is older than the window: it is older (when not 0) and every block above it up to `h` is not |
| `FeeScan.StopsAboveGenesisIff` | src/lib.rs:151 | the scan stops above genesis (the `u64` height never goes below 0) exactly when some block at height 1 or more is older than the window |
| `FeeScan.ScanOrder` | src/lib.rs:140-151 | the visit order has `hi - lo + 1` heights and its i-th entry is `hi - i`: it starts at `hi` and steps down by one |
| `FeeScan.ScanOrderVisitsEachOnce` | src/lib.rs:140-151 | the heights visited are exactly `lo..hi`, and they appear in strictly descending order, so none is repeated |
| `FeeScan.ScanOrderStep` | src/lib.rs:151 | one more decrement extends the visit order by exactly the next lower height |
| `FeeScan.SumFeesAppend` | src/lib.rs:149 | visiting one more height adds exactly that block's fee, so the running total never decreases |
| `FeeScan.TotalFeeFor24Hours` | src/lib.rs:125-155 | given a block above genesis older than the window, the loop visits tip, tip-1, ... down to the stop height. It returns the sum of those blocks' fees. The first height visited is the tip. The last one is older than the window, and every earlier one is not |
| `FeeScan.WindowShape` | src/lib.rs:140-153 | the visited window starts at the tip and ends at the first block older than the window; every block before that last one is inside the window |
| `FeeScan.OlderTipIsAddedAlone` | src/lib.rs:141-153 | a tip older than the window is still added and is the only block added |
| `FeeScan.ScanExample` | src/lib.rs:125-155 | on a four-block chain with the cutoff between heights 2 and 1, the scan visits 3, 2 and 1, and the total is 9 |

## Left out

- All RPC calls and the transport (src/client.rs and every `Command::new().call(client)`). The node is an immutable chain of (block time, total fee) pairs. The height of its last block is `getblockcount`. `getchaintxstats`'s `window_interval` and the tip's `getblockstats` answer are parameters.
- FeeScan.TotalFeeFor24Hours: reads each block's fee and time as already-extracted values. The two `getblockstats` calls per height are not modelled. `BlockStats` models the extraction from each answer shape on its own.
- FeeScan.TotalFeeFor24Hours: `now` is one fixed instant. The code reads the wall clock again at each stop test. If the clock advances during a scan, the cutoff moves with it, and that is not modelled.
- FeeScan.TotalFeeFor24Hours: does not model a chain with no block above height 0 older than the window; the `StopHeight >= 1` precondition excludes it. On such a chain src/lib.rs:151 decrements the `u64` height below 0 after adding height 0's fee. A debug build panics there. A release build wraps the counter to 2^64 - 1; the next test reads genesis's time, which is older than the window, so the loop stops and returns a total that includes height 0's fee. That release-build result is not modelled.
- FeeScan.TotalFeeFor24Hours: u64 overflow of the running total is not modelled. Fees are bounded by the 2.1 * 10^15 satoshi supply, far below 2^64.
- FeeScan.TotalFeeFor24Hours: the `time as i64` cast and `Utc.timestamp`'s panic on out-of-range times are not modelled. Block times are far inside both ranges.
- ChainMetrics.TimeSinceLastBlockInSeconds: the `time_of_last_block as i64` cast and `Utc.timestamp`'s panic on out-of-range times (src/lib.rs:52) are not modelled; the block time may be any natural number. Block times are far inside both ranges.
- The `u64` types of `CurrentDifficultyEpoch` and `AverageBlockTime` are modelled as `nat`. Neither can overflow: division by 2016 cannot, and `block_count / 2016 + 1` is at most (2^64 - 1) / 2016 + 1, far below 2^64.
- DurationFormat.FormatDuration: takes any integer, not only an `i64`. `%` and `/` by 60 cannot overflow an `i64`.
- TruncatedArith.TruncDiv: the divisor may be any nonzero integer. The overflow of `i64::MIN / -1` is not modelled; the only signed division in the modelled code is `format_duration`'s (examples/example.rs:23-24), whose divisor is always 60.
- Floating-point metrics are not modelled: `get_tps_for_last_30_days`, `get_difficulty`, the two hash-rate getters, and the display conversions in the example binary.
- The pass-through getters have no logic and are not modelled: chain size, UTXO set size, money supply, total transaction count, transactions over 30 days, and mempool count.
- Client construction, environment variables, `main` and printing in the example binary are not modelled.

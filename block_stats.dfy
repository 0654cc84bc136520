/**
  The `getblockstats` answer comes in two shapes: every statistic present
  (`AllStats`), or only the statistics that were asked for, each optional
  (`SelectiveStats`). The library reads one field out of either shape and
  unwraps the optional one, which panics when the field is absent; that
  panic is a precondition here.
*/
module BlockStats {
  import opened Wrappers

  /** The fields of the full answer that the library reads (the node reports many more). */
  datatype AllStats = AllStats(time: nat, totalFee: nat)

  /** The selective answer: only the requested statistics are present. */
  datatype SelectiveStats = SelectiveStats(time: Option<nat>, totalFee: Option<nat>)

  datatype BlockStatsResponse =
    | AllStatsResponse(all: AllStats)
    | SelectiveStatsResponse(selective: SelectiveStats)

  /** The block time the answer carries, whichever its shape; `None` when it carries none. */
  function ReportedTime(response: BlockStatsResponse): Option<nat> {
    match response
    case AllStatsResponse(a) => Some(a.time)
    case SelectiveStatsResponse(s) => s.time
  }

  /** The total fee the answer carries, whichever its shape; `None` when it carries none. */
  function ReportedTotalFee(response: BlockStatsResponse): Option<nat> {
    match response
    case AllStatsResponse(a) => Some(a.totalFee)
    case SelectiveStatsResponse(s) => s.totalFee
  }

  /** The `time` field, taken directly from a full answer and unwrapped from a selective one. */
  function TimeOf(response: BlockStatsResponse): (time: nat)
    requires response.AllStatsResponse? || response.selective.time.Some?
    ensures ReportedTime(response) == Some(time)
  {
    match response
    case AllStatsResponse(a) => a.time
    case SelectiveStatsResponse(s) => s.time.value
  }

  /** The `totalfee` field, taken directly from a full answer and unwrapped from a selective one. */
  function TotalFeeOf(response: BlockStatsResponse): (fee: nat)
    requires response.AllStatsResponse? || response.selective.totalFee.Some?
    ensures ReportedTotalFee(response) == Some(fee)
  {
    match response
    case AllStatsResponse(a) => a.totalFee
    case SelectiveStatsResponse(s) => s.totalFee.value
  }

  /**
    The extraction can be called exactly when the answer carries the field,
    and then the two shapes give the same value for the same block.
  */
  lemma ExtractionDefinedExactlyWhenReported(response: BlockStatsResponse)
    ensures (response.AllStatsResponse? || response.selective.time.Some?) <==> ReportedTime(response).Some?
    ensures (response.AllStatsResponse? || response.selective.totalFee.Some?) <==> ReportedTotalFee(response).Some?
  {
  }

  lemma ShapeDoesNotMatter(all: AllStats, selective: SelectiveStats)
    requires selective.time == Some(all.time) && selective.totalFee == Some(all.totalFee)
    ensures TimeOf(AllStatsResponse(all)) == TimeOf(SelectiveStatsResponse(selective))
    ensures TotalFeeOf(AllStatsResponse(all)) == TotalFeeOf(SelectiveStatsResponse(selective))
  {
  }
}

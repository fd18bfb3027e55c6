/** `should_throttle` of limiter.py: find the baseline row for a window
    reference time, then compare the growth of the cumulative counter since that
    row with the window's data cap. */
module Throttle {
  import opened Wrappers
  import opened Units
  import opened TimeSlices

  /** The row the growth is measured from: the latest row strictly before the
      reference; when no row is that old, the earliest row; none when the table
      is empty. */
  function Baseline(rows: seq<Sample>, pastReference: int): (r: Option<Sample>)
    ensures r.None? <==> rows == []
    ensures r.Some? ==> r.value in rows
    ensures r.Some? && r.value.timestamp < pastReference ==>
      forall i :: 0 <= i < |rows| && rows[i].timestamp < pastReference ==>
        rows[i].timestamp <= r.value.timestamp
    ensures r.Some? && r.value.timestamp >= pastReference ==>
      forall i :: 0 <= i < |rows| ==> pastReference <= r.value.timestamp <= rows[i].timestamp
  {
    match LatestBefore(rows, pastReference)
    case Some(s) => Some(s)
    case None => Earliest(rows)
  }

  /** `should_throttle(db, past_reference, current_data_usage, usage_limit)`.
      An empty table gives false without reading the limit at all; otherwise the
      limit is parsed as a data size (its errors propagate) and the verdict is
      whether the growth since the baseline exceeds it. The growth is not
      clamped: a counter that went down gives a negative growth. */
  function ShouldThrottle(rows: seq<Sample>, pastReference: int, currentUsage: int,
                          usageLimit: string): (r: Result<bool, ParseError>)
    ensures rows == [] ==> r == Ok(false)
    ensures rows != [] ==> (r.Err? <==> ParseSize(usageLimit, "DATA").Err?)
    ensures rows != [] && r.Err? ==> r.error == ParseSize(usageLimit, "DATA").error
    ensures rows != [] && ParseSize(usageLimit, "DATA").Ok? ==>
      Baseline(rows, pastReference).Some? &&
      r == Ok(currentUsage - Baseline(rows, pastReference).value.usage > ParseSize(usageLimit, "DATA").value)
    ensures r == Ok(true) ==>
      exists i :: 0 <= i < |rows| && currentUsage - rows[i].usage > ParseSize(usageLimit, "DATA").value
  {
    match Baseline(rows, pastReference)
    case None => Ok(false)
    case Some(pastSlice) =>
      var delta := currentUsage - pastSlice.usage;
      match ParseSize(usageLimit, "DATA")
      case Err(e) => Err(e)
      case Ok(limit) => Ok(delta > limit)
  }

  /** A counter that did not grow since the baseline never throttles, whatever
      the limit: the growth is not clamped, but caps are never negative. */
  lemma NoGrowthNeverThrottles(rows: seq<Sample>, pastReference: int, currentUsage: int,
                               usageLimit: string)
    requires rows != [] ==> currentUsage <= Baseline(rows, pastReference).value.usage
    ensures ShouldThrottle(rows, pastReference, currentUsage, usageLimit) != Ok(true)
  {
  }

  /** More usage never turns a throttle verdict off. */
  lemma ThrottleGrowsWithUsage(rows: seq<Sample>, pastReference: int, lower: int, higher: int,
                               usageLimit: string)
    requires lower <= higher
    requires ShouldThrottle(rows, pastReference, lower, usageLimit) == Ok(true)
    ensures ShouldThrottle(rows, pastReference, higher, usageLimit) == Ok(true)
  {
  }

  /** One row at `t0` holding `u0`, any reference after it: the growth is
      measured from that row. With the reference at or before `t0` the same row
      is used, as the earliest one. */
  lemma SingleRowBaseline(t0: int, u0: int, pastReference: int)
    ensures Baseline([Sample(t0, u0)], pastReference) == Some(Sample(t0, u0))
  {
  }

  /** Daily limit "10g", one row two hours before now holding 5 GiB, 16 GiB used
      now: 11 GiB were used in the window, so the verdict is to throttle. */
  lemma ElevenGibibytesOverTenGibibyteDay(now: int)
    ensures ShouldThrottle([Sample(now - 7200, 5368709120)], now - 86400, 17179869184, "10g") == Ok(true)
  {
    TenGibibytes();
  }

  /** A limit string that does not parse is not noticed while the table is
      empty: the first run succeeds and records its row. */
  lemma MalformedLimitUnreadOnEmptyTable(pastReference: int, currentUsage: int)
    ensures ParseSize("bogus", "DATA").Err?
    ensures ShouldThrottle([], pastReference, currentUsage, "bogus") == Ok(false)
  {
    MalformedNumbers();
  }
}

/**
 * `get_timedeltas_in_minutes` (research/time/utils.py), the older helper
 * that `get_timedeltas` of research/utils/time.py generalises: the minutes
 * between consecutive timestamps, the last slot assumed as long as the one
 * before it.
 */
module ResearchTimeUtils {
  import opened Wrappers
  import opened ResearchTime

  /**
   * The loop of lines 14-22. The last timestamp reads the entry before it,
   * `timedeltas[index - 1]`; for a single timestamp that is `timedeltas[-1]`
   * of an empty list, an IndexError.
   */
  method GetTimedeltasInMinutes(unixTimestamps: seq<int>) returns (r: Result<seq<real>, TimeError>)
    ensures r == Timedeltas(unixTimestamps, Minutes, true)
  {
    var timedeltas: seq<real> := [];
    for index := 0 to |unixTimestamps|
      invariant |timedeltas| == index
      invariant index < |unixTimestamps| ==> timedeltas == PairDeltas(unixTimestamps[..index + 1], Minutes)
      invariant index == |unixTimestamps| > 0 ==> Ok(timedeltas) == Timedeltas(unixTimestamps, Minutes, true)
    {
      if index < |unixTimestamps| - 1 {
        PairDeltasSnoc(unixTimestamps[..index + 2]);
        assert unixTimestamps[..index + 2][..index + 1] == unixTimestamps[..index + 1];
        timedeltas := timedeltas + [Delta(unixTimestamps[index + 1] - unixTimestamps[index], Minutes)];
      } else {
        if index == 0 {
          return Err(IndexError);
        }
        assert unixTimestamps[..index + 1] == unixTimestamps;
        timedeltas := timedeltas + [timedeltas[index - 1]];
      }
    }
    r := Ok(timedeltas);
  }

  /**
   * For two or more timestamps the result has one entry per timestamp: the
   * minutes to the next timestamp, and for the last one the minutes of the
   * slot before it; this is `get_timedeltas(unit="minutes", extend_tail=True)`.
   */
  lemma InMinutesEntries(ts: seq<int>, i: nat)
    requires |ts| >= 2 && i < |ts|
    ensures Timedeltas(ts, Minutes, true).Ok? && |Timedeltas(ts, Minutes, true).value| == |ts|
    ensures i + 1 < |ts| ==> Timedeltas(ts, Minutes, true).value[i] == DaySeconds(ts[i + 1] - ts[i]) as real / 60.0
    ensures i + 1 == |ts| ==> Timedeltas(ts, Minutes, true).value[i] == Timedeltas(ts, Minutes, true).value[i - 1]
  {
    TimedeltasShape(ts, Minutes, true);
    TimedeltasAt(ts, Minutes, true, i);
  }
}

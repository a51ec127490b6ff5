/**
 * The earlier lookback-median forecaster `_forecast` of
 * db/forecast_experiment.py.
 *
 * It differs from `builtin_forecast_gci` (module GciForecast) in two places:
 * a candidate is read from the history only when it lies strictly before the
 * latest sample, and a candidate missing from the history is an error (the
 * IndexError of `values[0]` on an empty array) instead of being skipped.
 * A candidate at the latest sample itself is therefore looked up among the
 * forecast rows, which all lie after it, and is dropped.
 */
module ForecastExperiment {
  import opened Wrappers
  import opened Statistics
  import opened GciForecast

  /** Lines 50-56: the candidates one day offset contributes for the past hour `past`. */
  function ExperimentCandidate(data: seq<Sample>, latest: int, prior: seq<ForecastRow>, past: int)
    : Result<seq<Option<real>>, ForecastError>
  {
    if past < latest then
      var vals := ValuesAt(data, past);
      if vals == [] then Err(MissingHistory(past)) else Ok([Some(vals[0])])
    else Ok(Matches(prior, past))
  }

  /** Lines 49-56: the candidates of the day offsets 1 to `k`; the first missing history value stops the forecast. */
  function ExperimentPoints(data: seq<Sample>, latest: int, prior: seq<ForecastRow>, t: int, k: nat)
    : Result<seq<Option<real>>, ForecastError>
  {
    if k == 0 then Ok([])
    else
      var before := ExperimentPoints(data, latest, prior, t, k - 1);
      if before.Err? then before
      else
        var c := ExperimentCandidate(data, latest, prior, t - 24 * k);
        if c.Err? then Err(c.error) else Ok(before.value + c.value)
  }

  /** Lines 39-57: the first `n` rows after `latest`, or the error that stopped the forecast. */
  function ExperimentRows(data: seq<Sample>, latest: int, n: nat, lookback: nat): (r: Result<seq<ForecastRow>, ForecastError>)
    ensures r.Ok? ==> |r.value| == n
    ensures r.Ok? ==> forall h :: 0 <= h < n ==> r.value[h].time == latest + 1 + h
  {
    if n == 0 then Ok([])
    else
      var prior := ExperimentRows(data, latest, n - 1, lookback);
      if prior.Err? then prior
      else
        var points := ExperimentPoints(data, latest, prior.value, latest + n, lookback);
        if points.Err? then Err(points.error)
        else Ok(prior.value + [ForecastRow(latest + n, Median(points.value))])
  }

  /**
   * `_forecast`: `days * 24` hourly rows after the latest sample, or the
   * error of the first missing history value. An empty history has no
   * latest time.
   */
  method Forecast(data: seq<Sample>, days: nat, lookback: nat) returns (r: Result<seq<ForecastRow>, ForecastError>)
    ensures data == [] ==> r == Err(NoHistory)
    ensures data != [] ==> r == ExperimentRows(data, LatestTime(data), days * 24, lookback)
  {
    if data == [] {
      return Err(NoHistory);
    }
    var latest := LatestTime(data);
    var forecast: seq<ForecastRow> := [];
    for h := 0 to days * 24
      invariant ExperimentRows(data, latest, h, lookback) == Ok(forecast)
    {
      var next := ExperimentHour(data, latest, forecast, h, lookback);
      if next.Err? {
        RowsErrorPersists(data, latest, h + 1, days * 24, lookback);
        return next;
      }
      forecast := next.value;
    }
    r := Ok(forecast);
  }

  /** Lines 47-57, one pass of the outer loop: the rows up to the hour `h + 1` after `latest`. */
  method ExperimentHour(data: seq<Sample>, latest: int, forecast: seq<ForecastRow>, h: nat, lookback: nat)
    returns (next: Result<seq<ForecastRow>, ForecastError>)
    requires ExperimentRows(data, latest, h, lookback) == Ok(forecast)
    ensures next == ExperimentRows(data, latest, h + 1, lookback)
  {
    var timePoint := latest + 1 + h;
    var points := ExperimentCollect(data, latest, forecast, timePoint, lookback);
    if points.Err? {
      return Err(points.error);
    }
    next := Ok(forecast + [ForecastRow(timePoint, Median(points.value))]);
  }

  /** Lines 48-56: the candidates of the forecast hour `timePoint`. */
  method ExperimentCollect(data: seq<Sample>, latest: int, forecast: seq<ForecastRow>, timePoint: int, lookback: nat)
    returns (r: Result<seq<Option<real>>, ForecastError>)
    ensures r == ExperimentPoints(data, latest, forecast, timePoint, lookback)
  {
    var points: seq<Option<real>> := [];
    for dayOffset := 1 to lookback + 1
      invariant ExperimentPoints(data, latest, forecast, timePoint, dayOffset - 1) == Ok(points)
    {
      var pastTimePoint := timePoint - 24 * dayOffset;
      if pastTimePoint < latest {
        var vals := ValuesAt(data, pastTimePoint);
        if |vals| == 0 {
          PointsErrorPersists(data, latest, forecast, timePoint, dayOffset, lookback);
          return Err(MissingHistory(pastTimePoint));
        }
        points := points + [Some(vals[0])];
      } else {
        var found := MatchForecast(forecast, pastTimePoint);
        points := points + found;
      }
    }
    r := Ok(points);
  }

  /** Once a day offset fails, the later offsets do not change the error. */
  lemma {:induction false} PointsErrorPersists(data: seq<Sample>, latest: int, prior: seq<ForecastRow>, t: int, k: nat, m: nat)
    requires k <= m && ExperimentPoints(data, latest, prior, t, k).Err?
    ensures ExperimentPoints(data, latest, prior, t, m) == ExperimentPoints(data, latest, prior, t, k)
    decreases m
  {
    if m > k {
      PointsErrorPersists(data, latest, prior, t, k, m - 1);
    }
  }

  /** Once an hour fails, the forecast as a whole fails with that hour's error. */
  lemma {:induction false} RowsErrorPersists(data: seq<Sample>, latest: int, n: nat, m: nat, lookback: nat)
    requires n <= m && ExperimentRows(data, latest, n, lookback).Err?
    ensures ExperimentRows(data, latest, m, lookback) == ExperimentRows(data, latest, n, lookback)
    decreases m
  {
    if m > n {
      RowsErrorPersists(data, latest, n, m - 1, lookback);
      var prior := ExperimentRows(data, latest, m - 1, lookback);
      assert prior.Err?;
      assert ExperimentRows(data, latest, m, lookback) == prior;
    }
  }

  /**
   * A history candidate is an error exactly when it lies strictly before the
   * latest sample and no sample has its hour; otherwise a history candidate
   * is the gci of the first sample at that hour.
   */
  lemma MissingHistoryRaises(data: seq<Sample>, latest: int, prior: seq<ForecastRow>, past: int)
    ensures ExperimentCandidate(data, latest, prior, past).Err? <==>
              past < latest && forall i :: 0 <= i < |data| ==> data[i].time != past
    ensures ExperimentCandidate(data, latest, prior, past).Err? ==>
              ExperimentCandidate(data, latest, prior, past).error == MissingHistory(past)
    ensures past < latest && ExperimentCandidate(data, latest, prior, past).Ok? ==>
              exists i :: 0 <= i < |data| && data[i].time == past
                          && ExperimentCandidate(data, latest, prior, past).value == [Some(data[i].gci)]
  {
    FirstValueAt(data, past);
  }

  /** Forecast rows that all lie after `t` hold no candidate for `t`. */
  lemma {:induction false} MatchesNone(prior: seq<ForecastRow>, t: int)
    requires forall i :: 0 <= i < |prior| ==> prior[i].time != t
    ensures Matches(prior, t) == []
    decreases |prior|
  {
    if prior != [] {
      MatchesNone(prior[..|prior| - 1], t);
    }
  }

  /**
   * The strict boundary: the forecast hour one day after the latest sample
   * has that sample as its one-day-back candidate (whenever the lookback is
   * at least a day). Here that candidate goes to the forecast branch, finds
   * no row and is dropped, while `builtin_forecast_gci` reads the value of
   * the latest sample.
   */
  lemma StrictBoundaryDropsLatest(data: seq<Sample>, prior: seq<ForecastRow>, lookback: nat)
    requires data != [] && lookback >= 1
    requires forall i :: 0 <= i < |prior| ==> prior[i].time > LatestTime(data)
    ensures PastHours(LatestTime(data) + 24, lookback)[0] == LatestTime(data)
    ensures ExperimentCandidate(data, LatestTime(data), prior, LatestTime(data)) == Ok([])
    ensures |BuiltinCandidate(data, LatestTime(data), prior, LatestTime(data))| == 1
    ensures ExperimentPoints(data, LatestTime(data), prior, LatestTime(data) + 24, 1) == Ok([])
    ensures |BuiltinPoints(data, LatestTime(data), prior, LatestTime(data) + 24, 1)| == 1
  {
    var latest := LatestTime(data);
    MatchesNone(prior, latest);
    FirstValueAt(data, latest);
    var c := ExperimentCandidate(data, latest, prior, latest + 24 - 24 * 1);
    assert c == Ok([]);
    var empty: seq<Option<real>> := [];
    assert empty + c.value == [];
    assert ExperimentPoints(data, latest, prior, latest + 24, 1) == Ok(empty + c.value);
  }

  /** The past hours the day offsets 1 to `k` look at for the forecast hour `t`. */
  function PastHours(t: int, k: nat): (hours: seq<int>)
    ensures |hours| == k
    ensures forall j :: 0 <= j < k ==> hours[j] == t - 24 * (j + 1)
  {
    if k == 0 then [] else PastHours(t, k - 1) + [t - 24 * k]
  }

  /** The two forecasters read the same candidate for `past`. */
  predicate SameCandidate(data: seq<Sample>, latest: int, past: int)
  {
    past != latest && (past < latest ==> ValuesAt(data, past) != [])
  }

  /** When no candidate is the latest sample and no history value is missing, the candidates agree. */
  lemma {:induction false} PointsAgree(data: seq<Sample>, latest: int, prior: seq<ForecastRow>, t: int, k: nat)
    requires forall p :: p in PastHours(t, k) ==> SameCandidate(data, latest, p)
    ensures ExperimentPoints(data, latest, prior, t, k) == Ok(BuiltinPoints(data, latest, prior, t, k))
    decreases k
  {
    if k > 0 {
      assert PastHours(t, k) == PastHours(t, k - 1) + [t - 24 * k];
      assert SameCandidate(data, latest, t - 24 * k);
      PointsAgree(data, latest, prior, t, k - 1);
    }
  }

  /** The first `n` forecast hours after `latest` read no candidate at the latest sample and miss no history value. */
  predicate HoursAgree(data: seq<Sample>, latest: int, n: nat, lookback: nat)
  {
    forall t, p :: latest < t <= latest + n && p in PastHours(t, lookback) ==> SameCandidate(data, latest, p)
  }

  /**
   * When no candidate of the first `n` hours is the latest sample and every
   * history candidate has a sample, `_forecast` produces the rows of
   * `builtin_forecast_gci`.
   */
  lemma {:induction false} RowsAgree(data: seq<Sample>, latest: int, n: nat, lookback: nat)
    requires HoursAgree(data, latest, n, lookback)
    ensures ExperimentRows(data, latest, n, lookback) == Ok(BuiltinRows(data, latest, n, lookback))
    decreases n
  {
    if n > 0 {
      assert HoursAgree(data, latest, n - 1, lookback);
      RowsAgree(data, latest, n - 1, lookback);
      var prior := BuiltinRows(data, latest, n - 1, lookback);
      HourAgrees(data, latest, n, lookback, prior);
      RowsStep(data, latest, n, lookback, prior, BuiltinPoints(data, latest, prior, latest + n, lookback));
    }
  }

  lemma HourAgrees(data: seq<Sample>, latest: int, n: nat, lookback: nat, prior: seq<ForecastRow>)
    requires n > 0 && HoursAgree(data, latest, n, lookback)
    ensures ExperimentPoints(data, latest, prior, latest + n, lookback) == Ok(BuiltinPoints(data, latest, prior, latest + n, lookback))
  {
    forall p | p in PastHours(latest + n, lookback) ensures SameCandidate(data, latest, p) {
    }
    PointsAgree(data, latest, prior, latest + n, lookback);
  }

  lemma RowsStep(data: seq<Sample>, latest: int, n: nat, lookback: nat, prior: seq<ForecastRow>, points: seq<Option<real>>)
    requires n > 0 && ExperimentRows(data, latest, n - 1, lookback) == Ok(prior)
    requires ExperimentPoints(data, latest, prior, latest + n, lookback) == Ok(points)
    ensures ExperimentRows(data, latest, n, lookback) == Ok(prior + [ForecastRow(latest + n, Median(points))])
  {
  }
}

/**
 * The lookback-median forecast of the grid carbon intensity
 * (src/forecasting/gci.py, `builtin_forecast_gci`).
 *
 * Times are whole hours. The forecast covers the `days * 24` hours after the
 * latest sample; the value of each hour is the median of the same clock hour
 * 1 to `lookback` days earlier. A candidate at or before the latest sample is
 * read from the history (the first sample at that time; a missing one is
 * skipped), a later one from the forecast rows already produced. A NaN value
 * is `None`.
 */
module GciForecast {
  import opened Wrappers
  import opened Statistics

  /** One row of the history: an hour and its gci. */
  datatype Sample = Sample(time: int, gci: real)

  /** One row of the forecast; the gci is NaN (`None`) when the median had nothing to work on. */
  datatype ForecastRow = ForecastRow(time: int, gci: Option<real>)

  /**
   * NoHistory: the history is empty, so its latest time is NaT and the hour
   * range cannot be built. MissingHistory: a history value the earlier
   * forecaster insists on is missing (its IndexError).
   */
  datatype ForecastError = NoHistory | MissingHistory(time: int)

  /** `data["time"].max()`. */
  function LatestTime(data: seq<Sample>): (t: int)
    requires data != []
    ensures exists i :: 0 <= i < |data| && data[i].time == t
    ensures forall i :: 0 <= i < |data| ==> data[i].time <= t
  {
    if |data| == 1 then data[0].time
    else
      var rest := LatestTime(data[1..]);
      if data[0].time >= rest then data[0].time else rest
  }

  /** `data[data["time"] == t]["gci"].values`: the gci of every sample at `t`, in history order. */
  function ValuesAt(data: seq<Sample>, t: int): seq<real>
  {
    if data == [] then [] else (if data[0].time == t then [data[0].gci] else []) + ValuesAt(data[1..], t)
  }

  /** `vals[0]` is the gci of the first sample at `t`, and there is one exactly when some sample is at `t`. */
  lemma {:induction false} FirstValueAt(data: seq<Sample>, t: int)
    ensures ValuesAt(data, t) != [] <==> exists i :: 0 <= i < |data| && data[i].time == t
    ensures ValuesAt(data, t) != [] ==>
              exists i :: && 0 <= i < |data| && data[i].time == t && data[i].gci == ValuesAt(data, t)[0]
                          && forall j :: 0 <= j < i ==> data[j].time != t
    decreases |data|
  {
    if data != [] {
      FirstValueAt(data[1..], t);
      if data[0].time == t {
        assert data[0].gci == ValuesAt(data, t)[0];
      } else {
        assert ValuesAt(data, t) == ValuesAt(data[1..], t);
        forall i | 0 <= i < |data[1..]| ensures data[1..][i] == data[i + 1] {
        }
        if ValuesAt(data, t) != [] {
          var i :| 0 <= i < |data[1..]| && data[1..][i].time == t && data[1..][i].gci == ValuesAt(data, t)[0]
                   && forall j :: 0 <= j < i ==> data[1..][j].time != t;
          assert forall j :: 0 <= j < i + 1 ==> data[j].time != t by {
            forall j | 0 <= j < i + 1 ensures data[j].time != t {
              if j > 0 {
                assert data[1..][j - 1] == data[j];
              }
            }
          }
        }
      }
    }
  }

  /** Lines 63-65: the gci of every forecast row at `t`, in the order the rows were produced. */
  function Matches(prior: seq<ForecastRow>, t: int): seq<Option<real>>
  {
    if prior == [] then []
    else Matches(prior[..|prior| - 1], t) + (if prior[|prior| - 1].time == t then [prior[|prior| - 1].gci] else [])
  }

  /** Lines 54-65: the candidate the day offset contributes for the past hour `past`. */
  function BuiltinCandidate(data: seq<Sample>, latest: int, prior: seq<ForecastRow>, past: int): seq<Option<real>>
  {
    if past <= latest then
      var vals := ValuesAt(data, past);
      if vals == [] then [] else [Some(vals[0])]
    else Matches(prior, past)
  }

  /** Lines 52-65: the candidates of the day offsets 1 to `k` for the forecast hour `t`. */
  function BuiltinPoints(data: seq<Sample>, latest: int, prior: seq<ForecastRow>, t: int, k: nat): seq<Option<real>>
  {
    if k == 0 then []
    else BuiltinPoints(data, latest, prior, t, k - 1) + BuiltinCandidate(data, latest, prior, t - 24 * k)
  }

  /**
   * Lines 43-66: the first `n` forecast rows, one per hour after `latest`,
   * each the median of its candidates given the rows before it.
   */
  function BuiltinRows(data: seq<Sample>, latest: int, n: nat, lookback: nat): (rows: seq<ForecastRow>)
    ensures |rows| == n
    ensures forall h :: 0 <= h < n ==> rows[h].time == latest + 1 + h
  {
    if n == 0 then []
    else
      var prior := BuiltinRows(data, latest, n - 1, lookback);
      prior + [ForecastRow(latest + n, Median(BuiltinPoints(data, latest, prior, latest + n, lookback)))]
  }

  /**
   * `builtin_forecast_gci`: `days * 24` hourly rows after the latest sample.
   * The gap filling it starts with discards its results, so the history is
   * used as given.
   */
  method BuiltinForecastGci(data: seq<Sample>, days: nat, lookback: nat) returns (r: Result<seq<ForecastRow>, ForecastError>)
    ensures data == [] ==> r == Err(NoHistory)
    ensures data != [] ==> r == Ok(BuiltinRows(data, LatestTime(data), days * 24, lookback))
  {
    if data == [] {
      return Err(NoHistory);
    }
    var latest := LatestTime(data);
    var forecast: seq<ForecastRow> := [];
    for h := 0 to days * 24
      invariant forecast == BuiltinRows(data, latest, h, lookback)
    {
      forecast := ForecastHour(data, latest, forecast, h, lookback);
    }
    r := Ok(forecast);
  }

  /** Lines 44-66, one pass of the outer loop: the row of the hour `h + 1` after `latest`. */
  method ForecastHour(data: seq<Sample>, latest: int, forecast: seq<ForecastRow>, h: nat, lookback: nat)
    returns (next: seq<ForecastRow>)
    requires forecast == BuiltinRows(data, latest, h, lookback)
    ensures next == BuiltinRows(data, latest, h + 1, lookback)
  {
    var timePoint := latest + 1 + h;
    var points := CollectPoints(data, latest, forecast, timePoint, lookback);
    next := forecast + [ForecastRow(timePoint, Median(points))];
  }

  /** Lines 52-65: the candidates of the forecast hour `timePoint`. */
  method CollectPoints(data: seq<Sample>, latest: int, forecast: seq<ForecastRow>, timePoint: int, lookback: nat)
    returns (points: seq<Option<real>>)
    ensures points == BuiltinPoints(data, latest, forecast, timePoint, lookback)
  {
    points := [];
    for dayOffset := 1 to lookback + 1
      invariant points == BuiltinPoints(data, latest, forecast, timePoint, dayOffset - 1)
    {
      var pastTimePoint := timePoint - 24 * dayOffset;
      if pastTimePoint <= latest {
        var vals := ValuesAt(data, pastTimePoint);
        if |vals| > 0 {
          points := points + [Some(vals[0])];
        }
      } else {
        var found := MatchForecast(forecast, pastTimePoint);
        points := points + found;
      }
    }
  }

  /** Lines 63-65: scan the forecast rows produced so far for the hour `pastTimePoint`. */
  method MatchForecast(forecast: seq<ForecastRow>, pastTimePoint: int) returns (found: seq<Option<real>>)
    ensures found == Matches(forecast, pastTimePoint)
  {
    found := [];
    for i := 0 to |forecast|
      invariant found == Matches(forecast[..i], pastTimePoint)
    {
      assert forecast[..i + 1][..i] == forecast[..i];
      if forecast[i].time == pastTimePoint {
        found := found + [forecast[i].gci];
      }
    }
    assert forecast[..|forecast|] == forecast;
  }

  /** Forecast rows lie after the latest sample, in increasing hours. */
  lemma {:induction false} MatchesOfRows(data: seq<Sample>, latest: int, n: nat, lookback: nat, t: int)
    ensures Matches(BuiltinRows(data, latest, n, lookback), t) ==
              if latest < t <= latest + n then [BuiltinRows(data, latest, n, lookback)[t - latest - 1].gci] else []
    decreases n
  {
    if n > 0 {
      var rows := BuiltinRows(data, latest, n, lookback);
      var prior := BuiltinRows(data, latest, n - 1, lookback);
      assert rows[..|rows| - 1] == prior;
      MatchesOfRows(data, latest, n - 1, lookback, t);
      if latest < t <= latest + n - 1 {
        assert prior[t - latest - 1] == rows[t - latest - 1];
      }
    }
  }

  /**
   * Chained forecasting: a candidate after the latest sample is the value
   * already forecast for that hour, and there is exactly one such row once
   * the hour has been forecast.
   */
  lemma ChainedCandidate(data: seq<Sample>, latest: int, n: nat, lookback: nat, past: int)
    requires latest < past <= latest + n
    ensures BuiltinCandidate(data, latest, BuiltinRows(data, latest, n, lookback), past) ==
              [BuiltinRows(data, latest, n, lookback)[past - latest - 1].gci]
  {
    MatchesOfRows(data, latest, n, lookback, past);
  }

  /**
   * A candidate at or before the latest sample is the gci of the first
   * sample at that hour, and is skipped when there is none.
   */
  lemma HistoryCandidate(data: seq<Sample>, latest: int, prior: seq<ForecastRow>, past: int)
    requires past <= latest
    ensures (exists i :: 0 <= i < |data| && data[i].time == past) ==>
              exists i :: && 0 <= i < |data| && data[i].time == past
                          && BuiltinCandidate(data, latest, prior, past) == [Some(data[i].gci)]
                          && forall j :: 0 <= j < i ==> data[j].time != past
    ensures (forall i :: 0 <= i < |data| ==> data[i].time != past) ==> BuiltinCandidate(data, latest, prior, past) == []
  {
    FirstValueAt(data, past);
  }

  /**
   * Every candidate of the first 24 forecast hours lies at or before the
   * latest sample, so only the history is used: the candidates do not depend
   * on the rows forecast so far.
   */
  lemma {:induction false} FirstDayUsesHistoryOnly(data: seq<Sample>, latest: int, p1: seq<ForecastRow>, p2: seq<ForecastRow>,
                                                   t: int, k: nat)
    requires t <= latest + 24
    ensures BuiltinPoints(data, latest, p1, t, k) == BuiltinPoints(data, latest, p2, t, k)
    decreases k
  {
    if k > 0 {
      FirstDayUsesHistoryOnly(data, latest, p1, p2, t, k - 1);
    }
  }

  /** Samples in strictly increasing hours. */
  predicate Increasing(data: seq<Sample>)
  {
    forall i, j :: 0 <= i < j < |data| ==> data[i].time < data[j].time
  }

  /** In a history of increasing hours, an hour holds exactly the value of its one sample. */
  lemma {:induction false} ValuesAtIncreasing(data: seq<Sample>, i: nat)
    requires Increasing(data) && i < |data|
    ensures ValuesAt(data, data[i].time) == [data[i].gci]
    decreases |data|
  {
    var t := data[i].time;
    if i == 0 {
      assert ValuesAt(data[1..], t) == [] by {
        forall j | 0 <= j < |data[1..]| ensures data[1..][j].time != t {
          assert data[1..][j] == data[j + 1];
        }
        FirstValueAt(data[1..], t);
      }
    } else {
      assert data[1..][i - 1] == data[i];
      assert Increasing(data[1..]) by {
        forall a, b | 0 <= a < b < |data[1..]| ensures data[1..][a].time < data[1..][b].time {
          assert data[1..][a] == data[a + 1] && data[1..][b] == data[b + 1];
        }
      }
      ValuesAtIncreasing(data[1..], i - 1);
      assert data[0].time < t;
    }
  }

  /**
   * The example of the documentation: 48 hourly samples, one forecast day and
   * two days of lookback. The first forecast hour is the median, that is the
   * mean, of the values 24 and 48 hours earlier.
   */
  lemma DocumentedExample(data: seq<Sample>)
    requires |data| == 48 && forall i :: 0 <= i < 48 ==> data[i].time == i
    ensures LatestTime(data) == 47
    ensures BuiltinRows(data, 47, 1, 2)[0] == ForecastRow(48, Some((data[24].gci + data[0].gci) / 2.0))
  {
    assert data[47].time <= LatestTime(data);
    var w :| 0 <= w < |data| && data[w].time == LatestTime(data);
    assert Increasing(data);
    var prior := BuiltinRows(data, 47, 0, 2);
    ValuesAtIncreasing(data, 24);
    ValuesAtIncreasing(data, 0);
    assert BuiltinPoints(data, 47, prior, 48, 2) == [Some(data[24].gci), Some(data[0].gci)] by {
      assert BuiltinPoints(data, 47, prior, 48, 1) == [] + BuiltinCandidate(data, 47, prior, 24);
    }
    MedianOfTwoPoints(data[24].gci, data[0].gci);
  }
}

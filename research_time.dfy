/**
 * Time helpers of the carbon-intensity research scripts
 * (research/utils/time.py).
 *
 * Timestamps are unix seconds. `get_timedeltas` takes the difference of each
 * consecutive pair through `datetime` and keeps its `.seconds` field, which
 * is the difference modulo a day; local-time and daylight-saving effects of
 * `datetime.fromtimestamp` are not part of this model. `interpolate_by_minutes`
 * samples a series linearly every minute from the first timestamp up to, but
 * excluding, the last.
 */
module ResearchTime {
  import opened Wrappers

  /** The `unit` argument of `get_timedeltas`. */
  datatype Unit = Days | Hours | Minutes | Seconds

  /** Python's IndexError, raised by `timedeltas[-1]` on an empty list or `unix_seconds[0]` on an empty one. */
  datatype TimeError = IndexError

  /** `timedelta(seconds=d).seconds`: the part of the difference below one day, never negative. */
  function DaySeconds(d: int): (s: int)
    ensures 0 <= s < 86400
    ensures (d - s) % 86400 == 0
  {
    d % 86400
  }

  /** Lines 39-49: one delta in the requested unit. */
  function Delta(d: int, unit: Unit): real
  {
    var s := DaySeconds(d) as real;
    match unit
    case Days => s / 60.0 / 60.0 / 24.0
    case Hours => s / 60.0 / 60.0
    case Minutes => s / 60.0
    case Seconds => s
  }

  /** One day expressed in the unit: no delta reaches it. */
  function DayIn(unit: Unit): real
  {
    match unit
    case Days => 1.0
    case Hours => 24.0
    case Minutes => 1440.0
    case Seconds => 86400.0
  }

  /** Every delta lies in [0, one day) of its unit. */
  lemma DeltaBounds(d: int, unit: Unit)
    ensures 0.0 <= Delta(d, unit) < DayIn(unit)
  {
  }

  /** A difference below one day is converted exactly; a whole number of days more is lost. */
  lemma DeltaOfDifference(d: int, days: int, unit: Unit)
    requires 0 <= d < 86400
    ensures Delta(d + 86400 * days, unit) == Delta(d, unit)
    ensures Delta(d, Seconds) == d as real
    ensures Delta(d, Minutes) == d as real / 60.0
  {
    assert (d + 86400 * days) % 86400 == d;
  }

  /** The deltas of the consecutive pairs of `ts`, without a tail. */
  function PairDeltas(ts: seq<int>, unit: Unit): (deltas: seq<real>)
    ensures |deltas| == if ts == [] then 0 else |ts| - 1
  {
    if |ts| <= 1 then [] else [Delta(ts[1] - ts[0], unit)] + PairDeltas(ts[1..], unit)
  }

  /** The `i`-th delta is that of the `i`-th and `i + 1`-th timestamp. */
  lemma {:induction false} PairDeltasAt(ts: seq<int>, unit: Unit, i: nat)
    requires i + 1 < |ts|
    ensures PairDeltas(ts, unit)[i] == Delta(ts[i + 1] - ts[i], unit)
    decreases i
  {
    if i > 0 {
      PairDeltasAt(ts[1..], unit, i - 1);
    }
  }

  /** Lines 30-51: what `get_timedeltas` returns or raises. */
  function Timedeltas(ts: seq<int>, unit: Unit, extendTail: bool): Result<seq<real>, TimeError>
  {
    if ts == [] || !extendTail then Ok(PairDeltas(ts, unit))
    else if |ts| == 1 then Err(IndexError)
    else
      var deltas := PairDeltas(ts, unit);
      Ok(deltas + [deltas[|deltas| - 1]])
  }

  /**
   * The shape of the result: one delta per pair without a tail, one per
   * timestamp with it, the tail repeating the last pair's delta; a single
   * timestamp with a tail raises.
   */
  lemma TimedeltasShape(ts: seq<int>, unit: Unit, extendTail: bool)
    ensures Timedeltas(ts, unit, extendTail).Err? <==> extendTail && |ts| == 1
    ensures ts == [] ==> Timedeltas(ts, unit, extendTail) == Ok([])
    ensures !extendTail && ts != [] ==> |Timedeltas(ts, unit, extendTail).value| == |ts| - 1
    ensures extendTail && |ts| >= 2 ==> |Timedeltas(ts, unit, extendTail).value| == |ts|
    ensures extendTail && |ts| >= 2 ==>
              Timedeltas(ts, unit, extendTail).value[|ts| - 1] == Timedeltas(ts, unit, extendTail).value[|ts| - 2]
  {
  }

  /** Every delta of a successful call is the converted difference of its pair (the tail: of the last pair). */
  lemma TimedeltasAt(ts: seq<int>, unit: Unit, extendTail: bool, i: nat)
    requires Timedeltas(ts, unit, extendTail).Ok? && i < |Timedeltas(ts, unit, extendTail).value|
    ensures i + 1 < |ts| ==> Timedeltas(ts, unit, extendTail).value[i] == Delta(ts[i + 1] - ts[i], unit)
    ensures i + 1 == |ts| ==> Timedeltas(ts, unit, extendTail).value[i] == Delta(ts[i] - ts[i - 1], unit)
    ensures 0.0 <= Timedeltas(ts, unit, extendTail).value[i] < DayIn(unit)
  {
    if i + 1 < |ts| {
      PairDeltasAt(ts, unit, i);
    } else {
      PairDeltasAt(ts, unit, i - 1);
    }
    DeltaBounds(if i + 1 < |ts| then ts[i + 1] - ts[i] else ts[i] - ts[i - 1], unit);
  }

  /** `get_timedeltas`, the loop over the timestamps. */
  method GetTimedeltas(unixSeconds: seq<int>, unit: Unit, extendTail: bool) returns (r: Result<seq<real>, TimeError>)
    ensures r == Timedeltas(unixSeconds, unit, extendTail)
  {
    var timedeltas: seq<real> := [];
    for index := 0 to |unixSeconds|
      invariant unixSeconds != [] ==> index < |unixSeconds|
      invariant unixSeconds != [] ==> timedeltas == PairDeltas(unixSeconds[..index + 1], unit)
    {
      assert unixSeconds[..index + 1] == unixSeconds[..index] + [unixSeconds[index]];
      if index == |unixSeconds| - 1 {
        if extendTail {
          if |timedeltas| == 0 {
            return Err(IndexError);
          }
          assert unixSeconds[..index + 1] == unixSeconds;
          return Ok(timedeltas + [timedeltas[|timedeltas| - 1]]);
        } else {
          assert unixSeconds[..index + 1] == unixSeconds;
          return Ok(timedeltas);
        }
      }
      var delta := Delta(unixSeconds[index + 1] - unixSeconds[index], unit);
      PairDeltasSnoc(unixSeconds[..index + 2]);
      assert unixSeconds[..index + 2][..index + 1] == unixSeconds[..index + 1];
      timedeltas := timedeltas + [delta];
    }
    assert unixSeconds == [];
    r := Ok([]);
  }

  /** Appending a timestamp appends the delta of the new last pair. */
  lemma {:induction false} PairDeltasSnoc(ts: seq<int>)
    requires |ts| >= 2
    ensures forall unit :: PairDeltas(ts, unit) ==
              PairDeltas(ts[..|ts| - 1], unit) + [Delta(ts[|ts| - 1] - ts[|ts| - 2], unit)]
    decreases |ts|
  {
    if |ts| > 2 {
      PairDeltasSnoc(ts[1..]);
      assert ts[1..][..|ts| - 2] == ts[..|ts| - 1][1..];
    }
  }

  /** The number of minute samples from `first` up to, but excluding, `last` (`np.arange(first, last, 60)`). */
  function SampleCount(first: int, last: int): nat
  {
    if last <= first then 0 else (last - first + 59) / 60
  }

  /** Line 65: the sample times, one minute apart. */
  function SampleTimes(first: int, last: int): (xs: seq<int>)
    ensures |xs| == SampleCount(first, last)
  {
    seq(SampleCount(first, last), i => first + 60 * i)
  }

  /** The samples start at `first`, are one minute apart, stay below `last`, and the next one would not. */
  lemma SampleTimesCover(first: int, last: int)
    ensures forall i :: 0 <= i < |SampleTimes(first, last)| ==>
              first <= SampleTimes(first, last)[i] < last && SampleTimes(first, last)[i] == first + 60 * i
    ensures first + 60 * SampleCount(first, last) >= last
  {
  }

  /**
   * `np.interp(x, xp, fp)`: the piecewise-linear interpolation through the
   * points (xp, fp), constant beyond the first and last point. The
   * timestamps are expected to increase.
   */
  function Interp(x: int, xp: seq<int>, fp: seq<real>): real
    requires |xp| == |fp| > 0
    decreases |xp|
  {
    if |xp| == 1 || x <= xp[0] then fp[0]
    else if x < xp[1] then fp[0] + (fp[1] - fp[0]) * (((x - xp[0]) as real) / ((xp[1] - xp[0]) as real))
    else Interp(x, xp[1..], fp[1..])
  }

  /** An interpolated value lies between the smallest and largest data point. */
  lemma {:induction false} InterpWithin(x: int, xp: seq<int>, fp: seq<real>, lo: real, hi: real)
    requires |xp| == |fp| > 0
    requires forall i :: 0 <= i < |fp| ==> lo <= fp[i] <= hi
    ensures lo <= Interp(x, xp, fp) <= hi
    decreases |xp|
  {
    if |xp| == 1 || x <= xp[0] {
      assert Interp(x, xp, fp) == fp[0];
      assert lo <= fp[0] <= hi;
    } else if x < xp[1] {
      var a := (x - xp[0]) as real;
      var b := (xp[1] - xp[0]) as real;
      var f := a / b;
      assert Interp(x, xp, fp) == fp[0] + (fp[1] - fp[0]) * f;
      assert lo <= fp[0] <= hi && lo <= fp[1] <= hi;
      QuotientBounds(a, b, 0.0, 1.0);
      BetweenEnds(fp[0], fp[1], f, lo, hi);
    } else {
      InterpWithin(x, xp[1..], fp[1..], lo, hi);
    }
  }

  /** A point a fraction `f` of the way from `u` to `v` lies in any interval holding both. */
  lemma BetweenEnds(u: real, v: real, f: real, lo: real, hi: real)
    requires 0.0 <= f <= 1.0 && lo <= u <= hi && lo <= v <= hi
    ensures lo <= u + (v - u) * f <= hi
  {
    var p := Fraction(v - u, f);
    Offset(u, v, p, lo, hi);
  }

  /** The fraction `f` of a distance `d` lies between 0 and `d`. */
  lemma Fraction(d: real, f: real) returns (p: real)
    requires 0.0 <= f <= 1.0
    ensures p == d * f
    ensures d >= 0.0 ==> 0.0 <= p <= d
    ensures d <= 0.0 ==> d <= p <= 0.0
  {
    p := d * f;
    if d >= 0.0 {
      NonNegativeProduct(d, f);
      NonNegativeProduct(d, 1.0 - f);
      assert d * (1.0 - f) == d - p;
    } else {
      NonNegativeProduct(-d, f);
      NonNegativeProduct(-d, 1.0 - f);
      assert (-d) * f == -p;
      assert (-d) * (1.0 - f) == p - d;
    }
  }

  lemma NonNegativeProduct(x: real, y: real)
    requires x >= 0.0 && y >= 0.0
    ensures x * y >= 0.0
  {
  }

  lemma Offset(u: real, v: real, p: real, lo: real, hi: real)
    requires lo <= u <= hi && lo <= v <= hi
    requires v - u >= 0.0 ==> 0.0 <= p <= v - u
    requires v - u <= 0.0 ==> v - u <= p <= 0.0
    ensures lo <= u + p <= hi
  {
  }

  lemma QuotientBounds(x: real, b: real, lo: real, hi: real)
    requires b > 0.0 && lo * b <= x <= hi * b
    ensures lo <= x / b <= hi
  {
    var q := x / b;
    assert q * b == x;
  }

  /** `interpolate_by_minutes(data, unix_seconds)`: the series sampled every minute. */
  function Interpolate(data: seq<real>, unixSeconds: seq<int>): (samples: seq<real>)
    requires |data| == |unixSeconds| > 0
    ensures |samples| == SampleCount(unixSeconds[0], unixSeconds[|unixSeconds| - 1])
  {
    var xs := SampleTimes(unixSeconds[0], unixSeconds[|unixSeconds| - 1]);
    seq(|xs|, i requires 0 <= i < |xs| => Interp(xs[i], unixSeconds, data))
  }

  /** Sampling keeps every value between the smallest and largest data point. */
  lemma InterpolateWithin(data: seq<real>, unixSeconds: seq<int>, lo: real, hi: real)
    requires |data| == |unixSeconds| > 0
    requires forall i :: 0 <= i < |data| ==> lo <= data[i] <= hi
    ensures forall i :: 0 <= i < |Interpolate(data, unixSeconds)| ==> lo <= Interpolate(data, unixSeconds)[i] <= hi
  {
    var xs := SampleTimes(unixSeconds[0], unixSeconds[|unixSeconds| - 1]);
    forall i | 0 <= i < |xs| ensures lo <= Interpolate(data, unixSeconds)[i] <= hi {
      InterpWithin(xs[i], unixSeconds, data, lo, hi);
    }
  }
}

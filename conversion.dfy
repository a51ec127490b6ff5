/**
 * `estimate_carbon_emmissions` (research/carbon_emmissions/conversion.py):
 * the grams of CO2-equivalent emitted by a power draw (in W) under a grid
 * carbon intensity (in gCO2-eq./kWh), both sampled every minute.
 */
module Conversion {
  import opened Wrappers
  import ResearchTime

  /** The AssertionErrors of the length checks, with their messages, and the IndexError of an empty input. */
  datatype ConversionError = AssertionError(message: string) | IndexError

  const ENERGY_MISMATCH: string := "Different amounts of energy and carbon data points"
  const TIME_MISMATCH: string := "Timestamps don't match data points"

  /** Lines 33-35: the grams emitted in one minute at `power` W and `gci` g/kWh. */
  function Emission(power: real, gci: real): real
  {
    power / 1000.0 * (1.0 / 60.0) * gci
  }

  /** The sum of the per-minute emissions, accumulated front to back. */
  function Total(power: seq<real>, gci: seq<real>): real
    requires |power| == |gci|
  {
    if power == [] then 0.0
    else Total(power[..|power| - 1], gci[..|gci| - 1]) + Emission(power[|power| - 1], gci[|gci| - 1])
  }

  /**
   * `estimate_carbon_emmissions`: the length checks, the minute sampling of
   * both series, and the accumulation over the samples.
   */
  method EstimateCarbonEmissions(powerW: seq<real>, gco2eqPerKwh: seq<real>, unixSeconds: seq<int>)
    returns (r: Result<real, ConversionError>)
    ensures |powerW| != |gco2eqPerKwh| ==> r == Err(AssertionError(ENERGY_MISMATCH))
    ensures |powerW| == |gco2eqPerKwh| && |powerW| != |unixSeconds| ==> r == Err(AssertionError(TIME_MISMATCH))
    ensures |powerW| == |gco2eqPerKwh| == |unixSeconds| == 0 ==> r == Err(IndexError)
    ensures |powerW| == |gco2eqPerKwh| == |unixSeconds| > 0 ==>
              r == Ok(Total(ResearchTime.Interpolate(powerW, unixSeconds), ResearchTime.Interpolate(gco2eqPerKwh, unixSeconds)))
  {
    if |powerW| != |gco2eqPerKwh| {
      return Err(AssertionError(ENERGY_MISMATCH));
    }
    if |powerW| != |unixSeconds| {
      return Err(AssertionError(TIME_MISMATCH));
    }
    if unixSeconds == [] {
      return Err(IndexError);
    }
    var powerInterp := ResearchTime.Interpolate(powerW, unixSeconds);
    var gciInterp := ResearchTime.Interpolate(gco2eqPerKwh, unixSeconds);
    var gco2eq := SumEmissions(powerInterp, gciInterp);
    r := Ok(gco2eq);
  }

  /** Lines 31-36: the accumulation over the minute samples. */
  method SumEmissions(powerInterp: seq<real>, gciInterp: seq<real>) returns (gco2eq: real)
    requires |powerInterp| == |gciInterp|
    ensures gco2eq == Total(powerInterp, gciInterp)
  {
    gco2eq := 0.0;
    for index := 0 to |powerInterp|
      invariant gco2eq == Total(powerInterp[..index], gciInterp[..index])
    {
      var powerKw := powerInterp[index] / 1000.0;
      var kwh := powerKw * (1.0 / 60.0);
      var emissions := kwh * gciInterp[index];
      assert powerInterp[..index + 1][..index] == powerInterp[..index];
      assert gciInterp[..index + 1][..index] == gciInterp[..index];
      gco2eq := gco2eq + emissions;
    }
    assert powerInterp[..|powerInterp|] == powerInterp && gciInterp[..|gciInterp|] == gciInterp;
  }

  /** A non-negative draw under a non-negative intensity emits a non-negative amount. */
  lemma {:induction false} TotalNonnegative(power: seq<real>, gci: seq<real>)
    requires |power| == |gci|
    requires forall i :: 0 <= i < |power| ==> power[i] >= 0.0 && gci[i] >= 0.0
    ensures Total(power, gci) >= 0.0
    decreases |power|
  {
    if power != [] {
      var n := |power| - 1;
      TotalNonnegative(power[..n], gci[..n]);
      var kwh := power[n] / 1000.0 * (1.0 / 60.0);
      assert kwh >= 0.0;
      assert kwh * gci[n] >= 0.0;
    }
  }

  /** Constant samples emit the per-minute amount once per sample. */
  lemma {:induction false} TotalConstant(power: seq<real>, gci: seq<real>, p: real, g: real)
    requires |power| == |gci|
    requires forall i :: 0 <= i < |power| ==> power[i] == p && gci[i] == g
    ensures Total(power, gci) == |power| as real * Emission(p, g)
    decreases |power|
  {
    if power != [] {
      var n := |power| - 1;
      TotalConstant(power[..n], gci[..n], p, g);
    }
  }

  /** A value no element of `s` exceeds. */
  function Ceiling(s: seq<real>): (m: real)
    ensures forall i :: 0 <= i < |s| ==> s[i] <= m
  {
    if s == [] then 0.0
    else
      var rest := Ceiling(s[1..]);
      assert forall i :: 1 <= i < |s| ==> s[i] == s[1..][i - 1];
      if s[0] >= rest then s[0] else rest
  }

  /** With non-negative data points the estimate is non-negative (both series are sampled within their ranges). */
  lemma EstimateNonnegative(powerW: seq<real>, gco2eqPerKwh: seq<real>, unixSeconds: seq<int>)
    requires |powerW| == |gco2eqPerKwh| == |unixSeconds| > 0
    requires forall i :: 0 <= i < |powerW| ==> powerW[i] >= 0.0 && gco2eqPerKwh[i] >= 0.0
    ensures Total(ResearchTime.Interpolate(powerW, unixSeconds), ResearchTime.Interpolate(gco2eqPerKwh, unixSeconds)) >= 0.0
  {
    ResearchTime.InterpolateWithin(powerW, unixSeconds, 0.0, Ceiling(powerW));
    ResearchTime.InterpolateWithin(gco2eqPerKwh, unixSeconds, 0.0, Ceiling(gco2eqPerKwh));
    TotalNonnegative(ResearchTime.Interpolate(powerW, unixSeconds), ResearchTime.Interpolate(gco2eqPerKwh, unixSeconds));
  }

  /** 1000 W for one hour at 300 gCO2-eq./kWh: 60 minute samples of 5 g, 300 g in all. */
  lemma ConstantHour(t: int)
    ensures Total(ResearchTime.Interpolate([1000.0, 1000.0], [t, t + 3600]), ResearchTime.Interpolate([300.0, 300.0], [t, t + 3600])) == 300.0
  {
    var ts := [t, t + 3600];
    ResearchTime.InterpolateWithin([1000.0, 1000.0], ts, 1000.0, 1000.0);
    ResearchTime.InterpolateWithin([300.0, 300.0], ts, 300.0, 300.0);
    var power := ResearchTime.Interpolate([1000.0, 1000.0], ts);
    var gci := ResearchTime.Interpolate([300.0, 300.0], ts);
    assert |power| == 60;
    TotalConstant(power, gci, 1000.0, 300.0);
  }
}

/**
 * `get_carbon_intensity` (research/carbon_emmissions/energycharts.py): the
 * grid carbon intensity of each interval of an Energy-Charts power response,
 * the energy-weighted average of the CO2-equivalent coefficients of the
 * production types the country's coefficient table knows.
 *
 * The coefficient table (`CO2E`) is a parameter, one map of production type
 * to gCO2-eq./kWh per country.
 */
module EnergyCharts {
  import opened Wrappers
  import ResearchTime

  /** One data point of a production type: the text "null", Python's None, or a power in MW. */
  datatype Entry = NullText | NoneValue | Power(mw: real)

  datatype ProductionType = ProductionType(name: string, data: seq<Entry>)

  /** The fields of the Energy-Charts response the computation reads. */
  datatype Response = Response(unixSeconds: seq<int>, productionTypes: seq<ProductionType>)

  /** The returned dict: the timestamps of the response and one intensity per interval. */
  datatype CarbonIntensity = CarbonIntensity(unixSeconds: seq<int>, gco2eqPerKwh: seq<real>)

  /** Python's IndexError, from the timedeltas of a single timestamp or a data point without a timedelta. */
  datatype IntensityError = IndexError

  /** The `energy_produced` and `emmissions_produced` lists. */
  datatype Totals = Totals(energy: seq<real>, emissions: seq<real>)
  {
    predicate Valid()
    {
      |energy| == |emissions|
    }
  }

  function Max(a: nat, b: nat): nat
  {
    if a >= b then a else b
  }

  /** The entry at `i`, or the 0 the list is padded with. */
  function At(xs: seq<real>, i: int): real
  {
    if 0 <= i < |xs| then xs[i] else 0.0
  }

  /** A data point whose timedelta is missing: reading it raises. */
  predicate Unreadable(data: seq<Entry>, dt: seq<real>, i: int)
  {
    0 <= i < |data| && data[i].Power? && i >= |dt|
  }

  /** Lines 42-43: the kWh a data point contributes (nothing for "null" and None). */
  function Energy(data: seq<Entry>, dt: seq<real>, i: int): real
  {
    if 0 <= i < |data| && data[i].Power? && i < |dt| then data[i].mw * dt[i] * 1000.0 else 0.0
  }

  /** Line 46: the grams of CO2-eq. a data point contributes at coefficient `coeff`. */
  function Emitted(data: seq<Entry>, dt: seq<real>, coeff: real, i: int): real
  {
    Energy(data, dt, i) * coeff
  }

  /**
   * Lines 38-47: the totals after the data of one known production type
   * with coefficient `coeff`: padded with zeros to the length of its data,
   * each interval increased by its energy and its energy times `coeff`.
   */
  function AddSource(t: Totals, data: seq<Entry>, coeff: real, dt: seq<real>): (r: Result<Totals, IntensityError>)
    requires t.Valid()
    ensures r.Ok? ==> r.value.Valid() && |r.value.energy| == Max(|t.energy|, |data|)
  {
    if exists i :: 0 <= i < |data| && Unreadable(data, dt, i) then Err(IndexError)
    else
      var n := Max(|t.energy|, |data|);
      Ok(Totals(seq(n, i => At(t.energy, i) + Energy(data, dt, i)),
                seq(n, i => At(t.emissions, i) + Emitted(data, dt, coeff, i))))
  }

  /** Lines 34-47: the totals after the production types in response order, skipping unknown names. */
  function Accumulate(types: seq<ProductionType>, coeffs: map<string, real>, dt: seq<real>): (r: Result<Totals, IntensityError>)
    ensures r.Ok? ==> r.value.Valid()
  {
    if types == [] then Ok(Totals([], []))
    else
      var before := Accumulate(types[..|types| - 1], coeffs, dt);
      var pt := types[|types| - 1];
      if before.Err? || pt.name !in coeffs then before
      else AddSource(before.value, pt.data, coeffs[pt.name], dt)
  }

  /** Lines 50-54: emissions over energy per interval, 0 where no energy was produced. */
  function Intensities(t: Totals): (ci: seq<real>)
    requires t.Valid()
    ensures |ci| == |t.energy|
  {
    seq(|t.energy|, i requires 0 <= i < |t.energy| => if t.energy[i] != 0.0 then t.emissions[i] / t.energy[i] else 0.0)
  }

  /** A country without coefficients, or with an empty table: `CO2E.get(country)` is falsy. */
  predicate NoCoefficients(country: string, table: map<string, map<string, real>>)
  {
    country !in table || table[country] == map[]
  }

  /** Lines 14-59: what `get_carbon_intensity` returns or raises. */
  function CarbonIntensityOf(country: string, table: map<string, map<string, real>>, response: Response)
    : Result<Option<CarbonIntensity>, IntensityError>
  {
    if NoCoefficients(country, table) then Ok(None)
    else
      var dt := ResearchTime.Timedeltas(response.unixSeconds, ResearchTime.Minutes, true);
      if dt.Err? then Err(IndexError)
      else
        var totals := Accumulate(response.productionTypes, table[country], dt.value);
        if totals.Err? then Err(IndexError)
        else Ok(Some(CarbonIntensity(response.unixSeconds, Intensities(totals.value))))
  }

  /** `get_carbon_intensity`. */
  method GetCarbonIntensity(country: string, table: map<string, map<string, real>>, response: Response)
    returns (r: Result<Option<CarbonIntensity>, IntensityError>)
    ensures r == CarbonIntensityOf(country, table, response)
  {
    if NoCoefficients(country, table) {
      return Ok(None);
    }
    var coeffs := table[country];
    var timedeltas := ResearchTime.GetTimedeltas(response.unixSeconds, ResearchTime.Minutes, true);
    if timedeltas.Err? {
      return Err(IndexError);
    }
    var dt := timedeltas.value;
    var types := response.productionTypes;
    var energy: seq<real> := [];
    var emissions: seq<real> := [];
    for k := 0 to |types|
      invariant Accumulate(types[..k], coeffs, dt) == Ok(Totals(energy, emissions))
    {
      assert types[..k + 1][..k] == types[..k];
      if types[k].name in coeffs {
        var next := AddProductionType(energy, emissions, types[k].data, coeffs[types[k].name], dt);
        if next.Err? {
          AccumulateErrorPersists(types, coeffs, dt, k + 1);
          return Err(IndexError);
        }
        energy, emissions := next.value.energy, next.value.emissions;
      }
    }
    assert types[..|types|] == types;
    var intensities := Normalize(energy, emissions);
    r := Ok(Some(CarbonIntensity(response.unixSeconds, intensities)));
  }

  /** Lines 38-47, the inner loop over the data points of one known production type. */
  method AddProductionType(energy0: seq<real>, emissions0: seq<real>, data: seq<Entry>, coeff: real, dt: seq<real>)
    returns (r: Result<Totals, IntensityError>)
    requires |energy0| == |emissions0|
    ensures r == AddSource(Totals(energy0, emissions0), data, coeff, dt)
  {
    var energy, emissions := energy0, emissions0;
    for index := 0 to |data|
      invariant |energy| == |emissions| == Max(|energy0|, index)
      invariant forall j :: 0 <= j < index ==> energy[j] == At(energy0, j) + Energy(data, dt, j)
      invariant forall j :: index <= j < |energy| ==> energy[j] == At(energy0, j)
      invariant forall j :: 0 <= j < index ==> emissions[j] == At(emissions0, j) + Emitted(data, dt, coeff, j)
      invariant forall j :: index <= j < |emissions| ==> emissions[j] == At(emissions0, j)
      invariant forall j :: 0 <= j < index ==> !Unreadable(data, dt, j)
    {
      var next := AddDataPoint(energy, emissions, data, coeff, dt, index);
      if next.Err? {
        return Err(IndexError);
      }
      energy, emissions := next.value.energy, next.value.emissions;
    }
    assert !exists i :: 0 <= i < |data| && Unreadable(data, dt, i);
    var expected := AddSource(Totals(energy0, emissions0), data, coeff, dt).value;
    forall j | 0 <= j < |energy| ensures energy[j] == expected.energy[j] && emissions[j] == expected.emissions[j] {
    }
    assert energy == expected.energy && emissions == expected.emissions;
    r := Ok(Totals(energy, emissions));
  }

  /** Lines 39-47, one pass of the inner loop: pad the lists to `index + 1` and add the data point at `index`. */
  method AddDataPoint(energy: seq<real>, emissions: seq<real>, data: seq<Entry>, coeff: real, dt: seq<real>, index: nat)
    returns (r: Result<Totals, IntensityError>)
    requires |energy| == |emissions| >= index && index < |data|
    ensures r.Err? <==> Unreadable(data, dt, index)
    ensures r.Ok? ==> |r.value.energy| == |r.value.emissions| == Max(|energy|, index + 1)
    ensures r.Ok? ==> r.value.energy[index] == At(energy, index) + Energy(data, dt, index)
    ensures r.Ok? ==> r.value.emissions[index] == At(emissions, index) + Emitted(data, dt, coeff, index)
    ensures r.Ok? ==> forall j :: 0 <= j < |energy| && j != index ==> r.value.energy[j] == energy[j]
    ensures r.Ok? ==> forall j :: 0 <= j < |emissions| && j != index ==> r.value.emissions[j] == emissions[j]
  {
    var energy', emissions' := energy, emissions;
    if |emissions'| < index + 1 {
      emissions' := emissions' + [0.0];
      energy' := energy' + [0.0];
    }
    if data[index].Power? {
      if index >= |dt| {
        return Err(IndexError);
      }
      var kwFromSource := data[index].mw * dt[index] * 1000.0;
      energy' := energy'[index := energy'[index] + kwFromSource];
      emissions' := emissions'[index := emissions'[index] + kwFromSource * coeff];
    }
    r := Ok(Totals(energy', emissions'));
  }

  /** Lines 50-54, the loop dividing emissions by energy. */
  method Normalize(energy: seq<real>, emissions: seq<real>) returns (intensities: seq<real>)
    requires |energy| == |emissions|
    ensures intensities == Intensities(Totals(energy, emissions))
  {
    intensities := [];
    for index := 0 to |emissions|
      invariant |intensities| == index
      invariant forall j :: 0 <= j < index ==>
                  intensities[j] == if energy[j] != 0.0 then emissions[j] / energy[j] else 0.0
    {
      if energy[index] != 0.0 {
        intensities := intensities + [emissions[index] / energy[index]];
      } else {
        intensities := intensities + [0.0];
      }
    }
  }

  /** Once a production type fails, the whole accumulation fails. */
  lemma {:induction false} AccumulateErrorPersists(types: seq<ProductionType>, coeffs: map<string, real>, dt: seq<real>, k: nat)
    requires k <= |types| && Accumulate(types[..k], coeffs, dt).Err?
    ensures Accumulate(types, coeffs, dt).Err?
    decreases |types| - k
  {
    if k < |types| {
      assert types[..k + 1][..k] == types[..k];
      AccumulateErrorPersists(types, coeffs, dt, k + 1);
    } else {
      assert types[..k] == types;
    }
  }

  /** The longest data list among the production types the coefficients know. */
  function LongestKnown(types: seq<ProductionType>, coeffs: map<string, real>): nat
  {
    if types == [] then 0
    else
      var pt := types[|types| - 1];
      var before := LongestKnown(types[..|types| - 1], coeffs);
      if pt.name in coeffs then Max(before, |pt.data|) else before
  }

  /** There is one intensity per data point of the longest known production type. */
  lemma {:induction false} AccumulateLength(types: seq<ProductionType>, coeffs: map<string, real>, dt: seq<real>)
    requires Accumulate(types, coeffs, dt).Ok?
    ensures |Accumulate(types, coeffs, dt).value.energy| == LongestKnown(types, coeffs)
    decreases |types|
  {
    if types != [] {
      AccumulateLength(types[..|types| - 1], coeffs, dt);
    }
  }

  /** The production types the coefficients know, in response order. */
  function Known(types: seq<ProductionType>, coeffs: map<string, real>): (known: seq<ProductionType>)
    ensures forall i :: 0 <= i < |known| ==> known[i].name in coeffs
  {
    if types == [] then []
    else
      var pt := types[|types| - 1];
      Known(types[..|types| - 1], coeffs) + if pt.name in coeffs then [pt] else []
  }

  /** Production types unknown to the coefficients do not change the result. */
  lemma {:induction false} UnknownTypesIgnored(types: seq<ProductionType>, coeffs: map<string, real>, dt: seq<real>)
    ensures Accumulate(types, coeffs, dt) == Accumulate(Known(types, coeffs), coeffs, dt)
    decreases |types|
  {
    if types != [] {
      var pt := types[|types| - 1];
      var rest := types[..|types| - 1];
      UnknownTypesIgnored(rest, coeffs, dt);
      if pt.name in coeffs {
        var known := Known(types, coeffs);
        assert known[..|known| - 1] == Known(rest, coeffs);
        assert known[|known| - 1] == pt;
        var before := Accumulate(rest, coeffs, dt);
        assert Accumulate(known, coeffs, dt) == if before.Err? then before else AddSource(before.value, pt.data, coeffs[pt.name], dt);
      } else {
        assert Known(types, coeffs) == Known(rest, coeffs);
      }
    }
  }

  /** A "null" or None data point counts as 0 MW when its timedelta exists. */
  lemma NullIsZeroPower(t: Totals, data: seq<Entry>, coeff: real, dt: seq<real>, i: nat)
    requires t.Valid() && i < |data| && i < |dt| && !data[i].Power?
    ensures AddSource(t, data, coeff, dt) == AddSource(t, data[i := Power(0.0)], coeff, dt)
  {
    var zeroed := data[i := Power(0.0)];
    forall j | 0 <= j < |data| ensures Unreadable(data, dt, j) == Unreadable(zeroed, dt, j) {
    }
    forall j ensures Energy(data, dt, j) == Energy(zeroed, dt, j) {
      if j == i {
        assert zeroed[i] == Power(0.0);
        var d := dt[i];
        assert 0.0 * d * 1000.0 == 0.0;
      } else if 0 <= j < |data| {
        assert zeroed[j] == data[j];
      }
    }
    assert !(exists j :: 0 <= j < |data| && Unreadable(data, dt, j)) <==>
           !(exists j :: 0 <= j < |zeroed| && Unreadable(zeroed, dt, j));
    if AddSource(t, data, coeff, dt).Ok? {
      var r1, r2 := AddSource(t, data, coeff, dt).value, AddSource(t, zeroed, coeff, dt).value;
      forall j | 0 <= j < |r1.energy| ensures r1.energy[j] == r2.energy[j] && r1.emissions[j] == r2.emissions[j] {
      }
      assert r1 == r2;
    }
  }

  /** Every interval's emissions lie between `lo` and `hi` times its energy, which is not negative. */
  ghost predicate Bounded(t: Totals, lo: real, hi: real)
  {
    t.Valid() && forall i :: 0 <= i < |t.energy| ==> Weighted(t.energy[i], t.emissions[i], lo, hi)
  }

  /** Energy `e` is not negative and emissions `m` lie between `lo` and `hi` times it. */
  ghost predicate Weighted(e: real, m: real, lo: real, hi: real)
  {
    0.0 <= e && lo * e <= m <= hi * e
  }

  /** No negative power and no negative timedelta. */
  ghost predicate NonNegative(types: seq<ProductionType>, dt: seq<real>)
  {
    (forall k, i :: 0 <= k < |types| && 0 <= i < |types[k].data| && types[k].data[i].Power? ==> types[k].data[i].mw >= 0.0)
    && forall i :: 0 <= i < |dt| ==> dt[i] >= 0.0
  }

  lemma ScaledBetween(kw: real, c: real, lo: real, hi: real)
    requires kw >= 0.0 && lo <= c <= hi
    ensures lo * kw <= kw * c <= hi * kw
  {
  }

  /** Adding `kw` kWh at coefficient `c` keeps an interval's emissions between `lo` and `hi` times its energy. */
  lemma StepBounded(e: real, m: real, kw: real, c: real, lo: real, hi: real)
    requires Weighted(e, m, lo, hi) && kw >= 0.0 && lo <= c <= hi
    ensures Weighted(e + kw, m + kw * c, lo, hi)
  {
    assert lo * (e + kw) == lo * e + lo * kw;
    assert hi * (e + kw) == hi * e + hi * kw;
    ScaledBetween(kw, c, lo, hi);
  }

  lemma AddSourceBounded(t: Totals, data: seq<Entry>, coeff: real, dt: seq<real>, lo: real, hi: real)
    requires Bounded(t, lo, hi) && lo <= coeff <= hi && AddSource(t, data, coeff, dt).Ok?
    requires forall i :: 0 <= i < |data| && data[i].Power? ==> data[i].mw >= 0.0
    requires forall i :: 0 <= i < |dt| ==> dt[i] >= 0.0
    ensures Bounded(AddSource(t, data, coeff, dt).value, lo, hi)
  {
    var r := AddSource(t, data, coeff, dt).value;
    forall i | 0 <= i < |r.energy| ensures Weighted(r.energy[i], r.emissions[i], lo, hi) {
      AddSourceBoundedAt(t, data, coeff, dt, lo, hi, i);
    }
  }

  lemma AddSourceBoundedAt(t: Totals, data: seq<Entry>, coeff: real, dt: seq<real>, lo: real, hi: real, i: nat)
    requires Bounded(t, lo, hi) && lo <= coeff <= hi && AddSource(t, data, coeff, dt).Ok?
    requires i < |AddSource(t, data, coeff, dt).value.energy|
    requires forall i :: 0 <= i < |data| && data[i].Power? ==> data[i].mw >= 0.0
    requires forall i :: 0 <= i < |dt| ==> dt[i] >= 0.0
    ensures var r := AddSource(t, data, coeff, dt).value;
            Weighted(r.energy[i], r.emissions[i], lo, hi)
  {
    var r := AddSource(t, data, coeff, dt).value;
    var e, m, kw := At(t.energy, i), At(t.emissions, i), Energy(data, dt, i);
    assert r.energy[i] == e + kw && r.emissions[i] == m + kw * coeff;
    assert Weighted(e, m, lo, hi);
    EnergyNonNegative(data, dt, i);
    StepBounded(e, m, kw, coeff, lo, hi);
  }

  lemma EnergyNonNegative(data: seq<Entry>, dt: seq<real>, i: int)
    requires forall i :: 0 <= i < |data| && data[i].Power? ==> data[i].mw >= 0.0
    requires forall i :: 0 <= i < |dt| ==> dt[i] >= 0.0
    ensures Energy(data, dt, i) >= 0.0
  {
    if 0 <= i < |data| && data[i].Power? && i < |dt| {
      var p, d := data[i].mw, dt[i];
      assert p * d >= 0.0;
    }
  }

  lemma {:induction false} AccumulateBounded(types: seq<ProductionType>, coeffs: map<string, real>, dt: seq<real>, lo: real, hi: real)
    requires Accumulate(types, coeffs, dt).Ok? && NonNegative(types, dt)
    requires forall name :: name in coeffs ==> lo <= coeffs[name] <= hi
    ensures Bounded(Accumulate(types, coeffs, dt).value, lo, hi)
    decreases |types|
  {
    if types != [] {
      var rest := types[..|types| - 1];
      var pt := types[|types| - 1];
      assert NonNegative(rest, dt) by {
        forall k, i | 0 <= k < |rest| && 0 <= i < |rest[k].data| && rest[k].data[i].Power? ensures rest[k].data[i].mw >= 0.0 {
          assert rest[k] == types[k];
        }
      }
      AccumulateBounded(rest, coeffs, dt, lo, hi);
      if pt.name in coeffs {
        assert pt == types[|types| - 1];
        AddSourceBounded(Accumulate(rest, coeffs, dt).value, pt.data, coeffs[pt.name], dt, lo, hi);
      }
    }
  }

  /**
   * With no negative power and no negative timedelta, every intensity is an
   * energy-weighted average of the country's coefficients: it lies between
   * the smallest and the largest, or is 0 where no energy was produced.
   */
  lemma IntensityWithinCoefficients(country: string, table: map<string, map<string, real>>, response: Response,
                                    lo: real, hi: real, i: nat)
    requires CarbonIntensityOf(country, table, response).Ok? && CarbonIntensityOf(country, table, response).value.Some?
    requires forall name :: name in table[country] ==> lo <= table[country][name] <= hi
    requires forall k, j ::
               0 <= k < |response.productionTypes| && 0 <= j < |response.productionTypes[k].data| && response.productionTypes[k].data[j].Power?
               ==> response.productionTypes[k].data[j].mw >= 0.0
    requires i < |CarbonIntensityOf(country, table, response).value.value.gco2eqPerKwh|
    ensures var v := CarbonIntensityOf(country, table, response).value.value.gco2eqPerKwh[i];
            v == 0.0 || lo <= v <= hi
  {
    var dt := ResearchTime.Timedeltas(response.unixSeconds, ResearchTime.Minutes, true).value;
    forall j | 0 <= j < |dt| ensures dt[j] >= 0.0 {
      ResearchTime.TimedeltasAt(response.unixSeconds, ResearchTime.Minutes, true, j);
    }
    var totals := Accumulate(response.productionTypes, table[country], dt).value;
    AccumulateBounded(response.productionTypes, table[country], dt, lo, hi);
    if totals.energy[i] != 0.0 {
      ResearchTime.QuotientBounds(totals.emissions[i], totals.energy[i], lo, hi);
    }
  }

  /**
   * No table gives None; otherwise a successful result passes the
   * timestamps through and has one intensity per data point of the longest
   * known production type.
   */
  lemma CarbonIntensityShape(country: string, table: map<string, map<string, real>>, response: Response)
    ensures CarbonIntensityOf(country, table, response) == Ok(None) <==> NoCoefficients(country, table)
    ensures CarbonIntensityOf(country, table, response).Ok? && CarbonIntensityOf(country, table, response).value.Some? ==>
              var ci := CarbonIntensityOf(country, table, response).value.value;
              ci.unixSeconds == response.unixSeconds && |ci.gco2eqPerKwh| == LongestKnown(response.productionTypes, table[country])
  {
    if !NoCoefficients(country, table) {
      var dt := ResearchTime.Timedeltas(response.unixSeconds, ResearchTime.Minutes, true);
      if dt.Ok? && Accumulate(response.productionTypes, table[country], dt.value).Ok? {
        AccumulateLength(response.productionTypes, table[country], dt.value);
      }
    }
  }
}

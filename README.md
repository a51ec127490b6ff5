# squirrel-hpc core, modelled in Dafny

squirrel-hpc is a carbon-aware scheduler for HPC jobs. It keeps a timetable
of hour slots, each annotated with a forecast grid carbon intensity (gci, in
gCO2-eq./kWh). It places a job of `runtime` hours into the window of
consecutive free slots whose gci sum is smallest, on one node of the
requested partitions. This project models that core and proves properties
about it:

- **`Timetable`** (`timetable.dfy`): the hour-slot store. It has:
  - `ConstrainedTimeslot`, a single-tenant slot with `allocate_job` and `remove_job`;
  - `Timetable`, a contiguous list of slots with `append_timeslot`, `truncate_history` and `get_latest`;
  - the CSV file, read and written as folds over rows.
- **`Scheduler`** (`scheduler.dfy`): `schedule_job` and the greedy allocator `_allocate_window_greedy`. The allocator makes reservations slot by slot and rolls an attempt back on the first refusal.
- **`GciForecast`** (`gci_forecast.dfy`) and **`ForecastExperiment`** (`forecast_experiment.dfy`): the lookback-median gci forecaster and its earlier variant. Both use the median in **`Statistics`** (`median.dfy`).
- **`SchedTimeslot`** (`sched_timeslot.dfy`) and **`SchedulingTimeslot`** (`scheduling_timeslot.dfy`): the two older slot classes.
- The carbon arithmetic of the research scripts:
  - **`ResearchTime`** (`research_time.dfy`): `get_timedeltas` and the per-minute sampler;
  - **`ResearchTimeUtils`** (`research_time_utils.dfy`): `get_timedeltas_in_minutes`;
  - **`EnergyCharts`** (`energycharts.dfy`): `get_carbon_intensity`;
  - **`Conversion`** (`conversion.dfy`): `estimate_carbon_emmissions`.
- **`Wrappers`** (`wrappers.dfy`) holds `Option`, `Result` and `Outcome`. Python exceptions become `Err`/`Fail` values of these types.

The model follows the form of the source:

- Slot and timetable objects are classes. Their methods update fields and state the new state through functions on the slot data (`SlotState`).
- Every loop of the source is a `while`/`for` loop in a method.
  - In the forecasters, the timedelta and emission helpers and the CSV reader, each such method is proved equal to a recursive specification function. The properties are lemmas about that function.
  - In the scheduler, `ComputeWindows`, `CollectNodes`, `ReserveWindow`, `TryNodes` and `SortedKeys` are specified relationally instead: their contracts characterise the result (which windows the dictionary holds, which hostnames are collected, when a window is booked or restored, the ascending order of the keys).

Two behaviours of the code shape the model:

- **Slot tenancy.** A slot is full as soon as it holds any reservation (src/sched/timetable.py:68-70), so slots are single-tenant.
- **Missing history.** `builtin_forecast_gci` skips a missing history point (src/forecasting/gci.py:55-60). With no candidates at all it takes the median of nothing, which is NaN and is modelled as `None`. Only the earlier `_forecast` raises.

## Model

| member | source | states |
|---|---|---|
| Timetable.Allocate | src/sched/timetable.py:44-66 | a reservation is admitted iff the request lies inside the slot and the slot is not full; then exactly one reservation under the new id is recorded, the job maps to it and the id is returned; a refusal returns None and leaves the slot as it was |
| Timetable.Remove | src/sched/timetable.py:72-75 | succeeds iff the job and its reservation are present, else KeyError; the job entry is popped first, then its reservation; nothing else changes |
| Timetable.AllocateSingleTenant | src/sched/timetable.py:48-52 | through allocation a slot never holds more than one reservation |
| Timetable.AllocateConsistent | src/sched/timetable.py:44-66 | allocation keeps the two dictionaries in one-to-one correspondence |
| Timetable.RemoveConsistent | src/sched/timetable.py:72-75 | removal keeps that correspondence |
| Timetable.RemoveAfterAllocate | src/sched/timetable.py:44-75 | removing a job right after its successful allocation succeeds and restores the slot (apart from an earlier entry of the same job id) |
| Timetable.RemoveMissing | src/sched/timetable.py:72-75 | removing an unknown job raises KeyError and changes nothing |
| Timetable.ConstrainedTimeslot.SetGci | src/sched/timetable.py:40-42 | `get_gci` then returns the value set; nothing else changes |
| Timetable.ConstrainedTimeslot.AllocateJob | src/sched/timetable.py:44-66 | the new dictionaries and the result are those of `Allocate` on the old slot |
| Timetable.ConstrainedTimeslot.RemoveJob | src/sched/timetable.py:72-75 | the new dictionaries and the outcome are those of `Remove` on the old slot |
| Timetable.EqualsIsEquivalence | src/sched/timetable.py:77-81 | slot equality is reflexive, symmetric and transitive, and holds iff start and end agree (gci and reservations ignored) |
| Timetable.DurationsCoverSpan | src/sched/timetable.py:32-34 | the durations of a contiguous timetable add up to the span from its first start to its last end |
| Timetable.ExpiredCount | src/sched/timetable.py:114-119 | the count is the length of the longest prefix of slots ending at or before the cutoff |
| Timetable.TruncateIdempotent | src/sched/timetable.py:112-120 | a second truncation with the same cutoff removes nothing |
| Timetable.SuffixContiguous | src/sched/timetable.py:120 | what truncation keeps of a contiguous timetable is contiguous |
| Timetable.Timetable.constructor | src/sched/timetable.py:87-90 | the timetable holds the given slots |
| Timetable.Timetable.GetLatest | src/sched/timetable.py:108-110 | the last slot when the table is not empty, IndexError otherwise |
| Timetable.Timetable.AppendTimeslot | src/sched/timetable.py:92-102 | returns false and changes nothing iff the table is non-empty and its last end differs from the new start; otherwise appends; contiguity is preserved |
| Timetable.Timetable.TruncateHistory | src/sched/timetable.py:112-120 | the slots become the old list without its expired prefix; contiguity is preserved |
| Timetable.Timetable.ReadCsv | src/sched/timetable.py:122-137 | the rows and outcome are the fold of the file's records after the header through `append_timeslot`; existing slots stay, new ones are fresh |
| Timetable.Timetable.AppendRecord | src/sched/timetable.py:127-137 | one record is appended as a new slot when it continues the table and dropped otherwise |
| Timetable.Timetable.WriteCsv | src/sched/timetable.py:139-154 | the header followed by one record per slot, in order |
| Timetable.FoldRecordsContiguous | src/sched/timetable.py:127-137 | reading keeps the rows already present and yields a contiguous table |
| Timetable.FoldContiguousRecords | src/sched/timetable.py:127-137 | folding the records of contiguous rows appends exactly those rows |
| Timetable.ReadAfterWrite | src/sched/timetable.py:122-154 | reading what `write_csv` wrote into an empty table gives back the same rows |
| Timetable.RowsContiguous | src/sched/timetable.py:92-102 | the rows of a contiguous timetable are contiguous |
| Scheduler.Gcis | src/sched/scheduler.py:29-31 | the gci of every slot, in timetable order |
| Scheduler.ComputeWindows | src/sched/scheduler.py:25-32 | every window of `runtime` slots has its gci sum as a key, mapped to its start or a later start of equal weight; every entry is such a window |
| Scheduler.WindowsAreSurvivors | src/sched/scheduler.py:31-32 | the dictionary holds exactly the windows that no later window of equal weight overwrites, each under its own weight |
| Scheduler.CollectNodes | src/sched/scheduler.py:48-54 | a hostname is collected iff it belongs to a node of a requested partition |
| Scheduler.Rollback | src/sched/scheduler.py:61-65 | each slot of the attempt has the job's reservation removed; the other slots are untouched |
| Scheduler.ReserveWindow | src/sched/scheduler.py:59-81 | the whole window is reserved for the job iff every slot of it is free; otherwise every reservation of the attempt is rolled back |
| Scheduler.RolledBackAttempt | src/sched/scheduler.py:76-81 | reserving a prefix of free slots and removing the job again leaves no reservation behind |
| Scheduler.TryNodes | src/sched/scheduler.py:59-84 | a node is found iff there is a node and the window is free; then the window is booked on that node, otherwise nothing is left reserved |
| Scheduler.SortedKeys | src/sched/scheduler.py:56 | the weights of the dictionary in strictly ascending order |
| Scheduler.AllocateWindowGreedy | src/sched/scheduler.py:43-85 | a chosen window is free, lighter windows are not, and it is booked on a candidate node; with no choice, either there are no nodes or no window is free, and no reservation remains |
| Scheduler.LightestFreeUnique | src/sched/scheduler.py:56 | the lightest free surviving window is unique |
| Scheduler.FreeSurvivorHasLightest | src/sched/scheduler.py:56-84 | if any surviving window is free, a lightest free one exists |
| Scheduler.ScheduleJob | src/sched/scheduler.py:12-40 | "Can not allocate job." when the runtime exceeds the horizon, no node qualifies or no surviving window is free; otherwise the start of the lightest free surviving window, booked for the job on a candidate node; a failure leaves no reservation |
| Scheduler.FreeConsistentHasNoJobs | src/sched/scheduler.py:61-65 | a consistent free slot has no job entries |
| Scheduler.RollbackLeavesNoTrace | src/sched/scheduler.py:76-81 | on consistent slots a rolled-back attempt leaves the timetable exactly as it was |
| Scheduler.BookedConsistent | src/sched/scheduler.py:67-75 | a booked window holds one reservation of the job per slot, each consistent; the slots outside the window are unchanged |
| Scheduler.EqualWeightShadowsFreeWindow | src/sched/scheduler.py:31-32 | a free window can be overwritten by a full later window of equal weight, so that no surviving window is free |
| Statistics.Sort | src/forecasting/gci.py:66 | the result is sorted and a permutation of the input |
| Statistics.MedianOfSorted | src/forecasting/gci.py:66 | the median of a sorted sequence lies between its ends |
| Statistics.MedianOf | src/forecasting/gci.py:66 | a median exists iff there are candidates (NaN otherwise) |
| Statistics.Median | src/forecasting/gci.py:66 | defined iff there are candidates and none is NaN |
| Statistics.SortedUnique | src/forecasting/gci.py:66 | two sorted permutations of each other are equal |
| Statistics.MedianOfPermutation | src/forecasting/gci.py:66 | the median does not depend on the order of the candidates |
| Statistics.MedianWithinRange | src/forecasting/gci.py:66 | the median lies between some candidate and some other candidate |
| Statistics.MedianOfOne | src/forecasting/gci.py:66 | the median of one value is that value |
| Statistics.MedianOfTwo | src/forecasting/gci.py:66 | the median of two values is their mean |
| Statistics.MedianOfTwoPoints | db/forecast_experiment.py:57 | the median of two numeric points is their mean |
| GciForecast.LatestTime | src/forecasting/gci.py:39 | the latest history time is a time of the history and no time exceeds it |
| GciForecast.FirstValueAt | src/forecasting/gci.py:57-60 | a value at a time exists iff the history has that time, and the first one is the value of its first sample |
| GciForecast.BuiltinRows | src/forecasting/gci.py:43-48 | exactly one row per forecast hour, at consecutive hours from one after the latest |
| GciForecast.BuiltinForecastGci | src/forecasting/gci.py:39-67 | an empty history is an error; otherwise the rows of the specification for `days*24` hours |
| GciForecast.ForecastHour | src/forecasting/gci.py:51-66 | one pass of the outer loop extends the forecast by the row of the next hour |
| GciForecast.CollectPoints | src/forecasting/gci.py:52-65 | the inner loop collects the candidates of the specification |
| GciForecast.MatchForecast | src/forecasting/gci.py:61-65 | the values of every earlier forecast row at the candidate time |
| GciForecast.MatchesOfRows | src/forecasting/gci.py:61-65 | a time after the latest matches exactly the one row already forecast for it, and nothing if not yet forecast |
| GciForecast.ChainedCandidate | src/forecasting/gci.py:61-65 | a candidate after the latest takes the earlier forecast value (chained forecasting) |
| GciForecast.HistoryCandidate | src/forecasting/gci.py:55-60 | a candidate at or before the latest takes the first history value at that time, and is skipped when there is none |
| GciForecast.FirstDayUsesHistoryOnly | src/forecasting/gci.py:52-56 | within the first 24 forecast hours the candidates do not depend on earlier forecasts |
| GciForecast.ValuesAtIncreasing | src/forecasting/gci.py:57 | with strictly increasing times the value at a sample's time is that sample's value |
| GciForecast.DocumentedExample | src/forecasting/gci.py:21-29 | 48 hourly points with `days=1` and `lookback=2` forecast hour 48 as the mean of hours 24 and 0 |
| ForecastExperiment.ExperimentRows | db/forecast_experiment.py:39-57 | a successful forecast has one row per hour at consecutive hours from one after the latest |
| ForecastExperiment.Forecast | db/forecast_experiment.py:38-58 | an empty history is an error; otherwise the rows or the error of the specification for `days*24` hours |
| ForecastExperiment.ExperimentHour | db/forecast_experiment.py:47-57 | one pass of the outer loop extends the forecast, or raises, as the specification says |
| ForecastExperiment.ExperimentCollect | db/forecast_experiment.py:48-56 | the inner loop collects the candidates of the specification, or raises |
| ForecastExperiment.PointsErrorPersists | db/forecast_experiment.py:49-52 | once a candidate raises, the collection raises that error |
| ForecastExperiment.RowsErrorPersists | db/forecast_experiment.py:47-57 | once an hour raises, the whole forecast raises that error |
| ForecastExperiment.MissingHistoryRaises | db/forecast_experiment.py:51-52 | a candidate raises iff it is strictly before the latest and the history lacks it; otherwise a past candidate reads the history value |
| ForecastExperiment.MatchesNone | db/forecast_experiment.py:54-56 | with no forecast row at that time nothing is matched |
| ForecastExperiment.StrictBoundaryDropsLatest | db/forecast_experiment.py:49-56 | the forecast hour latest+24 has the latest history hour as its one-day-back candidate; with the lookback at one day this variant takes that candidate to the forecast branch, matches nothing and collects no point, while `builtin_forecast_gci` reads it from history and collects one |
| ForecastExperiment.PastHours | db/forecast_experiment.py:49-50 | the candidates are the same hour 1..lookback days back |
| ForecastExperiment.PointsAgree | db/forecast_experiment.py:49-56 | where each candidate is read the same way, both variants collect the same points |
| ForecastExperiment.RowsAgree | db/forecast_experiment.py:38-58 | when no needed candidate is at the latest and all needed history exists, both variants produce the same forecast |
| SchedTimeslot.ConstrainedTimeslot.New | src/sched/timeslot.py:7-28 | ValueError with its message iff the capacity lies outside [0, 1]; otherwise a fresh slot with the given fields, gci defaulting to None |
| SchedTimeslot.ConstrainedTimeslot.SetCapacity | src/sched/timeslot.py:30-39 | an invalid capacity raises ValueError and keeps the old one; a valid one is what `get_capacity` returns next |
| SchedTimeslot.ConstrainedTimeslot.SetGci | src/sched/timeslot.py:41-47 | `get_gci` then returns the value set; the capacity is kept |
| SchedTimeslot.ConstrainedTimeslot.Equals | src/sched/timeslot.py:49-54 | false against a non-slot; TypeError iff either gci is unset |
| SchedTimeslot.ConstrainedTimeslot.Lt | src/sched/timeslot.py:56-61 | NotImplementedError against a non-slot; TypeError iff either gci is unset |
| SchedTimeslot.EqualsMeansSameFootprint | src/sched/timeslot.py:49-61 | with both gci set, equality and order compare duration times gci |
| SchedTimeslot.EqualsIsEquivalence | src/sched/timeslot.py:49-54 | equality is reflexive, symmetric and transitive on slots with a gci |
| SchedTimeslot.LtIsStrictOrder | src/sched/timeslot.py:56-61 | `<` is irreflexive, asymmetric and transitive on slots with a gci |
| SchedTimeslot.Trichotomy | src/sched/timeslot.py:49-61 | of two slots with a gci exactly one of `a < b`, `b < a`, `a == b` holds |
| SchedulingTimeslot.SquirrelTimeslot.constructor | src/scheduling/timeslot.py:7-25 | stores the fields as given, keeping the dictionary itself; gci defaults to None |
| SchedulingTimeslot.SquirrelTimeslot.SetCapacity | src/scheduling/timeslot.py:27-29 | any dictionary is stored, by reference; gci is kept |
| SchedulingTimeslot.SquirrelTimeslot.GetCapacity | src/scheduling/timeslot.py:31-33 | a fresh dictionary equal to the stored one |
| SchedulingTimeslot.SquirrelTimeslot.SetGci | src/scheduling/timeslot.py:35-41 | `get_gci` then returns the value set; the capacity is kept |
| SchedulingTimeslot.Dict.Copy | src/scheduling/timeslot.py:33 | a fresh dictionary with the same entries |
| SchedulingTimeslot.CopyIsolation | src/scheduling/timeslot.py:27-33 | after `set_capacity(d)`, writing into what `get_capacity` returned leaves `d` and the slot unchanged |
| SchedulingTimeslot.SharedOnSet | src/scheduling/timeslot.py:27-33 | writing into a dictionary after `set_capacity` changes what `get_capacity` returns |
| ResearchTime.DaySeconds | research/utils/time.py:40 | `.seconds` of a difference lies in [0, 86400) and differs from it by whole days |
| ResearchTime.DeltaBounds | research/utils/time.py:40-49 | every delta lies in [0, one day) in its unit |
| ResearchTime.DeltaOfDifference | research/utils/time.py:39-49 | whole days drop out; seconds are kept as they are and minutes are seconds / 60 |
| ResearchTime.PairDeltas | research/utils/time.py:31-50 | n timestamps give n-1 deltas, none for empty input |
| ResearchTime.PairDeltasAt | research/utils/time.py:38-50 | delta i is that of timestamps i and i+1 |
| ResearchTime.TimedeltasShape | research/utils/time.py:30-51 | it raises iff the tail is extended for a single timestamp; empty input gives empty output; n-1 entries without the tail, n with it, the last repeating the one before |
| ResearchTime.TimedeltasAt | research/utils/time.py:30-51 | each entry is the unit delta of its pair, the tail repeats the last pair, and all lie in [0, one day) |
| ResearchTime.GetTimedeltas | research/utils/time.py:9-51 | the loop computes the deltas of the specification |
| ResearchTime.SampleTimes | research/utils/time.py:65 | one sample time per minute step |
| ResearchTime.SampleTimesCover | research/utils/time.py:65 | samples every 60 s from the first timestamp up to, but excluding, the last |
| ResearchTime.InterpWithin | research/utils/time.py:66 | linear interpolation stays within the bounds of the data |
| ResearchTime.Interpolate | research/utils/time.py:54-66 | one value per sample time |
| ResearchTime.InterpolateWithin | research/utils/time.py:54-66 | every resampled value lies within the bounds of the data |
| ResearchTimeUtils.GetTimedeltasInMinutes | research/time/utils.py:6-23 | the result is `get_timedeltas` in minutes with the tail extended |
| ResearchTimeUtils.InMinutesEntries | research/time/utils.py:14-22 | for n >= 2 timestamps: n entries; entry i is `.seconds` / 60 of pair i; the last repeats the one before |
| Conversion.EstimateCarbonEmissions | research/carbon_emmissions/conversion.py:6-37 | the energy or time length mismatch assertion fails, IndexError for empty input, otherwise the sum over the minute samples of power/1000 × 1/60 × gci |
| Conversion.SumEmissions | research/carbon_emmissions/conversion.py:31-36 | the accumulator loop computes that sum |
| Conversion.TotalNonnegative | research/carbon_emmissions/conversion.py:31-36 | with non-negative power and intensity the sum is non-negative |
| Conversion.TotalConstant | research/carbon_emmissions/conversion.py:31-36 | constant samples sum to their count times one sample's emission |
| Conversion.EstimateNonnegative | research/carbon_emmissions/conversion.py:6-37 | with non-negative inputs the estimate is non-negative |
| Conversion.ConstantHour | tests/test_carbon_conversion.py:11-19 | 1000 W at 300 g/kWh over one hour gives 300 g |
| EnergyCharts.AddSource | research/carbon_emmissions/energycharts.py:38-47 | adding one production type yields lists as long as the longer of the totals and its data |
| EnergyCharts.Accumulate | research/carbon_emmissions/energycharts.py:34-47 | the totals of all known production types are lists of equal length |
| EnergyCharts.Intensities | research/carbon_emmissions/energycharts.py:50-54 | one intensity per interval |
| EnergyCharts.GetCarbonIntensity | research/carbon_emmissions/energycharts.py:14-59 | the loops compute the result of the specification |
| EnergyCharts.AddProductionType | research/carbon_emmissions/energycharts.py:38-47 | the loop over one production type's data computes `AddSource` |
| EnergyCharts.AddDataPoint | research/carbon_emmissions/energycharts.py:39-47 | a point raises iff its timedelta is missing; otherwise energy grows by mw × dt × 1000 and emissions by that times the coefficient, at that index only, extending the lists by one when needed |
| EnergyCharts.Normalize | research/carbon_emmissions/energycharts.py:50-54 | the loop computes emissions/energy per interval, 0 where energy is 0 |
| EnergyCharts.AccumulateErrorPersists | research/carbon_emmissions/energycharts.py:34-47 | once a production type raises, the whole computation raises |
| EnergyCharts.AccumulateLength | research/carbon_emmissions/energycharts.py:38-41 | the lists are as long as the longest data list of a known production type |
| EnergyCharts.Known | research/carbon_emmissions/energycharts.py:34-36 | the production types kept all have a coefficient |
| EnergyCharts.UnknownTypesIgnored | research/carbon_emmissions/energycharts.py:34-36 | production types without a coefficient contribute nothing |
| EnergyCharts.NullIsZeroPower | research/carbon_emmissions/energycharts.py:42 | a "null" or None entry counts as zero power |
| EnergyCharts.AddSourceBounded | research/carbon_emmissions/energycharts.py:43-47 | with non-negative power, every interval's emissions stay between the least and greatest coefficient times its energy |
| EnergyCharts.AccumulateBounded | research/carbon_emmissions/energycharts.py:34-47 | the same bound holds for the totals over all production types |
| EnergyCharts.IntensityWithinCoefficients | research/carbon_emmissions/energycharts.py:49-54 | with non-negative power, each intensity is 0 or lies between the least and greatest coefficient |
| EnergyCharts.CarbonIntensityShape | research/carbon_emmissions/energycharts.py:19-59 | None iff the country has no or an empty coefficient table; otherwise the timestamps pass through and there is one intensity per interval of the longest known data list |

## Left out

- I/O is not part of this model: reading and writing the timetable file, InfluxDB and Energy-Charts HTTP clients, Slurm calls and printing. The CSV file is a sequence of typed records, with the text encoding of each field (ISO-8601 times, JSON dictionaries) abstracted.
- Scheduler.ScheduleJob: works on the slots' data and returns the updated timetable. It does not model the in-place update of shared slot objects or their aliasing.
- The uuid4 reservation ids are supplied by the caller (`newId`, and `firstId + k` for slot k of a window).
- The order in which a Python set yields nodes is left open: the allocator picks any remaining node.
- `allocate_node_exclusive`, called at src/sched/scheduler.py:67, is not defined on the slot class. It is modelled with the semantics of `allocate_job`: the request must lie inside the slot and the slot must be empty. The reserved record holds the node name.
- Scheduler.ScheduleJob: a `runtime` of 0 makes Python reduce an empty window and raise TypeError. The model returns the error `EmptyWindowReduce`. A negative runtime is not modelled (`runtime` is a `nat`).
- Timetable.Timetable.constructor: the default argument `timeslots=list()` is one list shared by every default-constructed timetable. Each model timetable gets its own sequence.
- Floats are reals, so floating-point rounding is not modelled. NaN from the median of no candidates is `None`. A NaN gci inside a window weight is not modelled.
- Forecast and history times are integer hours. `lookback` and `days` are natural numbers.
- GciForecast.BuiltinForecastGci: the `bfill`/`ffill` calls return new frames that are discarded, so the model neither gap-fills nor mutates the history.
- ResearchTime: `datetime.fromtimestamp` uses local time, and DST shifts are not modelled. Differences are plain unix-second differences.
- ResearchTime.Interpolate: models `np.interp` for increasing timestamps at a step of one minute. Other `minutes` values and non-increasing timestamps are not modelled.
- ResearchTime.GetTimedeltas: a unit outside days, hours, minutes and seconds matches no case in the source; the model's units are a closed datatype, so this path is not modelled.
- EnergyCharts: the CO2E coefficient table is a parameter, one map per country.
- SchedulingTimeslot: capacity dictionary values are modelled as integers.
- Conversion.ConstantHour: the test at tests/test_carbon_conversion.py:17 passes the keyword `gco2_per_kwh`, but the parameter is `gco2eq_per_kwh`, so as written the call raises TypeError. The lemma states the intended call.
- Conversion.ConstantHour: the exact value 300 holds over reals. The float arithmetic of the source is not modelled.
- GciForecast: a history sample's gci is a real, so a NaN value in the history (a gap, which `np.median` would turn into a NaN forecast) is not modelled.
- EnergyCharts: a data entry is "null", None or a number, so a non-numeric string, for which `float(...)` raises ValueError, is not modelled.

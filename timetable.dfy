/**
 * The hour-slot store of the carbon-aware scheduler (src/sched/timetable.py).
 *
 * A ConstrainedTimeslot is one interval of the horizon with a grid carbon
 * intensity (gci) and two dictionaries: `jobs` (job id to reservation id) and
 * `reservedResources` (reservation id to the reserved record). Its bounds are
 * never reassigned, so they are constants here. A Timetable is a list of slots
 * that `AppendTimeslot` keeps contiguous. Reading and writing the CSV file are
 * folds over rows; the text encoding of each field (ISO-8601 times, JSON
 * dictionaries) is abstracted into the typed slot data `SlotState`.
 */
module Timetable {
  import opened Wrappers

  /** A point in time, in unix seconds. */
  type Time = int
  type JobId = string
  /** Stands for the uuid4 string naming a reservation; the caller supplies a fresh one. */
  type ResId = nat
  /** The resource request recorded with a reservation (a JSON dictionary). */
  type Resources = map<string, string>

  /** The record kept under a reservation id. */
  datatype Reservation = Reservation(start: Time, end: Time, resources: Resources)

  /** Python's KeyError from `dict.pop` and IndexError from `list[-1]`. */
  datatype LookupError = KeyError | IndexError

  /** The single header cell written before the rows of the CSV file. */
  const CSV_HEADER: seq<string> := ["start, end, gci, jobs, available_resources, reserved_resources"]

  /**
   * The data of one slot: its bounds, gci and the two dictionaries. This is
   * also what one CSV row of the timetable file holds.
   */
  datatype SlotState = SlotState(start: Time, end: Time, gci: real, jobs: map<JobId, ResId>,
                                 availableResources: Resources, reservedResources: map<ResId, Reservation>)
  {
    /** A slot is full as soon as it holds any reservation. */
    predicate IsFull()
    {
      |reservedResources| != 0
    }

    /**
     * The two dictionaries describe the same reservations: every job points
     * to a live reservation, every reservation belongs to exactly one job.
     */
    ghost predicate Consistent()
    {
      && jobs.Values == reservedResources.Keys
      && forall j, k :: j in jobs && k in jobs && j != k ==> jobs[j] != jobs[k]
    }
  }

  /**
   * `allocate_job` on a slot's data: reserve [reqStart, reqEnd) for `jobId`
   * under the fresh id `newId`. Admitted only inside the slot's bounds and
   * only while the slot holds no reservation, so a slot is single-tenant.
   */
  function Allocate(s: SlotState, jobId: JobId, resources: Resources, reqStart: Time, reqEnd: Time, newId: ResId)
    : (r: (SlotState, Option<ResId>))
    ensures r.1.Some? <==> reqStart >= s.start && reqEnd <= s.end && !s.IsFull()
    ensures r.1.Some? ==> && r.1.value == newId
                          && r.0 == s.(reservedResources := map[newId := Reservation(reqStart, reqEnd, resources)],
                                       jobs := s.jobs[jobId := newId])
    ensures r.1.None? ==> r.0 == s
  {
    if reqStart >= s.start && reqEnd <= s.end && |s.reservedResources| == 0 then
      (s.(reservedResources := s.reservedResources[newId := Reservation(reqStart, reqEnd, resources)],
          jobs := s.jobs[jobId := newId]), Some(newId))
    else
      (s, None)
  }

  /**
   * `remove_job` on a slot's data. The job entry is popped first, so when it
   * names a reservation that is missing the job entry is already gone when
   * the KeyError is raised.
   */
  function Remove(s: SlotState, jobId: JobId): (r: (SlotState, Outcome<LookupError>))
    ensures r.1.Pass? <==> jobId in s.jobs && s.jobs[jobId] in s.reservedResources
    ensures r.1.Fail? ==> r.1.error == KeyError
    ensures r.0.jobs == s.jobs - {jobId}
    ensures r.0.reservedResources ==
              if jobId in s.jobs then s.reservedResources - {s.jobs[jobId]} else s.reservedResources
    ensures r.0.(jobs := s.jobs, reservedResources := s.reservedResources) == s
  {
    if jobId !in s.jobs then (s, Fail(KeyError))
    else
      var resId := s.jobs[jobId];
      var popped := s.(jobs := s.jobs - {jobId});
      if resId !in s.reservedResources then (popped, Fail(KeyError))
      else (popped.(reservedResources := s.reservedResources - {resId}), Pass)
  }

  /** Through `allocate_job` a slot never holds more than one reservation. */
  lemma AllocateSingleTenant(s: SlotState, jobId: JobId, resources: Resources, reqStart: Time, reqEnd: Time, newId: ResId)
    requires |s.reservedResources| <= 1
    ensures |Allocate(s, jobId, resources, reqStart, reqEnd, newId).0.reservedResources| <= 1
  {
  }

  lemma EmptyValuesEmptyMap<K, V>(m: map<K, V>)
    requires m.Values == {}
    ensures m == map[]
  {
    assert forall k :: k in m ==> m[k] in m.Values;
  }

  /** Allocation keeps the two dictionaries in step. */
  lemma AllocateConsistent(s: SlotState, jobId: JobId, resources: Resources, reqStart: Time, reqEnd: Time, newId: ResId)
    requires s.Consistent()
    ensures Allocate(s, jobId, resources, reqStart, reqEnd, newId).0.Consistent()
  {
    if !s.IsFull() {
      EmptyValuesEmptyMap(s.jobs);
    }
  }

  /** Removal keeps the two dictionaries in step. */
  lemma RemoveConsistent(s: SlotState, jobId: JobId)
    requires s.Consistent()
    ensures Remove(s, jobId).0.Consistent()
  {
    var t := Remove(s, jobId).0;
    if jobId in s.jobs {
      forall id | id in t.reservedResources ensures id in t.jobs.Values {
        var j :| j in s.jobs && s.jobs[j] == id;
        assert j != jobId;
        assert t.jobs[j] == id;
      }
    }
  }

  /**
   * Removing a job right after its allocation gives back the slot's data,
   * with only the job's own earlier entry (if any) gone.
   */
  lemma RemoveAfterAllocate(s: SlotState, jobId: JobId, resources: Resources, reqStart: Time, reqEnd: Time, newId: ResId)
    requires Allocate(s, jobId, resources, reqStart, reqEnd, newId).1.Some?
    ensures Remove(Allocate(s, jobId, resources, reqStart, reqEnd, newId).0, jobId) == (s.(jobs := s.jobs - {jobId}), Pass)
    ensures jobId !in s.jobs ==> Remove(Allocate(s, jobId, resources, reqStart, reqEnd, newId).0, jobId) == (s, Pass)
  {
    assert s.reservedResources == map[];
    assert s.jobs[jobId := newId] - {jobId} == s.jobs - {jobId};
    if jobId !in s.jobs {
      assert s.jobs - {jobId} == s.jobs;
    }
  }

  /** Removing a job that has no entry raises KeyError and changes nothing. */
  lemma RemoveMissing(s: SlotState, jobId: JobId)
    requires jobId !in s.jobs
    ensures Remove(s, jobId) == (s, Fail(KeyError))
  {
  }

  class ConstrainedTimeslot {
    const start: Time
    const end: Time
    var gci: real
    var jobs: map<JobId, ResId>
    var availableResources: Resources
    var reservedResources: map<ResId, Reservation>

    constructor (start: Time, end: Time, gci: real, jobs: map<JobId, ResId>,
                 availableResources: Resources, reservedResources: map<ResId, Reservation>)
      ensures State() == SlotState(start, end, gci, jobs, availableResources, reservedResources)
    {
      this.start := start;
      this.end := end;
      this.gci := gci;
      this.jobs := jobs;
      this.availableResources := availableResources;
      this.reservedResources := reservedResources;
    }

    /** The slot's current data. */
    function State(): SlotState
      reads this
    {
      SlotState(start, end, gci, jobs, availableResources, reservedResources)
    }

    /** Length of the slot in seconds. */
    function GetDuration(): int
    {
      end - start
    }

    function GetGci(): real
      reads this
    {
      gci
    }

    method SetGci(gci: real)
      modifies this`gci
      ensures GetGci() == gci
      ensures State() == old(State()).(gci := gci)
    {
      this.gci := gci;
    }

    predicate IsFull()
      reads this
    {
      State().IsFull()
    }

    /** `allocate_job`: the slot's data and the result are those of Allocate. */
    method AllocateJob(jobId: JobId, resources: Resources, reqStart: Time, reqEnd: Time, newId: ResId)
      returns (r: Option<ResId>)
      modifies this`jobs, this`reservedResources
      ensures (State(), r) == Allocate(old(State()), jobId, resources, reqStart, reqEnd, newId)
    {
      if reqStart >= start && reqEnd <= end && |reservedResources| == 0 {
        reservedResources := reservedResources[newId := Reservation(reqStart, reqEnd, resources)];
        jobs := jobs[jobId := newId];
        r := Some(newId);
      } else {
        r := None;
      }
    }

    /** `remove_job`: the slot's data and the outcome are those of Remove. */
    method RemoveJob(jobId: JobId) returns (r: Outcome<LookupError>)
      modifies this`jobs, this`reservedResources
      ensures (State(), r) == Remove(old(State()), jobId)
    {
      if jobId !in jobs {
        return Fail(KeyError);
      }
      var resId := jobs[jobId];
      jobs := jobs - {jobId};
      if resId !in reservedResources {
        return Fail(KeyError);
      }
      reservedResources := reservedResources - {resId};
      r := Pass;
    }

    /** Slots are equal when they are both slots with the same bounds; gci and reservations are ignored. */
    predicate Equals(value: object)
    {
      value is ConstrainedTimeslot
      && (value as ConstrainedTimeslot).start == start
      && (value as ConstrainedTimeslot).end == end
    }
  }

  /** Slot equality is an equivalence relation. */
  lemma EqualsIsEquivalence(a: ConstrainedTimeslot, b: ConstrainedTimeslot, c: ConstrainedTimeslot)
    ensures a.Equals(a)
    ensures a.Equals(b) <==> b.Equals(a)
    ensures a.Equals(b) && b.Equals(c) ==> a.Equals(c)
    ensures a.Equals(b) <==> a.start == b.start && a.end == b.end
  {
  }

  /** Every slot ends where the next one starts. */
  predicate Contiguous(slots: seq<ConstrainedTimeslot>)
  {
    forall i :: 0 <= i < |slots| - 1 ==> slots[i].end == slots[i + 1].start
  }

  /** Sum of the slot durations. */
  function TotalDuration(slots: seq<ConstrainedTimeslot>): int
  {
    if slots == [] then 0 else slots[0].GetDuration() + TotalDuration(slots[1..])
  }

  /** In a contiguous timetable the slot durations add up to the covered span. */
  lemma {:induction false} DurationsCoverSpan(slots: seq<ConstrainedTimeslot>)
    requires Contiguous(slots) && slots != []
    ensures TotalDuration(slots) == slots[|slots| - 1].end - slots[0].start
  {
    if |slots| > 1 {
      assert Contiguous(slots[1..]) by {
        forall i | 0 <= i < |slots[1..]| - 1 ensures slots[1..][i].end == slots[1..][i + 1].start {
          assert slots[i + 1].end == slots[i + 2].start;
        }
      }
      DurationsCoverSpan(slots[1..]);
      assert slots[0].end == slots[1].start;
    }
  }

  /**
   * The number of leading slots that ended at or before `latest`: the
   * length of the longest such prefix.
   */
  function ExpiredCount(slots: seq<ConstrainedTimeslot>, latest: Time): (k: nat)
    ensures k <= |slots|
    ensures forall i :: 0 <= i < k ==> slots[i].end <= latest
    ensures k < |slots| ==> slots[k].end > latest
  {
    if slots == [] || slots[0].end > latest then 0 else 1 + ExpiredCount(slots[1..], latest)
  }

  /** Truncating twice with the same cutoff removes nothing the second time. */
  lemma TruncateIdempotent(slots: seq<ConstrainedTimeslot>, latest: Time)
    ensures ExpiredCount(slots[ExpiredCount(slots, latest)..], latest) == 0
  {
  }

  /** Dropping a prefix keeps a timetable contiguous. */
  lemma SuffixContiguous(slots: seq<ConstrainedTimeslot>, k: nat)
    requires Contiguous(slots) && k <= |slots|
    ensures Contiguous(slots[k..])
  {
    forall i | 0 <= i < |slots[k..]| - 1 ensures slots[k..][i].end == slots[k..][i + 1].start {
      assert slots[k + i].end == slots[k + i + 1].start;
    }
  }

  // ---------------------------------------------------------------- CSV rows

  /** A line of the file: a decodable slot record, or any other text (such as the header). */
  datatype CsvLine = RecordLine(row: SlotState) | TextLine(cells: seq<string>)

  /** StopIteration when the file has no header line; ValueError when a line does not decode. */
  datatype CsvError = StopIteration | ValueError

  /** The slots read so far and how reading ended. */
  datatype ReadResult = ReadResult(rows: seq<SlotState>, outcome: Outcome<CsvError>)

  function Rows(slots: seq<ConstrainedTimeslot>): (rows: seq<SlotState>)
    reads slots
    ensures |rows| == |slots|
  {
    if slots == [] then [] else [slots[0].State()] + Rows(slots[1..])
  }

  lemma {:induction false} RowsAt(slots: seq<ConstrainedTimeslot>, i: nat)
    requires i < |slots|
    ensures Rows(slots)[i] == slots[i].State()
  {
    if i > 0 {
      RowsAt(slots[1..], i - 1);
    }
  }

  predicate ContiguousRows(rows: seq<SlotState>)
  {
    forall i :: 0 <= i < |rows| - 1 ==> rows[i].end == rows[i + 1].start
  }

  /** `append_timeslot` on row values: a row that does not continue the last one is dropped. */
  function AppendRow(rows: seq<SlotState>, row: SlotState): seq<SlotState>
  {
    if rows != [] && rows[|rows| - 1].end != row.start then rows else rows + [row]
  }

  /** The loop of `read_csv` after the header: append every record, stop at a line that does not decode. */
  function FoldRecords(rows: seq<SlotState>, lines: seq<CsvLine>): ReadResult
    decreases |lines|
  {
    if lines == [] then ReadResult(rows, Pass)
    else match lines[0]
      case TextLine(_) => ReadResult(rows, Fail(ValueError))
      case RecordLine(row) => FoldRecords(AppendRow(rows, row), lines[1..])
  }

  /** `read_csv`: skip the first line, then fold the records into the existing rows. */
  function ReadRows(rows: seq<SlotState>, lines: seq<CsvLine>): ReadResult
  {
    if lines == [] then ReadResult(rows, Fail(StopIteration)) else FoldRecords(rows, lines[1..])
  }

  function RecordLines(rows: seq<SlotState>): (lines: seq<CsvLine>)
    ensures |lines| == |rows|
    ensures forall i :: 0 <= i < |rows| ==> lines[i] == RecordLine(rows[i])
  {
    if rows == [] then [] else [RecordLine(rows[0])] + RecordLines(rows[1..])
  }

  /** The file `write_csv` produces: the header, then one record per slot in order. */
  function CsvLines(rows: seq<SlotState>): seq<CsvLine>
  {
    [TextLine(CSV_HEADER)] + RecordLines(rows)
  }

  /** Reading keeps the rows read so far contiguous and only ever extends them. */
  lemma {:induction false} FoldRecordsContiguous(rows: seq<SlotState>, lines: seq<CsvLine>)
    requires ContiguousRows(rows)
    ensures ContiguousRows(FoldRecords(rows, lines).rows)
    ensures rows <= FoldRecords(rows, lines).rows
    decreases |lines|
  {
    if lines != [] && lines[0].RecordLine? {
      var next := AppendRow(rows, lines[0].row);
      assert ContiguousRows(next);
      FoldRecordsContiguous(next, lines[1..]);
    }
  }

  /** Records that continue a contiguous prefix are all appended, with no error. */
  lemma {:induction false} FoldContiguousRecords(acc: seq<SlotState>, rows: seq<SlotState>)
    requires ContiguousRows(acc + rows)
    ensures FoldRecords(acc, RecordLines(rows)) == ReadResult(acc + rows, Pass)
    decreases |rows|
  {
    if rows == [] {
      assert acc + rows == acc;
    } else {
      var lines := RecordLines(rows);
      assert lines[0] == RecordLine(rows[0]);
      assert lines[1..] == RecordLines(rows[1..]);
      var next := acc + [rows[0]];
      assert AppendRow(acc, rows[0]) == next by {
        if acc != [] {
          assert (acc + rows)[|acc| - 1] == acc[|acc| - 1];
          assert (acc + rows)[|acc|] == rows[0];
        }
      }
      assert FoldRecords(acc, lines) == FoldRecords(next, lines[1..]);
      assert next + rows[1..] == acc + rows;
      FoldContiguousRecords(next, rows[1..]);
    }
  }

  /** Writing a contiguous timetable and reading the file into an empty one gives back every row. */
  lemma ReadAfterWrite(rows: seq<SlotState>)
    requires ContiguousRows(rows)
    ensures ReadRows([], CsvLines(rows)) == ReadResult(rows, Pass)
  {
    assert CsvLines(rows)[1..] == RecordLines(rows);
    assert [] + rows == rows;
    FoldContiguousRecords([], rows);
  }

  /** A contiguous timetable has contiguous rows. */
  lemma RowsContiguous(slots: seq<ConstrainedTimeslot>)
    requires Contiguous(slots)
    ensures ContiguousRows(Rows(slots))
  {
    forall i | 0 <= i < |slots| - 1 ensures Rows(slots)[i].end == Rows(slots)[i + 1].start {
      RowsAt(slots, i);
      RowsAt(slots, i + 1);
    }
  }

  class Timetable {
    var timeslots: seq<ConstrainedTimeslot>

    /** Each timetable starts from its own list of slots. */
    constructor (timeslots: seq<ConstrainedTimeslot>)
      ensures this.timeslots == timeslots
    {
      this.timeslots := timeslots;
    }

    predicate IsEmpty()
      reads this
    {
      |timeslots| <= 0
    }

    /** The last slot; an empty timetable raises IndexError. */
    function GetLatest(): (r: Result<ConstrainedTimeslot, LookupError>)
      reads this
      ensures r.Ok? <==> !IsEmpty()
      ensures r.Ok? ==> r.value == timeslots[|timeslots| - 1] && r.value in timeslots
      ensures r.Err? ==> r.error == IndexError
    {
      if IsEmpty() then Err(IndexError) else Ok(timeslots[|timeslots| - 1])
    }

    /** Appends a slot that starts where the last one ends; refuses any other. */
    method AppendTimeslot(timeslot: ConstrainedTimeslot) returns (appended: bool)
      modifies this`timeslots
      ensures !appended <==> old(timeslots) != [] && old(timeslots)[|old(timeslots)| - 1].end != timeslot.start
      ensures timeslots == if appended then old(timeslots) + [timeslot] else old(timeslots)
      ensures old(Contiguous(timeslots)) ==> Contiguous(timeslots)
    {
      if !IsEmpty() && timeslots[|timeslots| - 1].end != timeslot.start {
        return false;
      }
      timeslots := timeslots + [timeslot];
      appended := true;
    }

    /** Drops the leading slots that ended at or before `latest`. */
    method TruncateHistory(latest: Time)
      modifies this`timeslots
      ensures timeslots == old(timeslots)[ExpiredCount(old(timeslots), latest)..]
      ensures old(Contiguous(timeslots)) ==> Contiguous(timeslots)
    {
      var i := 0;
      while i < |timeslots| && timeslots[i].end <= latest
        invariant 0 <= i <= |timeslots|
        invariant forall j :: 0 <= j < i ==> timeslots[j].end <= latest
      {
        i := i + 1;
      }
      if Contiguous(timeslots) {
        SuffixContiguous(timeslots, i);
      }
      timeslots := timeslots[i..];
    }

    /**
     * Reads a CSV file: the first line is skipped, every following record
     * becomes a new slot offered to AppendTimeslot (whose refusal is
     * ignored), and a line that does not decode raises after the slots before
     * it were appended.
     */
    method ReadCsv(lines: seq<CsvLine>) returns (r: Outcome<CsvError>)
      modifies this`timeslots
      ensures ReadResult(Rows(timeslots), r) == ReadRows(old(Rows(timeslots)), lines)
      ensures old(timeslots) <= timeslots
      ensures forall s :: s in timeslots && s !in old(timeslots) ==> fresh(s)
    {
      if lines == [] {
        return Fail(StopIteration);
      }
      ghost var before := Rows(timeslots);
      assert ReadRows(before, lines) == FoldRecords(before, lines[1..]);
      var k := 1;
      while k < |lines|
        invariant 1 <= k <= |lines|
        invariant old(timeslots) <= timeslots
        invariant forall s :: s in timeslots && s !in old(timeslots) ==> fresh(s)
        invariant FoldRecords(before, lines[1..]) == FoldRecords(Rows(timeslots), lines[k..])
      {
        var line := lines[k];
        assert lines[k..][0] == line;
        if line.TextLine? {
          assert FoldRecords(Rows(timeslots), lines[k..]) == ReadResult(Rows(timeslots), Fail(ValueError));
          return Fail(ValueError);
        }
        ghost var rowsBefore := Rows(timeslots);
        AppendRecord(line.row);
        FoldStep(rowsBefore, lines, k);
        k := k + 1;
      }
      assert lines[k..] == [];
      r := Pass;
    }

    /** One record of the file becomes a new slot offered to AppendTimeslot, whose refusal is ignored. */
    method AppendRecord(row: SlotState)
      modifies this`timeslots
      ensures Rows(timeslots) == AppendRow(old(Rows(timeslots)), row)
      ensures old(timeslots) <= timeslots
      ensures forall s :: s in timeslots && s !in old(timeslots) ==> fresh(s)
    {
      ghost var prefix := timeslots;
      ghost var rowsBefore := Rows(prefix);
      var slot := new ConstrainedTimeslot(row.start, row.end, row.gci, row.jobs,
                                          row.availableResources, row.reservedResources);
      assert Rows(prefix) == rowsBefore;
      var appended := AppendTimeslot(slot);
      AppendedRows(prefix, slot, appended, timeslots);
    }

    /** Writes the header line and then one record per slot, in order. */
    method WriteCsv() returns (lines: seq<CsvLine>)
      ensures lines == CsvLines(Rows(timeslots))
    {
      lines := [TextLine(CSV_HEADER)];
      for i := 0 to |timeslots|
        invariant lines == [TextLine(CSV_HEADER)] + RecordLines(Rows(timeslots)[..i])
      {
        var s := timeslots[i];
        RowsAt(timeslots, i);
        assert Rows(timeslots)[..i + 1] == Rows(timeslots)[..i] + [s.State()];
        RecordLinesAppend(Rows(timeslots)[..i], s.State());
        lines := lines + [RecordLine(SlotState(s.start, s.end, s.gci, s.jobs, s.availableResources, s.reservedResources))];
      }
      assert Rows(timeslots)[..|timeslots|] == Rows(timeslots);
    }
  }

  /** The rows after one call of AppendTimeslot are AppendRow of the rows before. */
  lemma AppendedRows(prefix: seq<ConstrainedTimeslot>, slot: ConstrainedTimeslot, appended: bool,
                     after: seq<ConstrainedTimeslot>)
    requires !appended <==> prefix != [] && prefix[|prefix| - 1].end != slot.start
    requires after == if appended then prefix + [slot] else prefix
    ensures Rows(after) == AppendRow(Rows(prefix), slot.State())
  {
    if appended {
      RowsAppend(prefix, slot);
    } else {
      RowsAt(prefix, |prefix| - 1);
    }
  }

  lemma FoldStep(rows: seq<SlotState>, lines: seq<CsvLine>, k: nat)
    requires k < |lines| && lines[k].RecordLine?
    ensures FoldRecords(rows, lines[k..]) == FoldRecords(AppendRow(rows, lines[k].row), lines[k + 1..])
  {
    assert lines[k..][0] == lines[k];
    assert lines[k..][1..] == lines[k + 1..];
  }

  lemma {:induction false} RowsAppend(slots: seq<ConstrainedTimeslot>, s: ConstrainedTimeslot)
    ensures Rows(slots + [s]) == Rows(slots) + [s.State()]
  {
    if slots != [] {
      assert (slots + [s])[1..] == slots[1..] + [s];
      RowsAppend(slots[1..], s);
    }
  }

  lemma RecordLinesAppend(rows: seq<SlotState>, row: SlotState)
    ensures RecordLines(rows + [row]) == RecordLines(rows) + [RecordLine(row)]
  {
  }
}

/**
 * `SquirrelTimeslot` of src/scheduling/timeslot.py: a plain holder of an
 * interval, a resource dictionary and an optional grid carbon intensity
 * (gci). The dictionary is a mutable object shared by reference: the
 * constructor and `set_capacity` keep the caller's dictionary itself, while
 * `get_capacity` hands out a copy.
 */
module SchedulingTimeslot {
  import opened Wrappers

  /** A point in time, in unix seconds. */
  type Time = int

  /** A Python dict of available resources (resource name to amount), mutable in place. */
  class Dict {
    var entries: map<string, int>

    constructor (entries: map<string, int>)
      ensures this.entries == entries
    {
      this.entries := entries;
    }

    /** `d[key] = value`. */
    method Put(key: string, value: int)
      modifies this
      ensures entries == old(entries)[key := value]
    {
      entries := entries[key := value];
    }

    /** `d.copy()`: a new dictionary with the same entries. */
    method Copy() returns (d: Dict)
      ensures fresh(d) && d.entries == entries
    {
      d := new Dict(entries);
    }
  }

  class SquirrelTimeslot {
    const start: Time
    const end: Time
    var capacity: Dict
    var gci: Option<real>

    /** Lines 22-25: the fields as given; the dictionary is kept, not copied, and the gci defaults to None. */
    constructor (start: Time, end: Time, capacity: Dict, gci: Option<real> := None)
      ensures this.start == start && this.end == end && this.capacity == capacity && this.gci == gci
    {
      this.start := start;
      this.end := end;
      this.capacity := capacity;
      this.gci := gci;
    }

    /** `set_capacity`: any dictionary is accepted, without validation, and kept by reference. */
    method SetCapacity(capacity: Dict)
      modifies this
      ensures this.capacity == capacity && gci == old(gci)
    {
      this.capacity := capacity;
    }

    /** `get_capacity`: a fresh copy with the stored entries; the slot is unchanged. */
    method GetCapacity() returns (d: Dict)
      ensures fresh(d) && d.entries == capacity.entries
    {
      d := capacity.Copy();
    }

    /** `set_gci`: the value set is what `get_gci` returns next; the dictionary is kept. */
    method SetGci(gci: Option<real>)
      modifies this
      ensures GetGci() == gci && capacity == old(capacity)
    {
      this.gci := gci;
    }

    function GetGci(): Option<real>
      reads this
    {
      gci
    }
  }

  /**
   * After `set_capacity(d)`, `get_capacity()` returns a dictionary equal to
   * `d`, and writing into that result leaves the slot's dictionary as it was.
   */
  method CopyIsolation(slot: SquirrelTimeslot, d: Dict, key: string, value: int) returns (got: Dict)
    modifies slot
    ensures slot.capacity == d && d.entries == old(d.entries)
    ensures fresh(got) && got.entries == d.entries[key := value]
  {
    slot.SetCapacity(d);
    got := slot.GetCapacity();
    assert got.entries == d.entries;
    got.Put(key, value);
  }

  /**
   * The dictionary passed to `set_capacity` stays shared: writing into it
   * afterwards changes what `get_capacity` returns.
   */
  method SharedOnSet(slot: SquirrelTimeslot, d: Dict, key: string, value: int) returns (got: Dict)
    modifies slot, d
    ensures slot.capacity == d && fresh(got)
    ensures got.entries == old(d.entries)[key := value]
  {
    slot.SetCapacity(d);
    d.Put(key, value);
    got := slot.GetCapacity();
  }
}

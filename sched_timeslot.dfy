/**
 * The older slot value type of src/sched/timeslot.py: an interval with a
 * capacity percentage, validated to lie in [0, 1], and an optional grid
 * carbon intensity (gci). Slots compare by their footprint, the duration in
 * seconds times the gci; Python raises TypeError when a gci is still None,
 * and `__lt__` raises NotImplementedError against anything but a slot.
 */
module SchedTimeslot {
  import opened Wrappers

  /** A point in time, in unix seconds. */
  type Time = int

  /** The exceptions raised by the slot: the capacity check, `float * None`, and `__lt__` against a non-slot. */
  datatype SlotError = ValueError(message: string) | TypeError | NotImplementedError

  const CAPACITY_MESSAGE: string := "Capacity percentage has to be between 0 and 1."

  /** Lines 24 and 32: a capacity is accepted when it lies in [0, 1]. */
  predicate ValidCapacity(capacity: real)
  {
    capacity <= 1.0 && capacity >= 0.0
  }

  class ConstrainedTimeslot {
    const start: Time
    const end: Time
    var capacity: real
    var gci: Option<real>

    ghost predicate Valid()
      reads this
    {
      ValidCapacity(capacity)
    }

    /** Stores the fields of an already validated slot. */
    constructor (start: Time, end: Time, capacity: real, gci: Option<real>)
      requires ValidCapacity(capacity)
      ensures Valid()
      ensures this.start == start && this.end == end && this.capacity == capacity && this.gci == gci
    {
      this.start := start;
      this.end := end;
      this.capacity := capacity;
      this.gci := gci;
    }

    /**
     * `ConstrainedTimeslot(start, end, capacity, g_co2eq_per_kwh=None)`: a
     * new slot, or the ValueError of a capacity outside [0, 1].
     */
    static method New(start: Time, end: Time, capacity: real, gci: Option<real> := None)
      returns (r: Result<ConstrainedTimeslot, SlotError>)
      ensures r.Err? <==> !ValidCapacity(capacity)
      ensures r.Err? ==> r.error == ValueError(CAPACITY_MESSAGE)
      ensures r.Ok? ==> fresh(r.value) && r.value.Valid()
      ensures r.Ok? ==> r.value.start == start && r.value.end == end && r.value.GetCapacity() == capacity && r.value.GetGci() == gci
    {
      if capacity <= 1.0 && capacity >= 0.0 {
        var slot := new ConstrainedTimeslot(start, end, capacity, gci);
        r := Ok(slot);
      } else {
        r := Err(ValueError(CAPACITY_MESSAGE));
      }
    }

    /**
     * `set_capacity`: a capacity in [0, 1] replaces the old one and is what
     * `get_capacity` returns next; any other raises and changes nothing.
     */
    method SetCapacity(capacity: real) returns (r: Outcome<SlotError>)
      requires Valid()
      modifies this
      ensures Valid()
      ensures r.Pass? <==> ValidCapacity(capacity)
      ensures r.Fail? ==> r.error == ValueError(CAPACITY_MESSAGE)
      ensures GetCapacity() == if r.Pass? then capacity else old(GetCapacity())
      ensures GetGci() == old(GetGci())
    {
      if capacity <= 1.0 && capacity >= 0.0 {
        this.capacity := capacity;
        r := Pass;
      } else {
        r := Fail(ValueError(CAPACITY_MESSAGE));
      }
    }

    function GetCapacity(): real
      reads this
    {
      capacity
    }

    /** `set_gci`: the value set is what `get_gci` returns next; the capacity is kept. */
    method SetGci(gci: Option<real>)
      modifies this
      ensures GetGci() == gci
      ensures GetCapacity() == old(GetCapacity())
    {
      this.gci := gci;
    }

    function GetGci(): Option<real>
      reads this
    {
      gci
    }

    /** The duration in seconds times the gci, or None while the gci is unset. */
    function Footprint(): Option<real>
      reads this
    {
      if gci.None? then None else Some((end - start) as real * gci.value)
    }

    /**
     * `__eq__`: false against anything but a slot; a TypeError when either
     * gci is unset; otherwise whether the footprints are equal.
     */
    function Equals(value: object): (r: Result<bool, SlotError>)
      reads this, value
      ensures !(value is ConstrainedTimeslot) ==> r == Ok(false)
      ensures value is ConstrainedTimeslot ==>
                (r.Err? <==> Footprint().None? || (value as ConstrainedTimeslot).Footprint().None?)
      ensures r.Err? ==> r.error == TypeError
    {
      if !(value is ConstrainedTimeslot) then Ok(false)
      else
        var other := value as ConstrainedTimeslot;
        if gci.None? || other.gci.None? then Err(TypeError)
        else Ok((end - start) as real * gci.value == (other.end - other.start) as real * other.gci.value)
    }

    /**
     * `__lt__`: NotImplementedError against anything but a slot; a TypeError
     * when either gci is unset; otherwise whether this footprint is smaller.
     */
    function Lt(value: object): (r: Result<bool, SlotError>)
      reads this, value
      ensures !(value is ConstrainedTimeslot) ==> r == Err(NotImplementedError)
      ensures value is ConstrainedTimeslot ==>
                (r.Err? <==> Footprint().None? || (value as ConstrainedTimeslot).Footprint().None?)
      ensures value is ConstrainedTimeslot && r.Err? ==> r.error == TypeError
    {
      if !(value is ConstrainedTimeslot) then Err(NotImplementedError)
      else
        var other := value as ConstrainedTimeslot;
        if gci.None? || other.gci.None? then Err(TypeError)
        else Ok((end - start) as real * gci.value < (other.end - other.start) as real * other.gci.value)
    }
  }

  /** Two slots with a gci are equal exactly when their footprints are. */
  lemma EqualsMeansSameFootprint(a: ConstrainedTimeslot, b: ConstrainedTimeslot)
    requires a.gci.Some? && b.gci.Some?
    ensures a.Equals(b) == Ok(a.Footprint().value == b.Footprint().value)
    ensures a.Lt(b) == Ok(a.Footprint().value < b.Footprint().value)
  {
  }

  /** Among slots with a gci, `__eq__` is an equivalence. */
  lemma EqualsIsEquivalence(a: ConstrainedTimeslot, b: ConstrainedTimeslot, c: ConstrainedTimeslot)
    requires a.gci.Some? && b.gci.Some? && c.gci.Some?
    ensures a.Equals(a) == Ok(true)
    ensures a.Equals(b) == b.Equals(a)
    ensures a.Equals(b) == Ok(true) && b.Equals(c) == Ok(true) ==> a.Equals(c) == Ok(true)
  {
    EqualsMeansSameFootprint(a, a);
    EqualsMeansSameFootprint(a, b);
    EqualsMeansSameFootprint(b, a);
    EqualsMeansSameFootprint(b, c);
    EqualsMeansSameFootprint(a, c);
  }

  /** Among slots with a gci, `__lt__` is irreflexive, asymmetric and transitive. */
  lemma LtIsStrictOrder(a: ConstrainedTimeslot, b: ConstrainedTimeslot, c: ConstrainedTimeslot)
    requires a.gci.Some? && b.gci.Some? && c.gci.Some?
    ensures a.Lt(a) == Ok(false)
    ensures a.Lt(b) == Ok(true) ==> b.Lt(a) == Ok(false)
    ensures a.Lt(b) == Ok(true) && b.Lt(c) == Ok(true) ==> a.Lt(c) == Ok(true)
  {
    EqualsMeansSameFootprint(a, a);
    EqualsMeansSameFootprint(a, b);
    EqualsMeansSameFootprint(b, a);
    EqualsMeansSameFootprint(b, c);
    EqualsMeansSameFootprint(a, c);
  }

  /** Of two slots with a gci, exactly one is smaller than the other or they are equal. */
  lemma Trichotomy(a: ConstrainedTimeslot, b: ConstrainedTimeslot)
    requires a.gci.Some? && b.gci.Some?
    ensures a.Lt(b).Ok? && b.Lt(a).Ok? && a.Equals(b).Ok?
    ensures (if a.Lt(b).value then 1 else 0) + (if b.Lt(a).value then 1 else 0) + (if a.Equals(b).value then 1 else 0) == 1
  {
    EqualsMeansSameFootprint(a, b);
    EqualsMeansSameFootprint(b, a);
  }
}

/**
 * The greedy carbon-aware window allocator (src/sched/scheduler.py).
 *
 * `ScheduleJob` weighs every run of `runtime` consecutive slots by the sum of
 * their gci, keeps one window per weight in a dictionary (a later window
 * overwrites an earlier one of equal weight), and hands the dictionary to
 * `AllocateWindowGreedy`, which tries the windows in ascending weight and, for
 * each, every candidate node: it reserves the window slot by slot and rolls
 * back every reservation of the attempt at the first refusal.
 *
 * The allocator works on the slots' data (`SlotState`) and returns the
 * updated timetable, rather than updating shared slot objects in place.
 * Windows are identified by the index of their first slot; the reservation
 * ids that uuid4 draws are supplied by the caller as `firstId`,
 * `firstId + 1`, ... for the slots of a window. The node set is a Python
 * set, so its order is left open: each node is chosen with `:|`.
 */
module Scheduler {
  import opened Wrappers
  import opened Timetable

  /** A node entry of a partition, as listed by the cluster description. */
  datatype NodeRecord = NodeRecord(hostname: string)

  /** RuntimeError("Can not allocate job.") and the TypeError of reducing an empty window. */
  datatype ScheduleError = CannotAllocate | EmptyWindowReduce

  /** The resources recorded with an exclusive node reservation. */
  function NodeRequest(node: string): Resources
  {
    map["node" := node]
  }

  /** Lines 67-72: the slot after reserving the whole of it for `jobId` on `node`. */
  function Reserve(s: SlotState, jobId: JobId, node: string, id: ResId): SlotState
  {
    Allocate(s, jobId, NodeRequest(node), s.start, s.end, id).0
  }

  /**
   * What a rolled-back attempt leaves of a slot: the slot as it was, or, for
   * a slot that was free, the slot without the job table entry of `jobId`.
   */
  predicate Restored(now: SlotState, before: SlotState, jobId: JobId)
  {
    now == before || (!before.IsFull() && now == before.(jobs := before.jobs - {jobId}))
  }

  predicate AllRestored(now: seq<SlotState>, before: seq<SlotState>, jobId: JobId)
  {
    |now| == |before| && forall k :: 0 <= k < |before| ==> Restored(now[k], before[k], jobId)
  }

  /** A window of `runtime` slots starts at `i` in a timetable of `n` slots. */
  predicate IsStart(n: nat, runtime: nat, i: int)
  {
    0 <= i && i + runtime <= n
  }

  /** No slot of the window of `runtime` slots at `start` holds a reservation. */
  predicate FreeWindow(slots: seq<SlotState>, runtime: nat, start: int)
    requires IsStart(|slots|, runtime, start)
  {
    forall k :: start <= k < start + runtime ==> !slots[k].IsFull()
  }

  /**
   * `after` is `before` with the window at `start` reserved for `jobId` on
   * `node`, slot `k` of it under id `firstId + k`; every other slot is at
   * most rolled back.
   */
  predicate Booked(after: seq<SlotState>, before: seq<SlotState>, start: int, runtime: nat,
                   jobId: JobId, node: string, firstId: ResId)
    requires IsStart(|before|, runtime, start)
  {
    && |after| == |before|
    && forall k :: 0 <= k < |before| ==>
         if start <= k < start + runtime then after[k] == Reserve(before[k], jobId, node, firstId + (k - start))
         else Restored(after[k], before[k], jobId)
  }

  /** Line 30: the gci of every slot, in order. */
  function Gcis(slots: seq<SlotState>): (g: seq<real>)
    ensures |g| == |slots|
    ensures forall k :: 0 <= k < |slots| ==> g[k] == slots[k].gci
  {
    seq(|slots|, k requires 0 <= k < |slots| => slots[k].gci)
  }

  /** Line 31: the sum of the gci of a window, added left to right as `reduce` does. */
  function WeightOf(gcis: seq<real>): real
  {
    if gcis == [] then 0.0 else WeightOf(gcis[..|gcis| - 1]) + gcis[|gcis| - 1]
  }

  /** The weight of the window of `runtime` slots at `i`. */
  function WeightAt(gcis: seq<real>, runtime: nat, i: int): real
    requires IsStart(|gcis|, runtime, i)
  {
    WeightOf(gcis[i..i + runtime])
  }

  /** The window at `i` is the latest of its weight, so it survives in the weight-keyed dictionary. */
  ghost predicate Survives(gcis: seq<real>, runtime: nat, i: int)
  {
    && IsStart(|gcis|, runtime, i)
    && forall j :: i < j && IsStart(|gcis|, runtime, j) ==> WeightAt(gcis, runtime, j) != WeightAt(gcis, runtime, i)
  }

  /** The hostnames of every node of every requested partition. */
  ghost predicate IsCandidate(cluster: map<string, seq<NodeRecord>>, partitions: seq<string>, host: string)
  {
    exists p, n :: p in cluster && p in partitions && n in cluster[p] && n.hostname == host
  }

  /**
   * Lines 25-32: one dictionary entry per window weight; the entry of a
   * weight holds the latest window start that has it.
   */
  method ComputeWindows(gcis: seq<real>, runtime: nat) returns (windows: map<real, nat>)
    requires runtime > 0
    ensures forall w :: w in windows ==> IsStart(|gcis|, runtime, windows[w]) && WeightAt(gcis, runtime, windows[w]) == w
    ensures forall i :: IsStart(|gcis|, runtime, i) ==>
              WeightAt(gcis, runtime, i) in windows && windows[WeightAt(gcis, runtime, i)] >= i
  {
    windows := map[];
    var startHour := 0;
    while startHour < |gcis| - runtime + 1
      invariant 0 <= startHour
      invariant startHour > 0 ==> startHour <= |gcis| - runtime + 1
      invariant forall w :: w in windows ==>
                  IsStart(|gcis|, runtime, windows[w]) && windows[w] < startHour && WeightAt(gcis, runtime, windows[w]) == w
      invariant forall i :: 0 <= i < startHour ==>
                  WeightAt(gcis, runtime, i) in windows && windows[WeightAt(gcis, runtime, i)] >= i
    {
      var weight := WeightOf(gcis[startHour..startHour + runtime]);
      windows := windows[weight := startHour];
      startHour := startHour + 1;
    }
  }

  /** The windows the dictionary keeps are exactly the surviving ones. */
  lemma WindowsAreSurvivors(gcis: seq<real>, runtime: nat, windows: map<real, nat>)
    requires forall w :: w in windows ==> IsStart(|gcis|, runtime, windows[w]) && WeightAt(gcis, runtime, windows[w]) == w
    requires forall i :: IsStart(|gcis|, runtime, i) ==>
               WeightAt(gcis, runtime, i) in windows && windows[WeightAt(gcis, runtime, i)] >= i
    ensures forall w :: w in windows ==> Survives(gcis, runtime, windows[w])
    ensures forall i :: Survives(gcis, runtime, i) ==> WeightAt(gcis, runtime, i) in windows && windows[WeightAt(gcis, runtime, i)] == i
  {
    forall i | Survives(gcis, runtime, i)
      ensures WeightAt(gcis, runtime, i) in windows && windows[WeightAt(gcis, runtime, i)] == i
    {
      var w := WeightAt(gcis, runtime, i);
      var k := windows[w];
      if k != i {
        assert WeightAt(gcis, runtime, k) == w;
      }
    }
  }

  /** Lines 50-54: the deduplicated hostnames of the nodes of the requested partitions. */
  method CollectNodes(cluster: map<string, seq<NodeRecord>>, partitions: seq<string>) returns (nodes: set<string>)
    ensures forall h :: h in nodes <==> IsCandidate(cluster, partitions, h)
  {
    nodes := {};
    var todo := cluster.Keys;
    while todo != {}
      invariant todo <= cluster.Keys
      invariant forall h :: h in nodes <==>
                  exists p, n :: p in cluster && p !in todo && p in partitions && n in cluster[p] && n.hostname == h
      decreases |todo|
    {
      var partition :| partition in todo;
      todo := todo - {partition};
      if partition in partitions {
        var pNodes := cluster[partition];
        ghost var before := nodes;
        for i := 0 to |pNodes|
          invariant forall h :: h in nodes <==> h in before || exists n :: n in pNodes[..i] && n.hostname == h
        {
          assert pNodes[..i + 1] == pNodes[..i] + [pNodes[i]];
          nodes := nodes + {pNodes[i].hostname};
        }
        assert pNodes[..|pNodes|] == pNodes;
      }
    }
  }

  /**
   * Lines 62-64 and 78-80: remove the job from the slots `lo` to `hi` (those
   * reserved so far in the attempt); each of them holds the job's
   * reservation, so no removal raises.
   */
  method Rollback(slots: seq<SlotState>, lo: nat, hi: nat, jobId: JobId) returns (after: seq<SlotState>)
    requires lo <= hi <= |slots|
    requires forall k :: lo <= k < hi ==> jobId in slots[k].jobs && slots[k].jobs[jobId] in slots[k].reservedResources
    ensures |after| == |slots|
    ensures forall k :: lo <= k < hi ==> after[k] == Remove(slots[k], jobId).0
    ensures forall k :: 0 <= k < |slots| && !(lo <= k < hi) ==> after[k] == slots[k]
  {
    after := slots;
    for i := lo to hi
      invariant |after| == |slots|
      invariant forall k :: lo <= k < i ==> after[k] == Remove(slots[k], jobId).0
      invariant forall k :: 0 <= k < |slots| && !(lo <= k < i) ==> after[k] == slots[k]
    {
      var (next, outcome) := Remove(after[i], jobId);
      assert outcome.Pass?;
      after := after[i := next];
    }
  }

  /**
   * Lines 60-81 for one node: reserve every slot of the window at `start`
   * for `jobId` on `node`, or roll back at the first full slot. The attempt
   * succeeds exactly when no slot of the window was full; a failed one
   * leaves every reservation as it was.
   */
  method ReserveWindow(slots: seq<SlotState>, start: nat, runtime: nat, jobId: JobId, node: string, firstId: ResId)
    returns (after: seq<SlotState>, reserved: bool)
    requires start + runtime <= |slots|
    ensures reserved <==> FreeWindow(slots, runtime, start)
    ensures reserved ==> |after| == |slots|
    ensures reserved ==> forall k :: start <= k < start + runtime ==> after[k] == Reserve(slots[k], jobId, node, firstId + (k - start))
    ensures reserved ==> forall k :: 0 <= k < |slots| && !(start <= k < start + runtime) ==> after[k] == slots[k]
    ensures !reserved ==> AllRestored(after, slots, jobId)
  {
    after := slots;
    var i := start;
    while i < start + runtime
      invariant start <= i <= start + runtime
      invariant |after| == |slots|
      invariant forall k :: start <= k < i ==> !slots[k].IsFull()
      invariant forall k :: start <= k < i ==> after[k] == Reserve(slots[k], jobId, node, firstId + (k - start))
      invariant forall k :: 0 <= k < |slots| && !(start <= k < i) ==> after[k] == slots[k]
    {
      var timeslot := after[i];
      if timeslot.IsFull() {
        ghost var booked := after;
        after := Rollback(after, start, i, jobId);
        RolledBackAttempt(after, booked, slots, start, i, jobId, node, firstId);
        return after, false;
      }
      var (next, resId) := Allocate(timeslot, jobId, NodeRequest(node), timeslot.start, timeslot.end, firstId + (i - start));
      // A request for the slot's own bounds is refused only by a full slot,
      // which the test above already handled.
      assert resId.Some? && next == Reserve(slots[i], jobId, node, firstId + (i - start));
      after := after[i := next];
      i := i + 1;
    }
    reserved := true;
  }

  /** Removing the job from the slots reserved so far restores each of them. */
  lemma RolledBackAttempt(after: seq<SlotState>, booked: seq<SlotState>, slots: seq<SlotState>, start: nat, i: nat,
                          jobId: JobId, node: string, firstId: ResId)
    requires start <= i <= |slots| == |booked| == |after|
    requires forall k :: start <= k < i ==> !slots[k].IsFull()
    requires forall k :: start <= k < i ==> booked[k] == Reserve(slots[k], jobId, node, firstId + (k - start))
    requires forall k :: start <= k < i ==> after[k] == Remove(booked[k], jobId).0
    requires forall k :: 0 <= k < |slots| && !(start <= k < i) ==> after[k] == slots[k]
    ensures AllRestored(after, slots, jobId)
  {
    forall k | 0 <= k < |slots| ensures Restored(after[k], slots[k], jobId) {
      if start <= k < i {
        RolledBackSlot(after[k], booked[k], slots[k], jobId, node, firstId + (k - start));
      }
    }
  }

  /** Removing the job from a slot it has just reserved restores the slot. */
  lemma RolledBackSlot(now: SlotState, booked: SlotState, s: SlotState, jobId: JobId, node: string, id: ResId)
    requires !s.IsFull() && booked == Reserve(s, jobId, node, id) && now == Remove(booked, jobId).0
    ensures Restored(now, s, jobId)
  {
    RemoveAfterAllocate(s, jobId, NodeRequest(node), s.start, s.end, id);
  }

  /** Rolling back twice is rolling back once. */
  lemma RestoredTwice(a: SlotState, b: SlotState, c: SlotState, jobId: JobId)
    requires Restored(a, b, jobId) && Restored(b, c, jobId)
    ensures Restored(a, c, jobId)
  {
    assert c.jobs - {jobId} - {jobId} == c.jobs - {jobId};
  }

  /** Reserving a rolled-back free slot is reserving the slot itself. */
  lemma ReserveRestored(a: SlotState, b: SlotState, jobId: JobId, node: string, id: ResId)
    requires Restored(a, b, jobId) && !b.IsFull()
    ensures Reserve(a, jobId, node, id) == Reserve(b, jobId, node, id)
  {
    assert (b.jobs - {jobId})[jobId := id] == b.jobs[jobId := id];
  }

  lemma AllRestoredTwice(a: seq<SlotState>, b: seq<SlotState>, c: seq<SlotState>, jobId: JobId)
    requires AllRestored(a, b, jobId) && AllRestored(b, c, jobId)
    ensures AllRestored(a, c, jobId)
  {
    forall k | 0 <= k < |c| ensures Restored(a[k], c[k], jobId) {
      RestoredTwice(a[k], b[k], c[k], jobId);
    }
  }

  /** A rolled-back timetable has the same full slots. */
  lemma RestoredFree(a: seq<SlotState>, b: seq<SlotState>, runtime: nat, start: nat, jobId: JobId)
    requires AllRestored(a, b, jobId) && IsStart(|b|, runtime, start)
    ensures FreeWindow(a, runtime, start) == FreeWindow(b, runtime, start)
  {
    assert forall k :: 0 <= k < |b| ==> a[k].IsFull() == b[k].IsFull();
  }

  /** A booking made on a rolled-back timetable is a booking on the original one. */
  lemma BookedOverRestored(after: seq<SlotState>, mid: seq<SlotState>, before: seq<SlotState>, start: nat, runtime: nat,
                           jobId: JobId, node: string, firstId: ResId)
    requires IsStart(|before|, runtime, start) && FreeWindow(before, runtime, start)
    requires AllRestored(mid, before, jobId) && Booked(after, mid, start, runtime, jobId, node, firstId)
    ensures Booked(after, before, start, runtime, jobId, node, firstId)
  {
    forall k | 0 <= k < |before|
      ensures if start <= k < start + runtime then after[k] == Reserve(before[k], jobId, node, firstId + (k - start))
              else Restored(after[k], before[k], jobId)
    {
      if start <= k < start + runtime {
        ReserveRestored(mid[k], before[k], jobId, node, firstId + (k - start));
      } else {
        RestoredTwice(after[k], mid[k], before[k], jobId);
      }
    }
  }

  /** A non-empty set of hostnames has an element. */
  lemma HostSetHasMember(s: set<string>)
    requires s != {}
    ensures exists x :: x in s
  {
    if forall x :: x !in s {
      assert false;
    }
  }

  /**
   * Lines 59-84 for one window: try every candidate node in turn (the order
   * of the set is left open) and report the node on which the whole window
   * was reserved. A window with a full slot is refused on every node, so the
   * attempt succeeds exactly when there is a node and the window is free.
   */
  method TryNodes(slots: seq<SlotState>, start: nat, runtime: nat, jobId: JobId, nodes: set<string>, firstId: ResId)
    returns (after: seq<SlotState>, node: Option<string>)
    requires runtime > 0 && start + runtime <= |slots|
    ensures node.Some? <==> nodes != {} && FreeWindow(slots, runtime, start)
    ensures node.Some? ==> node.value in nodes && Booked(after, slots, start, runtime, jobId, node.value, firstId)
    ensures node.None? ==> AllRestored(after, slots, jobId)
  {
    after := slots;
    var untried := nodes;
    while untried != {}
      invariant untried <= nodes
      invariant untried != nodes ==> !FreeWindow(slots, runtime, start)
      invariant AllRestored(after, slots, jobId)
      decreases |untried|
    {
      HostSetHasMember(untried);
      var n :| n in untried;
      untried := untried - {n};
      RestoredFree(after, slots, runtime, start, jobId);
      var next, reserved := ReserveWindow(after, start, runtime, jobId, n, firstId);
      if reserved {
        assert Booked(next, after, start, runtime, jobId, n, firstId);
        BookedOverRestored(next, after, slots, start, runtime, jobId, n, firstId);
        return next, Some(n);
      }
      AllRestoredTwice(next, after, slots, jobId);
      after := next;
    }
    node := None;
  }

  /** The keys in strictly ascending order. */
  predicate Ascending(keys: seq<real>)
  {
    forall i, j :: 0 <= i < j < |keys| ==> keys[i] < keys[j]
  }

  /** Line 56: the dictionary's keys in the order `sorted` lists its items. */
  method SortedKeys(windows: map<real, nat>) returns (keys: seq<real>)
    ensures Ascending(keys)
    ensures forall v :: v in keys <==> v in windows
    ensures forall i :: 0 <= i < |keys| ==> keys[i] in windows
  {
    keys := [];
    var remaining := windows.Keys;
    while remaining != {}
      invariant remaining <= windows.Keys
      invariant Ascending(keys)
      invariant forall v :: v in windows <==> v in keys || v in remaining
      invariant forall i, u :: 0 <= i < |keys| && u in remaining ==> keys[i] < u
      decreases |remaining|
    {
      SmallestExists(remaining);
      var w :| w in remaining && forall u :: u in remaining ==> w <= u;
      remaining := remaining - {w};
      keys := keys + [w];
    }
  }

  /** In ascending keys, a key smaller than the `i`-th sits before it. */
  lemma EarlierIndex(keys: seq<real>, i: nat, v: real) returns (j: nat)
    requires Ascending(keys) && i < |keys| && v in keys && v < keys[i]
    ensures j < i && keys[j] == v
  {
    var k :| 0 <= k < |keys| && keys[k] == v;
    j := k;
  }

  /**
   * Lines 43-85: try the surviving windows in ascending weight and, for each,
   * every candidate node; return the start of the first window reserved in
   * full. `key` is the dictionary key of that window and `node` the node it
   * was reserved on.
   */
  method AllocateWindowGreedy(jobId: JobId, windows: map<real, nat>, slots: seq<SlotState>,
                              runtime: nat, nodes: set<string>, firstId: ResId)
    returns (after: seq<SlotState>, chosen: Option<nat>, ghost key: real, ghost node: string)
    requires runtime > 0
    requires forall w :: w in windows ==> windows[w] + runtime <= |slots|
    ensures chosen.Some? ==> && key in windows && chosen.value == windows[key] && node in nodes
                             && FreeWindow(slots, runtime, chosen.value)
                             && (forall v :: v in windows && v < key ==> !FreeWindow(slots, runtime, windows[v]))
                             && Booked(after, slots, chosen.value, runtime, jobId, node, firstId)
    ensures chosen.None? ==> && (nodes == {} || forall v :: v in windows ==> !FreeWindow(slots, runtime, windows[v]))
                             && AllRestored(after, slots, jobId)
  {
    key, node := 0.0, "";
    after := slots;
    var keys := SortedKeys(windows);
    forall j | 0 <= j < |keys| ensures windows[keys[j]] + runtime <= |slots| {
      assert keys[j] in windows;
    }
    for i := 0 to |keys|
      invariant forall j :: 0 <= j < |keys| ==> keys[j] in windows && windows[keys[j]] + runtime <= |slots|
      invariant AllRestored(after, slots, jobId)
      invariant nodes != {} ==> forall j :: 0 <= j < i ==> !FreeWindow(slots, runtime, windows[keys[j]])
    {
      var start := windows[keys[i]];
      RestoredFree(after, slots, runtime, start, jobId);
      var next, chosenNode := TryNodes(after, start, runtime, jobId, nodes, firstId);
      if chosenNode.Some? {
        BookedOverRestored(next, after, slots, start, runtime, jobId, chosenNode.value, firstId);
        forall v | v in windows && v < keys[i] ensures !FreeWindow(slots, runtime, windows[v]) {
          var j := EarlierIndex(keys, i, v);
        }
        return next, Some(start), keys[i], chosenNode.value;
      }
      AllRestoredTwice(next, after, slots, jobId);
      after := next;
    }
    chosen := None;
  }

  /** A non-empty set of weights has an element. */
  lemma WeightSetHasMember(s: set<real>)
    requires s != {}
    ensures exists x :: x in s
  {
    if forall x :: x !in s {
      assert false;
    }
  }

  /** Every finite non-empty set of weights has a smallest element. */
  lemma {:induction false} Smallest(s: set<real>) returns (m: real)
    requires s != {}
    ensures m in s && forall u :: u in s ==> m <= u
    decreases |s|
  {
    WeightSetHasMember(s);
    var x :| x in s;
    var rest := s - {x};
    if rest == {} {
      m := x;
      forall u | u in s ensures m <= u {
        assert u !in rest;
      }
    } else {
      var y := Smallest(rest);
      m := if x < y then x else y;
      forall u | u in s ensures m <= u {
        if u != x {
          assert u in rest;
        }
      }
    }
  }

  lemma SmallestExists(s: set<real>)
    requires s != {}
    ensures exists w :: w in s && forall u :: u in s ==> w <= u
  {
    var m := Smallest(s);
  }

  /** Line 22: the runtime, in hours, fits into the forecast horizon (Python's true division). */
  predicate WithinHorizon(runtime: nat, forecastDays: int)
  {
    (runtime as real) / 24.0 <= forecastDays as real
  }

  /**
   * The window at `at` is what the greedy allocation picks: it survives in
   * the weight-keyed dictionary, it is free, and every lighter survivor is
   * not.
   */
  ghost predicate LightestFree(slots: seq<SlotState>, runtime: nat, at: int)
  {
    && Survives(Gcis(slots), runtime, at)
    && FreeWindow(slots, runtime, at)
    && forall j :: Survives(Gcis(slots), runtime, j) && WeightAt(Gcis(slots), runtime, j) < WeightAt(Gcis(slots), runtime, at) ==>
         !FreeWindow(slots, runtime, j)
  }

  /** No surviving window is free. */
  ghost predicate NoFreeSurvivor(slots: seq<SlotState>, runtime: nat)
  {
    forall j :: Survives(Gcis(slots), runtime, j) ==> !FreeWindow(slots, runtime, j)
  }

  /**
   * The choice is determined by the timetable: survivors have pairwise
   * different weights, so at most one window is the lightest free one.
   */
  lemma LightestFreeUnique(slots: seq<SlotState>, runtime: nat, a: int, b: int)
    requires LightestFree(slots, runtime, a) && LightestFree(slots, runtime, b)
    ensures a == b
  {
    assert WeightAt(Gcis(slots), runtime, a) == WeightAt(Gcis(slots), runtime, b);
  }

  /** When some surviving window is free, a lightest free one exists. */
  lemma FreeSurvivorHasLightest(slots: seq<SlotState>, runtime: nat, i: int)
    requires Survives(Gcis(slots), runtime, i) && FreeWindow(slots, runtime, i)
    ensures exists at :: LightestFree(slots, runtime, at)
  {
    var g := Gcis(slots);
    var free := set j | 0 <= j <= |g| && Survives(g, runtime, j) && FreeWindow(slots, runtime, j) :: WeightAt(g, runtime, j);
    assert WeightAt(g, runtime, i) in free;
    var m := Smallest(free);
    var at :| 0 <= at <= |g| && Survives(g, runtime, at) && FreeWindow(slots, runtime, at) && WeightAt(g, runtime, at) == m;
    forall j | Survives(g, runtime, j) && FreeWindow(slots, runtime, j) ensures m <= WeightAt(g, runtime, j) {
      assert WeightAt(g, runtime, j) in free;
    }
    assert LightestFree(slots, runtime, at);
  }

  /**
   * Lines 12-40 without the timetable's load and write: weigh every window
   * of `runtime` slots, allocate the lightest free surviving window on a node
   * of the requested partitions, and return the start of its first slot.
   * `after` is the timetable as it is then written back; the ghost results
   * say which window was reserved: it starts at index `at` and was reserved
   * on `node`.
   */
  method ScheduleJob(jobId: JobId, runtime: nat, forecastDays: int, slots: seq<SlotState>,
                     cluster: map<string, seq<NodeRecord>>, partitions: seq<string>, firstId: ResId)
    returns (r: Result<Time, ScheduleError>, after: seq<SlotState>, ghost at: int, ghost node: string)
    ensures !WithinHorizon(runtime, forecastDays) ==> r == Err(CannotAllocate) && after == slots
    ensures WithinHorizon(runtime, forecastDays) && runtime == 0 ==> r == Err(EmptyWindowReduce) && after == slots
    ensures r.Ok? <==> && WithinHorizon(runtime, forecastDays) && runtime > 0
                       && (exists h :: IsCandidate(cluster, partitions, h))
                       && !NoFreeSurvivor(slots, runtime)
    ensures r.Ok? ==> && LightestFree(slots, runtime, at) && r.value == slots[at].start
                      && IsCandidate(cluster, partitions, node)
                      && Booked(after, slots, at, runtime, jobId, node, firstId)
    ensures r.Err? ==> AllRestored(after, slots, jobId)
  {
    at, node := 0, "";
    after := slots;
    if !WithinHorizon(runtime, forecastDays) {
      return Err(CannotAllocate), after, at, node;
    }
    if runtime == 0 {
      // `reduce` over the empty window of the first start raises TypeError.
      return Err(EmptyWindowReduce), after, at, node;
    }
    var gcis := Gcis(slots);
    var windows := ComputeWindows(gcis, runtime);
    WindowsAreSurvivors(gcis, runtime, windows);
    var nodes := CollectNodes(cluster, partitions);
    var chosen;
    ghost var key;
    after, chosen, key, node := AllocateWindowGreedy(jobId, windows, slots, runtime, nodes, firstId);
    if chosen.None? {
      if nodes != {} {
        forall j | Survives(gcis, runtime, j) ensures !FreeWindow(slots, runtime, j) {
          assert WeightAt(gcis, runtime, j) in windows;
        }
      }
      return Err(CannotAllocate), after, at, node;
    }
    at := chosen.value;
    forall j | Survives(gcis, runtime, j) && WeightAt(gcis, runtime, j) < WeightAt(gcis, runtime, at)
      ensures !FreeWindow(slots, runtime, j)
    {
      assert WeightAt(gcis, runtime, j) in windows;
    }
    r := Ok(after[chosen.value].start);
  }

  /** A slot with consistent dictionaries that is free has no job entries. */
  lemma FreeConsistentHasNoJobs(s: SlotState)
    requires s.Consistent() && !s.IsFull()
    ensures s.jobs == map[]
  {
    assert s.reservedResources == map[];
    EmptyValuesEmptyMap(s.jobs);
  }

  /**
   * No partial reservation survives: on a timetable whose slots keep their
   * dictionaries in step, a rolled-back timetable is the original one.
   */
  lemma RollbackLeavesNoTrace(after: seq<SlotState>, before: seq<SlotState>, jobId: JobId)
    requires forall k :: 0 <= k < |before| ==> before[k].Consistent()
    requires AllRestored(after, before, jobId)
    ensures after == before
  {
    forall k | 0 <= k < |before| ensures after[k] == before[k] {
      if after[k] != before[k] {
        FreeConsistentHasNoJobs(before[k]);
      }
    }
  }

  /**
   * A booking on such a timetable changes the window's slots only, keeps
   * every slot consistent, and leaves each slot of the window holding the
   * single reservation of `jobId`.
   */
  lemma BookedConsistent(after: seq<SlotState>, before: seq<SlotState>, start: nat, runtime: nat,
                         jobId: JobId, node: string, firstId: ResId)
    requires forall k :: 0 <= k < |before| ==> before[k].Consistent()
    requires IsStart(|before|, runtime, start) && FreeWindow(before, runtime, start)
    requires Booked(after, before, start, runtime, jobId, node, firstId)
    ensures forall k :: 0 <= k < |after| ==> after[k].Consistent()
    ensures forall k :: 0 <= k < |after| && !(start <= k < start + runtime) ==> after[k] == before[k]
    ensures forall k :: start <= k < start + runtime ==>
              && after[k].jobs == map[jobId := firstId + (k - start)]
              && after[k].reservedResources ==
                   map[firstId + (k - start) := Reservation(before[k].start, before[k].end, NodeRequest(node))]
  {
    forall k | 0 <= k < |after|
      ensures after[k].Consistent()
      ensures !(start <= k < start + runtime) ==> after[k] == before[k]
      ensures start <= k < start + runtime ==> after[k].jobs == map[jobId := firstId + (k - start)]
    {
      if start <= k < start + runtime {
        FreeConsistentHasNoJobs(before[k]);
        AllocateConsistent(before[k], jobId, NodeRequest(node), before[k].start, before[k].end, firstId + (k - start));
      } else if after[k] != before[k] {
        FreeConsistentHasNoJobs(before[k]);
      }
    }
  }

  /**
   * Equal weights shadow each other: in a two-slot timetable of equal gci
   * whose second slot is full, the free first slot is overwritten in the
   * dictionary by the full second one, so a one-hour job finds no window.
   */
  lemma EqualWeightShadowsFreeWindow()
    ensures var free := SlotState(0, 3600, 1.0, map[], map[], map[]);
            var full := SlotState(3600, 7200, 1.0, map["j" := 0], map[], map[0 := Reservation(3600, 7200, map[])]);
            && FreeWindow([free, full], 1, 0)
            && NoFreeSurvivor([free, full], 1)
  {
    var free := SlotState(0, 3600, 1.0, map[], map[], map[]);
    var full := SlotState(3600, 7200, 1.0, map["j" := 0], map[], map[0 := Reservation(3600, 7200, map[])]);
    var slots := [free, full];
    var g := Gcis(slots);
    assert WeightAt(g, 1, 0) == WeightAt(g, 1, 1) by {
      assert g[0..1] == [1.0] && g[1..2] == [1.0];
    }
    assert !Survives(g, 1, 0);
    assert slots[1].IsFull();
  }
}

/** The loops that write the event file, the cap file and the slot samples. */
module RcFiles {
  import opened Wrappers
  import opened RcNetwork
  import opened RcTheory
  import opened RcRunner
  import opened RcRun
  import opened Grid
  import opened GridBuild
  import opened PowerIr
  import opened RcExport
  import opened RcPipeline

  // ---------------------------------------------------------------- one activity line

  /** Assign the component's energy to its cells, in the order of its cell list. */
  method AssignCells(x: Allocation, c: nat, power: real, duration: real) returns (assignments: seq<Assignment>, emitted: real)
    requires c < |x.totals| == |x.mesh.owned| && x.totals[c] > 0.0
    ensures assignments == Assigned(x, c, power, duration)
    ensures emitted == AssignmentTotal(assignments, |assignments|)
  {
    assignments, emitted := [], 0.0;
    for j := 0 to |x.mesh.owned[c]|
      invariant assignments == Assigned(x, c, power, duration)[..j]
      invariant emitted == AssignmentTotal(assignments, j)
    {
      var i := x.mesh.owned[c][j];
      var e := EnergyShare(power, duration, VolumeAt(x.mesh.cells, i), x.totals[c]);
      TotalPrefix(assignments, assignments + [Assignment(i, e)], j);
      assignments, emitted := assignments + [Assignment(i, e)], emitted + e;
    }
  }

  function AssignmentTotal(s: seq<Assignment>, j: nat): real
    requires j <= |s|
  {
    if j == 0 then 0.0 else AssignmentTotal(s, j - 1) + s[j - 1].energy
  }

  lemma {:induction false} TotalPrefix(a: seq<Assignment>, b: seq<Assignment>, j: nat)
    requires j <= |a| && a <= b
    ensures AssignmentTotal(b, j) == AssignmentTotal(a, j)
  {
    if j > 0 {
      TotalPrefix(a, b, j - 1);
    }
  }

  lemma {:induction false} TotalIsEnergy(a: Activity, j: nat)
    requires j <= |a.nodeEnergy|
    ensures AssignmentTotal(a.nodeEnergy, j) == EnergyOf(a, j)
  {
    if j > 0 {
      TotalIsEnergy(a, j - 1);
    }
  }

  // ---------------------------------------------------------------- the event file

  /** One activity per interval and component with power; the emitted energy is the energy of the trace. */
  method ExportActivities(x: Allocation, intervals: seq<Interval>, powers: seq<Vec>) returns (events: seq<Activity>, emitted: real)
    requires PowersOk(x, intervals, powers)
    ensures events == Exported(x, intervals, powers, |intervals|, 0)
    ensures emitted == DeclaredEnergy(events, |events|)
    ensures forall k :: 0 <= k < |intervals| ==> |powers[k]| == |x.totals|
    ensures emitted == EnergyTotal(intervals, powers, |intervals|, |x.totals|)
  {
    hide AllocationOk, Times, Assigned, EnergyOf, EnergyTotal, Emitted;
    events, emitted := [], 0.0;
    for t := 0 to |intervals|
      invariant events == Exported(x, intervals, powers, t, 0) && emitted == DeclaredEnergy(events, |events|)
    {
      for c := 0 to |x.totals|
        invariant events == Exported(x, intervals, powers, t, c) && emitted == DeclaredEnergy(events, |events|)
      {
        assert PowerOk(x, intervals[t], powers[t]);
        ExportedStep(x, intervals, powers, t, c + 1);
        var w := powers[t][c];
        if w != 0.0 {
          var assignments, energy := AssignCells(x, c, w, intervals[t].end - intervals[t].start);
          var a := Activity(|events| + 1, intervals[t].start, intervals[t].end, intervals[t].end, assignments);
          TotalIsEnergy(a, |assignments|);
          DeclaredPrefix(events, events + [a], |events|);
          events, emitted := events + [a], emitted + energy;
        }
      }
    }
    ExportedEnergy(x, intervals, powers, |intervals|, 0);
    EmittedIsTotal(x, intervals, powers, |intervals|);
  }

  // ---------------------------------------------------------------- the cap file

  /** A component's list names cells of its own, at least one, that fill its volume. */
  ghost predicate ListAccepted(x: Allocation, c: nat)
    requires c < |x.totals| == |x.mesh.owned|
  {
    && x.mesh.owned[c] != []
    && (forall j :: 0 <= j < |x.mesh.owned[c]| ==>
          x.mesh.owned[c][j] < |x.mesh.cells| && x.mesh.cells[x.mesh.owned[c][j]].owner == Some(c))
    && ListVolume(x.mesh.cells, x.mesh.owned[c], |x.mesh.owned[c]|) == x.totals[c]
  }

  /** What the cap builder checks of a grid file. */
  ghost predicate GridAccepted(x: Allocation) {
    |x.mesh.owned| == |x.totals| && forall c :: 0 <= c < |x.totals| ==> ListAccepted(x, c)
  }

  lemma AllocationIsAccepted(x: Allocation)
    requires AllocationOk(x)
    ensures GridAccepted(x)
  {
    forall c | 0 <= c < |x.totals| ensures ListAccepted(x, c) {
      assert TotalOk(x, c) && ListOk(x.mesh, c);
    }
  }

  /** The checks of one component's list, in order; `used` holds the cells of the components before it. */
  method CheckList(x: Allocation, c: nat, used: set<nat>) returns (ok: bool)
    requires c < |x.totals| == |x.mesh.owned|
    requires forall i :: i in used ==> i < |x.mesh.cells| && x.mesh.cells[i].owner != Some(c)
    ensures ok <==> ListAccepted(x, c)
  {
    var list := x.mesh.owned[c];
    if list == [] {
      return false;
    }
    var volume := 0.0;
    for j := 0 to |list|
      invariant forall k :: 0 <= k < j ==> list[k] < |x.mesh.cells| && list[k] !in used && x.mesh.cells[list[k]].owner == Some(c)
      invariant volume == ListVolume(x.mesh.cells, list, j)
    {
      if list[j] >= |x.mesh.cells| || list[j] in used || x.mesh.cells[list[j]].owner != Some(c) {
        return false;
      }
      volume := volume + x.mesh.cells[list[j]].volume;
    }
    ok := volume == x.totals[c];
  }

  datatype CapFile = CapFile(events: seq<Activity>, nodeCap: Vec, emitted: Vec)

  /**
   Cap power of every node: each component's cap, split over its cells.  Refused exactly for a grid whose lists do
   not name the components' own cells or do not fill their volumes, which the exporter's own grids always do.
   */
  method BuildCap(x: Allocation, slot: real, cap: Vec) returns (r: Option<CapFile>)
    requires slot > 0.0 && |cap| == |x.totals| == |x.mesh.owned| && forall c :: 0 <= c < |x.totals| ==> x.totals[c] > 0.0
    ensures r.Some? <==> GridAccepted(x)
    ensures r.Some? ==> r.value.emitted == cap && |r.value.events| == |cap| && |r.value.nodeCap| == |x.mesh.cells|
    ensures r.Some? ==> forall c :: 0 <= c < |cap| ==> r.value.events[c] == ActivityFor(x, c, c + 1, 0.0, slot, cap[c])
    ensures AllocationOk(x) ==> r.Some? && r.value.events == CapActivities(x, slot, cap, |x.totals|)
    ensures AllocationOk(x) ==> forall i :: 0 <= i < |r.value.nodeCap| ==> r.value.nodeCap[i] == NodePower(x, cap, |x.totals|, i)
  {
    hide AllocationOk, Times, Assigned, ListAccepted;
    if AllocationOk(x) {
      AllocationIsAccepted(x);
    }
    var events: seq<Activity>, emitted: Vec, used: set<nat> := [], [], {};
    var nodeCap := seq(|x.mesh.cells|, _ => 0.0);
    for c := 0 to |x.totals|
      invariant forall k :: 0 <= k < c ==> ListAccepted(x, k)
      invariant forall i :: i in used ==> i < |x.mesh.cells| && x.mesh.cells[i].owner.Some? && x.mesh.cells[i].owner.value < c
      invariant |events| == c && emitted == cap[..c] && |nodeCap| == |x.mesh.cells|
      invariant forall k :: 0 <= k < c ==> events[k] == ActivityFor(x, k, k + 1, 0.0, slot, cap[k])
      invariant AllocationOk(x) ==> events == CapActivities(x, slot, cap, c)
      invariant AllocationOk(x) ==> forall i :: 0 <= i < |nodeCap| ==> nodeCap[i] == NodePower(x, cap, c, i)
    {
      var ok := CheckList(x, c, used);
      if !ok {
        return None;
      }
      CellsInRange(x, c, cap[c], slot);
      used := used + set j | 0 <= j < |x.mesh.owned[c]| :: x.mesh.owned[c][j];
      var assignments, energy := AssignCells(x, c, cap[c], slot);
      var a := Activity(c + 1, 0.0, slot, slot, assignments);
      EmittedIsCap(x, c, slot, cap[c], a, energy);
      ghost var before := nodeCap;
      nodeCap := AddToSlot(a, slot, nodeCap);
      if AllocationOk(x) {
        forall i | 0 <= i < |nodeCap| ensures nodeCap[i] == NodePower(x, cap, c + 1, i) {
          NodePowerStep(x, cap, c, i);
          PowerOfActivity(x, c, c + 1, 0.0, slot, cap[c], |x.mesh.owned[c]|, i);
        }
      }
      events := events + [a];
      emitted := emitted + [energy / slot];
    }
    r := Some(CapFile(events, nodeCap, emitted));
  }

  lemma CellsInRange(x: Allocation, c: nat, power: real, duration: real)
    requires c < |x.totals| == |x.mesh.owned| && x.totals[c] > 0.0 && ListAccepted(x, c)
    ensures TotalOk(x, c)
    ensures forall j :: 0 <= j < |x.mesh.owned[c]| ==>
              x.mesh.owned[c][j] < |x.mesh.cells| && x.mesh.cells[x.mesh.owned[c][j]].owner == Some(c)
    ensures forall j :: 0 <= j < |Assigned(x, c, power, duration)| ==> Assigned(x, c, power, duration)[j].node < |x.mesh.cells|
  {
  }

  /** The power emitted for a component is its cap. */
  lemma EmittedIsCap(x: Allocation, c: nat, slot: real, power: real, a: Activity, energy: real)
    requires c < |x.totals| == |x.mesh.owned| && slot > 0.0 && x.totals[c] > 0.0 && TotalOk(x, c)
    requires a == ActivityFor(x, c, c + 1, 0.0, slot, power) && energy == AssignmentTotal(a.nodeEnergy, |a.nodeEnergy|)
    ensures energy / slot == power
  {
    hide Assigned;
    TotalIsEnergy(a, |a.nodeEnergy|);
    ActivityEnergy(x, c, c + 1, 0.0, slot, power);
    assert energy == power * slot;
  }

  // ---------------------------------------------------------------- slot samples for the reference back end

  predicate OnSlotEdges(i: Interval, slot: real, count: nat)
    requires slot > 0.0
  {
    IsMultiple(i.start, slot) && IsMultiple(i.end, slot) && 0.0 <= i.start < i.end <= count as real * slot
  }

  function Edge(x: real, slot: real): int
    requires slot > 0.0
  {
    (x / slot).Floor
  }

  lemma EdgesInRange(i: Interval, slot: real, count: nat)
    requires slot > 0.0 && OnSlotEdges(i, slot, count)
    ensures 0 <= Edge(i.start, slot) < Edge(i.end, slot) <= count
    ensures (Edge(i.end, slot) - Edge(i.start, slot)) as real * slot == Duration(i)
  {
    MultipleIs(i.start, slot);
    MultipleIs(i.end, slot);
    var a, b := Edge(i.start, slot), Edge(i.end, slot);
    hide IsMultiple, Edge;
    Multiplied(a, slot);
    Multiplied(b - a, slot);
    Multiplied(count - b, slot);
    assert (b - a) as real * slot == b as real * slot - a as real * slot;
    assert (count - b) as real * slot == count as real * slot - b as real * slot;
  }

  /** Power of component `c` in slot `i` from the first `t` intervals. */
  function SampleOf(intervals: seq<Interval>, powers: seq<Vec>, slot: real, t: nat, c: nat, i: nat): real
    requires slot > 0.0 && t <= |intervals| && t <= |powers| && forall k :: 0 <= k < t ==> c < |powers[k]|
  {
    if t == 0 then 0.0
    else SampleOf(intervals, powers, slot, t - 1, c, i)
         + if Edge(intervals[t - 1].start, slot) <= i < Edge(intervals[t - 1].end, slot) then powers[t - 1][c] else 0.0
  }

  function SampleSum(intervals: seq<Interval>, powers: seq<Vec>, slot: real, t: nat, c: nat, n: nat): real
    requires slot > 0.0 && t <= |intervals| && t <= |powers| && forall k :: 0 <= k < t ==> c < |powers[k]|
  {
    if n == 0 then 0.0 else SampleSum(intervals, powers, slot, t, c, n - 1) + SampleOf(intervals, powers, slot, t, c, n - 1)
  }

  /** How many of the first `n` slots lie in `[a, b)`. */
  function CountIn(a: int, b: int, n: nat): int {
    if n <= a then 0 else if n <= b then n - a else b - a
  }

  lemma {:induction false} SampleSumGrows(intervals: seq<Interval>, powers: seq<Vec>, slot: real, t: nat, c: nat, n: nat)
    requires slot > 0.0 && 0 < t <= |intervals| && t <= |powers| && forall k :: 0 <= k < t ==> c < |powers[k]|
    requires 0 <= Edge(intervals[t - 1].start, slot) < Edge(intervals[t - 1].end, slot)
    ensures SampleSum(intervals, powers, slot, t, c, n) == SampleSum(intervals, powers, slot, t - 1, c, n)
            + Times(CountIn(Edge(intervals[t - 1].start, slot), Edge(intervals[t - 1].end, slot), n) as real, powers[t - 1][c])
  {
    hide Times, Edge;
    var a, b := Edge(intervals[t - 1].start, slot), Edge(intervals[t - 1].end, slot);
    if n == 0 {
      NoPower(powers[t - 1][c]);
    } else {
      SampleSumGrows(intervals, powers, slot, t, c, n - 1);
      OneSlotMore(CountIn(a, b, n - 1), powers[t - 1][c]);
    }
  }

  lemma OneSlotMore(count: int, w: real)
    ensures Times((count + 1) as real, w) == Times(count as real, w) + w
  {
  }

  /** Over all slots the samples carry the component's energy. */
  lemma {:induction false} SamplesCarryEnergy(intervals: seq<Interval>, powers: seq<Vec>, slot: real, count: nat, t: nat, c: nat)
    requires slot > 0.0 && t <= |intervals| && t <= |powers| && forall k :: 0 <= k < t ==> c < |powers[k]|
    requires forall k :: 0 <= k < t ==> OnSlotEdges(intervals[k], slot, count)
    ensures Times(slot, SampleSum(intervals, powers, slot, t, c, count)) == ComponentEnergy(intervals, powers, t, c)
  {
    hide Times, Edge, OnSlotEdges;
    if t == 0 {
      NoSamples(intervals, powers, slot, c, count);
      TimesZero(slot);
    } else {
      SamplesCarryEnergy(intervals, powers, slot, count, t - 1, c);
      var i, w := intervals[t - 1], powers[t - 1][c];
      EdgesInRange(i, slot, count);
      SampleSumGrows(intervals, powers, slot, t, c, count);
      var slots := Edge(i.end, slot) - Edge(i.start, slot);
      TimesSum(slot, SampleSum(intervals, powers, slot, t - 1, c, count), Times(slots as real, w));
      Regroup(slot, slots as real, w, Duration(i));
    }
  }

  lemma Regroup(slot: real, slots: real, w: real, duration: real)
    requires slots * slot == duration
    ensures Times(slot, Times(slots, w)) == Times(duration, w)
  {
    assert slot * (slots * w) == (slots * slot) * w;
  }

  lemma {:induction false} NoSamples(intervals: seq<Interval>, powers: seq<Vec>, slot: real, c: nat, n: nat)
    requires slot > 0.0
    ensures SampleSum(intervals, powers, slot, 0, c, n) == 0.0
  {
    if n > 0 {
      NoSamples(intervals, powers, slot, c, n - 1);
    }
  }

  /** The end of the first `k` intervals. */
  function LastEnd(intervals: seq<Interval>, k: nat): (e: real)
    requires k <= |intervals|
    ensures forall t :: 0 <= t < k ==> intervals[t].end <= e
    ensures k > 0 ==> exists t :: 0 <= t < k && intervals[t].end == e
  {
    if k == 0 then 0.0
    else
      var e := LastEnd(intervals, k - 1);
      if k == 1 || intervals[k - 1].end > e then intervals[k - 1].end else e
  }

  /** Both ends of the interval are multiples of the slot. */
  predicate OnEdges(i: Interval, slot: real)
    requires slot > 0.0
  {
    IsMultiple(i.start, slot) && IsMultiple(i.end, slot)
  }

  /** The number of slots up to the last end. */
  function SlotCountOf(intervals: seq<Interval>, slot: real): int
    requires slot > 0.0
  {
    Edge(LastEnd(intervals, |intervals|), slot)
  }

  lemma EdgesFit(intervals: seq<Interval>, slot: real, t: nat)
    requires slot > 0.0 && t < |intervals| && forall k :: 0 <= k < |intervals| ==> OnEdges(intervals[k], slot)
    requires 0.0 <= intervals[t].start < intervals[t].end
    ensures SlotCountOf(intervals, slot) >= 0 && OnSlotEdges(intervals[t], slot, SlotCountOf(intervals, slot))
  {
    var last := LastEnd(intervals, |intervals|);
    var q :| 0 <= q < |intervals| && intervals[q].end == last;
    assert OnEdges(intervals[q], slot) && OnEdges(intervals[t], slot);
    MultipleIs(last, slot);
    Multiplied(Edge(last, slot), slot);
  }

  /** The samples of every component after the first `t` intervals and the first `c` components of interval `t`. */
  ghost predicate SamplesTo(intervals: seq<Interval>, powers: seq<Vec>, slot: real, n: nat, count: nat, t: nat, c: nat,
                            samples: seq<Vec>)
    requires slot > 0.0 && t <= |intervals| == |powers| && (c > 0 ==> t < |intervals|)
    requires forall k :: 0 <= k < |powers| ==> |powers[k]| == n
  {
    && |samples| == n && (forall b :: 0 <= b < n ==> |samples[b]| == count)
    && forall b, i :: 0 <= b < n && 0 <= i < count ==>
         samples[b][i] == SampleOf(intervals, powers, slot, if b < c then t + 1 else t, b, i)
  }

  /** Add the power to the slots `first` to `end`. */
  method AddSlots(samples: Vec, first: int, end: int, w: real) returns (r: Vec)
    requires 0 <= first <= end <= |samples|
    ensures |r| == |samples|
    ensures forall k :: 0 <= k < |r| ==> r[k] == samples[k] + if first <= k < end then w else 0.0
  {
    r := samples;
    for i := first to end
      invariant |r| == |samples|
      invariant forall k :: 0 <= k < |r| ==> r[k] == samples[k] + if first <= k < i then w else 0.0
    {
      r := r[i := r[i] + w];
    }
  }

  /**
   Slot samples of every component; `None` is the error for an empty trace, a slot that is not positive or a
   transition that is not on a slot edge.  Otherwise the samples carry exactly the energy of each component.
   */
  method SampledPower(intervals: seq<Interval>, powers: seq<Vec>, slot: real, n: nat) returns (r: Option<seq<Vec>>)
    requires |powers| == |intervals| && forall k :: 0 <= k < |powers| ==> |powers[k]| == n
    requires forall k :: 0 <= k < |intervals| ==> 0.0 <= intervals[k].start < intervals[k].end
    ensures r.Some? <==> intervals != [] && slot > 0.0 && forall k :: 0 <= k < |intervals| ==> OnEdges(intervals[k], slot)
    ensures r.Some? ==> |r.value| == n && SlotCountOf(intervals, slot) >= 0
    ensures r.Some? ==> forall c :: 0 <= c < n ==> |r.value[c]| == SlotCountOf(intervals, slot)
    ensures r.Some? ==> forall c, i :: 0 <= c < n && 0 <= i < SlotCountOf(intervals, slot) ==>
              r.value[c][i] == SampleOf(intervals, powers, slot, |intervals|, c, i)
    ensures r.Some? ==> forall c :: 0 <= c < n ==>
              Times(slot, SumTo(r.value[c], |r.value[c]|)) == ComponentEnergy(intervals, powers, |intervals|, c)
  {
    hide Times, Edge, OnEdges, OnSlotEdges, SlotCountOf, SampleOf;
    if intervals == [] || slot <= 0.0 {
      return None;
    }
    for t := 0 to |intervals|
      invariant forall k :: 0 <= k < t ==> OnEdges(intervals[k], slot)
    {
      if !OnEdges(intervals[t], slot) {
        return None;
      }
    }
    EdgesFit(intervals, slot, 0);
    var count := SlotCountOf(intervals, slot);
    var samples := seq(n, _ => seq(count, _ => 0.0));
    NothingSampled(intervals, powers, slot, n, count, samples);
    for t := 0 to |intervals|
      invariant SamplesTo(intervals, powers, slot, n, count, t, 0, samples)
    {
      EdgesFit(intervals, slot, t);
      EdgesInRange(intervals[t], slot, count);
      for c := 0 to n
        invariant SamplesTo(intervals, powers, slot, n, count, t, c, samples)
      {
        var row := AddSlots(samples[c], Edge(intervals[t].start, slot), Edge(intervals[t].end, slot), powers[t][c]);
        SampleRow(intervals, powers, slot, n, count, t, c, samples, row);
        samples := samples[c := row];
      }
    }
    forall c | 0 <= c < n
      ensures Times(slot, SumTo(samples[c], |samples[c]|)) == ComponentEnergy(intervals, powers, |intervals|, c)
    {
      forall t | 0 <= t < |intervals| ensures OnSlotEdges(intervals[t], slot, count) {
        EdgesFit(intervals, slot, t);
      }
      SumIsSampleSum(intervals, powers, slot, c, samples[c], count);
      SamplesCarryEnergy(intervals, powers, slot, count, |intervals|, c);
    }
    r := Some(samples);
  }

  lemma NothingSampled(intervals: seq<Interval>, powers: seq<Vec>, slot: real, n: nat, count: nat, samples: seq<Vec>)
    requires slot > 0.0 && |intervals| == |powers| && forall k :: 0 <= k < |powers| ==> |powers[k]| == n
    requires |samples| == n && forall b :: 0 <= b < n ==> samples[b] == seq(count, _ => 0.0)
    ensures SamplesTo(intervals, powers, slot, n, count, 0, 0, samples)
  {
  }

  lemma SampleRow(intervals: seq<Interval>, powers: seq<Vec>, slot: real, n: nat, count: nat, t: nat, c: nat,
                  samples: seq<Vec>, row: Vec)
    requires slot > 0.0 && t < |intervals| == |powers| && c < n && forall k :: 0 <= k < |powers| ==> |powers[k]| == n
    requires SamplesTo(intervals, powers, slot, n, count, t, c, samples) && |row| == count
    requires forall i :: 0 <= i < count ==>
               row[i] == samples[c][i]
                 + (if Edge(intervals[t].start, slot) <= i < Edge(intervals[t].end, slot) then powers[t][c] else 0.0)
    ensures SamplesTo(intervals, powers, slot, n, count, t, c + 1, samples[c := row])
  {
    hide Edge;
  }

  lemma {:induction false} SumIsSampleSum(intervals: seq<Interval>, powers: seq<Vec>, slot: real, c: nat, samples: Vec, n: nat)
    requires slot > 0.0 && |powers| == |intervals| && n <= |samples| && forall k :: 0 <= k < |powers| ==> c < |powers[k]|
    requires forall i :: 0 <= i < |samples| ==> samples[i] == SampleOf(intervals, powers, slot, |intervals|, c, i)
    ensures SumTo(samples, n) == SampleSum(intervals, powers, slot, |intervals|, c, n)
  {
    if n > 0 {
      SumIsSampleSum(intervals, powers, slot, c, samples, n - 1);
    }
  }
}

/** The exported activities as a whole: their energy, the power they put on every node, and the cap file. */
module RcPipeline {
  import opened Wrappers
  import opened RcNetwork
  import opened RcTheory
  import opened RcRunner
  import opened RcRun
  import opened Grid
  import opened GridBuild
  import opened PowerIr
  import opened RcExport

  /** Component powers of a trace, one vector for each interval. */
  ghost predicate PowersOk(x: Allocation, intervals: seq<Interval>, powers: seq<Vec>) {
    && AllocationOk(x) && |powers| == |intervals|
    && forall t :: 0 <= t < |intervals| ==> PowerOk(x, intervals[t], powers[t])
  }

  ghost predicate PowerOk(x: Allocation, i: Interval, power: Vec) {
    0.0 <= i.start < i.end && |power| == |x.totals| && forall c :: 0 <= c < |power| ==> power[c] >= 0.0
  }

  lemma TotalsPositive(x: Allocation, c: nat)
    requires AllocationOk(x) && c < |x.totals|
    ensures |x.mesh.owned| == |x.totals| && x.totals[c] > 0.0 && TotalOk(x, c)
  {
    assert TotalOk(x, c);
  }

  // ---------------------------------------------------------------- the event list

  /** The activities of the first `t` intervals and of the first `k` components of interval `t`. */
  ghost function Exported(x: Allocation, intervals: seq<Interval>, powers: seq<Vec>, t: nat, k: nat): seq<Activity>
    requires PowersOk(x, intervals, powers) && t <= |intervals| && k <= |x.totals| && (k > 0 ==> t < |intervals|)
    decreases t, k
  {
    if k > 0 then
      TotalsPositive(x, k - 1);
      var before := Exported(x, intervals, powers, t, k - 1);
      assert PowerOk(x, intervals[t], powers[t]);
      var w := powers[t][k - 1];
      if w == 0.0 then before
      else before + [ActivityFor(x, k - 1, |before| + 1, intervals[t].start, intervals[t].end, w)]
    else if t > 0 then Exported(x, intervals, powers, t - 1, |x.totals|)
    else []
  }

  /** Energy of the components so far. */
  ghost function Emitted(x: Allocation, intervals: seq<Interval>, powers: seq<Vec>, t: nat, k: nat): real
    requires PowersOk(x, intervals, powers) && t <= |intervals| && k <= |x.totals| && (k > 0 ==> t < |intervals|)
    decreases t, k
  {
    if k > 0 then
      assert PowerOk(x, intervals[t], powers[t]);
      Emitted(x, intervals, powers, t, k - 1) + Times(powers[t][k - 1], Duration(intervals[t]))
    else if t > 0 then Emitted(x, intervals, powers, t - 1, |x.totals|)
    else 0.0
  }

  lemma {:induction false} DeclaredPrefix(a: seq<Activity>, b: seq<Activity>, k: nat)
    requires k <= |a| && a <= b
    ensures DeclaredEnergy(b, k) == DeclaredEnergy(a, k)
  {
    if k > 0 {
      DeclaredPrefix(a, b, k - 1);
    }
  }

  lemma NoPower(d: real)
    ensures Times(0.0, d) == 0.0
  {
  }

  /** The event list declares exactly the energy of the components. */
  lemma {:induction false} ExportedEnergy(x: Allocation, intervals: seq<Interval>, powers: seq<Vec>, t: nat, k: nat)
    requires PowersOk(x, intervals, powers) && t <= |intervals| && k <= |x.totals| && (k > 0 ==> t < |intervals|)
    ensures var events := Exported(x, intervals, powers, t, k);
            DeclaredEnergy(events, |events|) == Emitted(x, intervals, powers, t, k)
    decreases t, k
  {
    hide Times, AllocationOk, Assigned, EnergyOf;
    if k > 0 {
      ExportedEnergy(x, intervals, powers, t, k - 1);
      assert PowerOk(x, intervals[t], powers[t]);
      var before, w := Exported(x, intervals, powers, t, k - 1), powers[t][k - 1];
      if w == 0.0 {
        NoPower(Duration(intervals[t]));
      } else {
        TotalsPositive(x, k - 1);
        ActivityEnergy(x, k - 1, |before| + 1, intervals[t].start, intervals[t].end, w);
        DeclaredPrefix(before, Exported(x, intervals, powers, t, k), |before|);
      }
    } else if t > 0 {
      ExportedEnergy(x, intervals, powers, t - 1, |x.totals|);
    }
  }

  lemma TimesSwap(a: real, b: real)
    ensures Times(a, b) == Times(b, a)
  {
  }

  lemma {:induction false} EmittedRow(x: Allocation, intervals: seq<Interval>, powers: seq<Vec>, t: nat, k: nat)
    requires PowersOk(x, intervals, powers) && t < |intervals| && k <= |x.totals|
    ensures |powers[t]| == |x.totals|
    ensures Emitted(x, intervals, powers, t, k) == Emitted(x, intervals, powers, t, 0) + Times(Duration(intervals[t]), SumTo(powers[t], k))
  {
    hide Times, AllocationOk;
    assert PowerOk(x, intervals[t], powers[t]);
    var d := Duration(intervals[t]);
    if k == 0 {
      TimesZero(d);
    } else {
      EmittedRow(x, intervals, powers, t, k - 1);
      TimesSwap(powers[t][k - 1], d);
      TimesSum(d, SumTo(powers[t], k - 1), powers[t][k - 1]);
    }
  }

  lemma {:induction false} EmittedIsTotal(x: Allocation, intervals: seq<Interval>, powers: seq<Vec>, t: nat)
    requires PowersOk(x, intervals, powers) && t <= |intervals|
    ensures forall k :: 0 <= k < t ==> |powers[k]| == |x.totals|
    ensures Emitted(x, intervals, powers, t, 0) == EnergyTotal(intervals, powers, t, |x.totals|)
  {
    hide Times, AllocationOk;
    assert forall k :: 0 <= k < t ==> PowerOk(x, intervals[k], powers[k]);
    if t == 0 {
      NoEnergy(intervals, powers, |x.totals|);
    } else {
      EmittedIsTotal(x, intervals, powers, t - 1);
      EmittedRow(x, intervals, powers, t - 1, |x.totals|);
      EnergyTotalGrows(intervals, powers, t, |x.totals|);
    }
  }

  /**
   Energy is conserved through the whole pipeline: what the event file declares for the cells is
   the energy of the components, and that is the energy of the source groups.
   */
  lemma PipelineConserves(x: Allocation, weights: seq<Vec>, intervals: seq<Interval>, powers: seq<Vec>)
    requires PowersOk(x, intervals, powers) && WeightsOk(weights, |x.totals|) && IsSplit(weights, intervals, powers, |x.totals|)
    ensures var events := Exported(x, intervals, powers, |intervals|, 0);
            && DeclaredEnergy(events, |events|) == EnergyTotal(intervals, powers, |intervals|, |x.totals|)
            && DeclaredEnergy(events, |events|) == SourceEnergy(intervals, |intervals|)
  {
    hide AllocationOk, WeightsOk, IsSplit;
    ExportedEnergy(x, intervals, powers, |intervals|, 0);
    EmittedIsTotal(x, intervals, powers, |intervals|);
    EnergyConserved(weights, intervals, powers, |x.totals|, |intervals|);
  }

  // ---------------------------------------------------------------- power on the nodes

  /** Power that the first `k` components put on node `i`. */
  ghost function NodePower(x: Allocation, power: Vec, k: nat, i: nat): real
    requires AllocationOk(x) && k <= |x.totals| && k <= |power|
  {
    if k == 0 then 0.0
    else
      TotalsPositive(x, k - 1);
      NodePower(x, power, k - 1, i) + Times(power[k - 1], Share(x, k - 1, |x.mesh.owned[k - 1]|, i))
  }

  lemma NodePowerStep(x: Allocation, power: Vec, c: nat, i: nat)
    requires AllocationOk(x) && c < |x.totals| && c < |power|
    ensures |x.mesh.owned| == |x.totals| && x.totals[c] > 0.0
    ensures NodePower(x, power, c + 1, i) == NodePower(x, power, c, i) + Times(power[c], Share(x, c, |x.mesh.owned[c]|, i))
    ensures NodePower(x, power, 0, i) == 0.0
  {
    TotalsPositive(x, c);
  }

  /** Node power is monotone in component power. */
  lemma {:induction false} NodePowerMonotone(x: Allocation, power: Vec, cap: Vec, alpha: real, k: nat, i: nat)
    requires AllocationOk(x) && k <= |x.totals| && k <= |power| && k <= |cap|
    requires forall c :: 0 <= c < k ==> power[c] <= Times(alpha, cap[c])
    ensures NodePower(x, power, k, i) <= Times(alpha, NodePower(x, cap, k, i))
  {
    hide Times, AllocationOk;
    if k == 0 {
      TimesZero(alpha);
    } else {
      NodePowerMonotone(x, power, cap, alpha, k - 1, i);
      TotalsPositive(x, k - 1);
      ShareIsNotNegative(x, k - 1, |x.mesh.owned[k - 1]|, i);
      var share := Share(x, k - 1, |x.mesh.owned[k - 1]|, i);
      ScaledTerm(power[k - 1], cap[k - 1], alpha, share);
      TimesSum(alpha, NodePower(x, cap, k - 1, i), Times(cap[k - 1], share));
    }
  }

  // ---------------------------------------------------------------- slots

  /** Interval `t` is slot `t`. */
  ghost predicate OnGrid(intervals: seq<Interval>, slot: real) {
    slot > 0.0 && forall t :: 0 <= t < |intervals| ==> SlotInterval(intervals[t], t, slot)
  }

  predicate SlotInterval(i: Interval, t: nat, slot: real) {
    i.start == t as real * slot && i.end == (t + 1) as real * slot
  }

  lemma NearestOfMultiple(x: real, t: nat, slot: real)
    requires slot > 0.0 && x == t as real * slot
    ensures Nearest(x / slot) == t
  {
    assert x / slot == t as real;
  }

  lemma SlotOfActivity(a: Activity, t: nat, o: Options)
    requires o.slot > 0.0 && a.start == t as real * o.slot && a.end == (t + 1) as real * o.slot
    ensures FirstSlot(a, o) == t && EndSlot(a, o) == t + 1 && SlotDuration(a, o) == a.end - a.start == o.slot > 0.0
  {
    hide Nearest;
    NearestOfMultiple(a.start, t, o.slot);
    NearestOfMultiple(a.end, t + 1, o.slot);
    assert (t + 1) as real * o.slot == t as real * o.slot + o.slot;
  }

  ghost predicate Lasting(activities: seq<Activity>, o: Options)
    requires o.slot > 0.0
  {
    forall q :: 0 <= q < |activities| ==> SlotDuration(activities[q], o) > 0.0
  }

  lemma {:induction false} SlotPowerPrefix(a: seq<Activity>, b: seq<Activity>, o: Options, k: nat, t: nat, i: nat)
    requires o.slot > 0.0 && k <= |a| && a <= b && Lasting(b, o)
    ensures Lasting(a, o) && SlotPower(b, o, k, t, i) == SlotPower(a, o, k, t, i)
  {
    hide SlotDuration, FirstSlot, EndSlot;
    assert forall q :: 0 <= q < |a| ==> a[q] == b[q];
    if k > 0 {
      SlotPowerPrefix(a, b, o, k - 1, t, i);
    }
  }

  /** Power on node `i` in slot `s` from the activities exported so far. */
  ghost function PowerSoFar(x: Allocation, powers: seq<Vec>, t: nat, k: nat, s: nat, i: nat): real
    requires AllocationOk(x) && k <= |x.totals| && t <= |powers| && (k > 0 ==> t < |powers|)
    requires forall q :: 0 <= q < |powers| ==> |powers[q]| == |x.totals|
  {
    if s < t then NodePower(x, powers[s], |x.totals|, i)
    else if s == t && k > 0 then NodePower(x, powers[t], k, i)
    else 0.0
  }

  lemma PowerSizes(x: Allocation, intervals: seq<Interval>, powers: seq<Vec>)
    requires PowersOk(x, intervals, powers)
    ensures forall q :: 0 <= q < |powers| ==> |powers[q]| == |x.totals|
  {
    assert forall q :: 0 <= q < |powers| ==> PowerOk(x, intervals[q], powers[q]);
  }

  /** In every slot the exported activities put on each node exactly the power of its interval. */
  lemma {:induction false} ExportedPower(x: Allocation, intervals: seq<Interval>, powers: seq<Vec>, o: Options,
                                         t: nat, k: nat, s: nat, i: nat)
    requires PowersOk(x, intervals, powers) && OnGrid(intervals, o.slot)
    requires t <= |intervals| && k <= |x.totals| && (k > 0 ==> t < |intervals|)
    ensures Lasting(Exported(x, intervals, powers, t, k), o)
    ensures forall q :: 0 <= q < |powers| ==> |powers[q]| == |x.totals|
    ensures var events := Exported(x, intervals, powers, t, k);
            SlotPower(events, o, |events|, s, i) == PowerSoFar(x, powers, t, k, s, i)
    decreases t, k
  {
    hide Times, AllocationOk, SlotDuration, FirstSlot, EndSlot, SlotInterval;
    PowerSizes(x, intervals, powers);
    if k > 0 {
      ExportedPower(x, intervals, powers, o, t, k - 1, s, i);
      NextActivity(x, intervals, powers, o, t, k, s, i);
    } else if t > 0 {
      ExportedPower(x, intervals, powers, o, t - 1, |x.totals|, s, i);
    }
  }

  lemma ExportedStep(x: Allocation, intervals: seq<Interval>, powers: seq<Vec>, t: nat, k: nat)
    requires PowersOk(x, intervals, powers) && t < |intervals| && 0 < k <= |x.totals| && |powers[t]| == |x.totals|
    ensures |x.mesh.owned| == |x.totals| && x.totals[k - 1] > 0.0 && intervals[t].start < intervals[t].end
    ensures var before := Exported(x, intervals, powers, t, k - 1);
            Exported(x, intervals, powers, t, k) ==
              if powers[t][k - 1] == 0.0 then before
              else before + [ActivityFor(x, k - 1, |before| + 1, intervals[t].start, intervals[t].end, powers[t][k - 1])]
  {
    TotalsPositive(x, k - 1);
    assert PowerOk(x, intervals[t], powers[t]);
  }

  lemma NextActivity(x: Allocation, intervals: seq<Interval>, powers: seq<Vec>, o: Options, t: nat, k: nat, s: nat, i: nat)
    requires PowersOk(x, intervals, powers) && OnGrid(intervals, o.slot) && t < |intervals| && 0 < k <= |x.totals|
    requires forall q :: 0 <= q < |powers| ==> |powers[q]| == |x.totals|
    requires Lasting(Exported(x, intervals, powers, t, k - 1), o)
    requires var before := Exported(x, intervals, powers, t, k - 1);
             SlotPower(before, o, |before|, s, i) == PowerSoFar(x, powers, t, k - 1, s, i)
    ensures Lasting(Exported(x, intervals, powers, t, k), o)
    ensures var events := Exported(x, intervals, powers, t, k);
            SlotPower(events, o, |events|, s, i) == PowerSoFar(x, powers, t, k, s, i)
  {
    hide Times, AllocationOk, SlotDuration, FirstSlot, EndSlot, Exported, Assigned, Share, AssignedPower, PowerOk, SlotPower,
      NodePower, Lasting;
    var before, events := Exported(x, intervals, powers, t, k - 1), Exported(x, intervals, powers, t, k);
    var w, c := powers[t][k - 1], k - 1;
    ExportedStep(x, intervals, powers, t, k);
    NodePowerStep(x, powers[t], c, i);
    if w == 0.0 {
      NoPower(Share(x, c, |x.mesh.owned[c]|, i));
    } else {
      var a := ActivityFor(x, c, |before| + 1, intervals[t].start, intervals[t].end, w);
      assert SlotInterval(intervals[t], t, o.slot);
      SlotOfActivity(a, t, o);
      PowerOfActivity(x, c, |before| + 1, intervals[t].start, intervals[t].end, w, |x.mesh.owned[c]|, i);
      AppendPower(before, a, o, s, i);
    }
  }

  lemma AppendPower(before: seq<Activity>, a: Activity, o: Options, s: nat, i: nat)
    requires o.slot > 0.0 && Lasting(before, o) && SlotDuration(a, o) > 0.0
    ensures Lasting(before + [a], o)
    ensures SlotPower(before + [a], o, |before| + 1, s, i) == SlotPower(before, o, |before|, s, i)
            + if FirstSlot(a, o) <= s < EndSlot(a, o) then AssignedPower(a, SlotDuration(a, o), |a.nodeEnergy|, i) else 0.0
  {
    hide SlotDuration, FirstSlot, EndSlot, AssignedPower;
    SlotPowerPrefix(before, before + [a], o, |before|, s, i);
  }

  /** The exported activities are what the runner accepts: valid, and on slots. */
  lemma {:induction false} ExportedIsRunnable(x: Allocation, intervals: seq<Interval>, powers: seq<Vec>, o: Options, s: Schedule,
                                              t: nat, k: nat)
    requires PowersOk(x, intervals, powers) && OnGrid(intervals, o.slot) && |intervals| <= s.slotCount
    requires t <= |intervals| && k <= |x.totals| && (k > 0 ==> t < |intervals|)
    ensures ValidActivities(Exported(x, intervals, powers, t, k), |x.mesh.cells|)
    ensures AllOnSlots(Exported(x, intervals, powers, t, k), o, s)
    decreases t, k
  {
    hide AllocationOk, ActivityFor, ActivityOk, OnSlots;
    PowerSizes(x, intervals, powers);
    if k > 0 {
      ExportedIsRunnable(x, intervals, powers, o, s, t, k - 1);
      ExportedStep(x, intervals, powers, t, k);
      assert PowerOk(x, intervals[t], powers[t]) && SlotInterval(intervals[t], t, o.slot);
      var before := Exported(x, intervals, powers, t, k - 1);
      var a := ActivityFor(x, k - 1, |before| + 1, intervals[t].start, intervals[t].end, powers[t][k - 1]);
      ActivityIsOk(x, k - 1, |before| + 1, intervals[t].start, intervals[t].end, powers[t][k - 1]);
      ActivityOnSlot(x, k - 1, |before| + 1, intervals[t], powers[t][k - 1], o, s, t);
    } else if t > 0 {
      ExportedIsRunnable(x, intervals, powers, o, s, t - 1, |x.totals|);
    }
  }

  lemma ActivityOnSlot(x: Allocation, c: nat, id: nat, i: Interval, w: real, o: Options, s: Schedule, t: nat)
    requires c < |x.totals| == |x.mesh.owned| && x.totals[c] > 0.0 && o.slot > 0.0 && SlotInterval(i, t, o.slot) && t < s.slotCount
    ensures OnSlots(ActivityFor(x, c, id, i.start, i.end, w), o, s)
  {
    SlotOfActivity(ActivityFor(x, c, id, i.start, i.end, w), t, o);
  }

  // ---------------------------------------------------------------- the cap file

  /** One activity per component over one slot, at the component's cap power. */
  ghost function CapActivities(x: Allocation, slot: real, cap: Vec, k: nat): seq<Activity>
    requires AllocationOk(x) && k <= |x.totals| && k <= |cap|
  {
    if k == 0 then []
    else
      TotalsPositive(x, k - 1);
      CapActivities(x, slot, cap, k - 1) + [ActivityFor(x, k - 1, k, 0.0, slot, cap[k - 1])]
  }

  lemma {:induction false} CapPowerPrefix(a: seq<Activity>, b: seq<Activity>, k: nat, i: nat)
    requires k <= |a| && a <= b && forall q :: 0 <= q < |b| ==> b[q].end > b[q].start
    ensures (forall q :: 0 <= q < |a| ==> a[q].end > a[q].start) && CapPower(b, k, i) == CapPower(a, k, i)
  {
    assert forall q :: 0 <= q < |a| ==> a[q] == b[q];
    if k > 0 {
      CapPowerPrefix(a, b, k - 1, i);
    }
  }

  /** The cap file puts on each node the power of the caps. */
  lemma {:induction false} CapIsNodePower(x: Allocation, slot: real, cap: Vec, k: nat, i: nat)
    requires AllocationOk(x) && slot > 0.0 && k <= |x.totals| && k <= |cap|
    ensures var events := CapActivities(x, slot, cap, k);
            && |events| == k && (forall q :: 0 <= q < k ==> events[q].end > events[q].start)
            && CapPower(events, k, i) == NodePower(x, cap, k, i)
  {
    hide Times, AllocationOk, Assigned, Share, AssignedPower;
    if k > 0 {
      CapIsNodePower(x, slot, cap, k - 1, i);
      TotalsPositive(x, k - 1);
      var before, events := CapActivities(x, slot, cap, k - 1), CapActivities(x, slot, cap, k);
      CapPowerPrefix(before, events, k - 1, i);
      PowerOfActivity(x, k - 1, k, 0.0, slot, cap[k - 1], |x.mesh.owned[k - 1]|, i);
    }
  }
}

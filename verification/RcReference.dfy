/** The reference back end's floorplans: slot powers of every cell, and why both back ends receive the same heat. */
module RcReference {
  import opened Wrappers
  import opened RcNetwork
  import opened RcTheory
  import opened RcRunner
  import opened RcRun
  import opened Grid
  import opened GridBuild
  import opened PowerIr
  import opened RcExport
  import opened RcPipeline
  import opened RcFiles

  // ---------------------------------------------------------------- the share of one cell

  /** The weight of cell `i` in its component; zero in the background. */
  function CellWeight(x: Allocation, i: nat): real
    requires i < |x.mesh.cells|
  {
    var owner := x.mesh.cells[i].owner;
    if owner.Some? && owner.value < |x.totals| && x.totals[owner.value] > 0.0
    then x.mesh.cells[i].volume / x.totals[owner.value] else 0.0
  }

  predicate Owns(x: Allocation, c: nat, i: nat)
    requires i < |x.mesh.cells|
  {
    x.mesh.cells[i].owner == Some(c)
  }

  lemma {:induction false} NotListed(x: Allocation, c: nat, j: nat, i: nat)
    requires c < |x.totals| == |x.mesh.owned| && x.totals[c] > 0.0 && j <= |x.mesh.owned[c]|
    requires forall q :: 0 <= q < j ==> x.mesh.owned[c][q] != i
    ensures Share(x, c, j, i) == 0.0
  {
    if j > 0 {
      NotListed(x, c, j - 1, i);
    }
  }

  lemma {:induction false} ListedOnce(x: Allocation, c: nat, j: nat, q: nat)
    requires c < |x.totals| == |x.mesh.owned| && x.totals[c] > 0.0 && q < j <= |x.mesh.owned[c]| && ListOk(x.mesh, c)
    ensures Share(x, c, j, x.mesh.owned[c][q]) == Part(x, c, q)
  {
    if q == j - 1 {
      NotListed(x, c, j - 1, x.mesh.owned[c][q]);
    } else {
      ListedOnce(x, c, j - 1, q);
    }
  }

  /** Only its owner has a share in a cell, and that share is the cell's weight. */
  lemma ShareOfCell(x: Allocation, c: nat, i: nat)
    requires AllocationOk(x) && c < |x.totals| && i < |x.mesh.cells|
    ensures |x.mesh.owned| == |x.totals| && x.totals[c] > 0.0
    ensures Share(x, c, |x.mesh.owned[c]|, i) == if Owns(x, c, i) then CellWeight(x, i) else 0.0
  {
    TotalsPositive(x, c);
    assert ListOk(x.mesh, c);
    if Owns(x, c, i) {
      var q :| 0 <= q < |x.mesh.owned[c]| && x.mesh.owned[c][q] == i;
      ListedOnce(x, c, |x.mesh.owned[c]|, q);
    } else {
      NotListed(x, c, |x.mesh.owned[c]|, i);
    }
  }

  // ---------------------------------------------------------------- energy of a cell from the event file

  /** Energy that the first `j` assignments of an activity put on node `i`. */
  function EnergyOn(a: Activity, j: nat, i: nat): real
    requires j <= |a.nodeEnergy|
  {
    if j == 0 then 0.0 else EnergyOn(a, j - 1, i) + if a.nodeEnergy[j - 1].node == i then a.nodeEnergy[j - 1].energy else 0.0
  }

  /** Energy that the first `k` activities put on node `i`. */
  function EventEnergy(events: seq<Activity>, k: nat, i: nat): real
    requires k <= |events|
  {
    if k == 0 then 0.0 else EventEnergy(events, k - 1, i) + EnergyOn(events[k - 1], |events[k - 1].nodeEnergy|, i)
  }

  lemma {:induction false} EventPrefix(a: seq<Activity>, b: seq<Activity>, k: nat, i: nat)
    requires k <= |a| && a <= b
    ensures EventEnergy(b, k, i) == EventEnergy(a, k, i)
  {
    if k > 0 {
      EventPrefix(a, b, k - 1, i);
    }
  }

  lemma {:induction false} ActivityEnergyOn(x: Allocation, c: nat, id: nat, start: real, end: real, power: real, j: nat, i: nat)
    requires c < |x.totals| == |x.mesh.owned| && x.totals[c] > 0.0 && start < end && j <= |x.mesh.owned[c]|
    ensures EnergyOn(ActivityFor(x, c, id, start, end, power), j, i) == Times(Times(power, end - start), Share(x, c, j, i))
  {
    hide Times, EnergyShare;
    var e := Times(power, end - start);
    if j == 0 {
      TimesZero(e);
    } else {
      ActivityEnergyOn(x, c, id, start, end, power, j - 1, i);
      CellEnergy(power, end - start, VolumeAt(x.mesh.cells, x.mesh.owned[c][j - 1]), x.totals[c]);
      TimesSum(e, Share(x, c, j - 1, i), Part(x, c, j - 1));
    }
  }

  /** Energy of the owner of cell `i` over the first `t` intervals, and in interval `t` if it is among the first `k` components. */
  ghost function OwnerEnergy(x: Allocation, intervals: seq<Interval>, powers: seq<Vec>, t: nat, k: nat, i: nat): real
    requires PowersOk(x, intervals, powers) && t <= |intervals| && k <= |x.totals| && (k > 0 ==> t < |intervals|)
    requires i < |x.mesh.cells| && forall q :: 0 <= q < |powers| ==> |powers[q]| == |x.totals|
  {
    var owner := x.mesh.cells[i].owner;
    if owner.None? || owner.value >= |x.totals| then 0.0
    else ComponentEnergy(intervals, powers, t, owner.value)
         + if owner.value < k then Times(Duration(intervals[t]), powers[t][owner.value]) else 0.0
  }

  /** One more component of an interval adds to cell `i` what its owner, if it is that component, puts there. */
  lemma EventsOnward(x: Allocation, intervals: seq<Interval>, powers: seq<Vec>, t: nat, k: nat, i: nat)
    requires PowersOk(x, intervals, powers) && t < |intervals| && 0 < k <= |x.totals| && i < |x.mesh.cells|
    requires forall q :: 0 <= q < |powers| ==> |powers[q]| == |x.totals|
    ensures var before, events := Exported(x, intervals, powers, t, k - 1), Exported(x, intervals, powers, t, k);
            EventEnergy(events, |events|, i) == EventEnergy(before, |before|, i)
              + if Owns(x, k - 1, i) then Times(Times(Duration(intervals[t]), powers[t][k - 1]), CellWeight(x, i)) else 0.0
  {
    hide Times, AllocationOk, Exported, ActivityFor, CellWeight, Share;
    ExportedStep(x, intervals, powers, t, k);
    var before, events := Exported(x, intervals, powers, t, k - 1), Exported(x, intervals, powers, t, k);
    var w, c, d := powers[t][k - 1], k - 1, Duration(intervals[t]);
    ShareOfCell(x, c, i);
    TimesSwap(w, d);
    if w == 0.0 {
      TimesZero(d);
      NoPower(CellWeight(x, i));
    } else {
      EventPrefix(before, events, |before|, i);
      ActivityEnergyOn(x, c, |before| + 1, intervals[t].start, intervals[t].end, w, |x.mesh.owned[c]|, i);
      SizeOfActivity(x, c, |before| + 1, intervals[t].start, intervals[t].end, w);
      TimesZero(Times(w, d));
    }
  }

  lemma SizeOfActivity(x: Allocation, c: nat, id: nat, start: real, end: real, w: real)
    requires c < |x.totals| == |x.mesh.owned| && x.totals[c] > 0.0
    ensures |ActivityFor(x, c, id, start, end, w).nodeEnergy| == |x.mesh.owned[c]|
  {
  }

  /** The event file puts on every cell its weight of its component's energy. */
  lemma {:induction false} EventsOnCell(x: Allocation, intervals: seq<Interval>, powers: seq<Vec>, t: nat, k: nat, i: nat)
    requires PowersOk(x, intervals, powers) && t <= |intervals| && k <= |x.totals| && (k > 0 ==> t < |intervals|)
    requires i < |x.mesh.cells| && forall q :: 0 <= q < |powers| ==> |powers[q]| == |x.totals|
    ensures var events := Exported(x, intervals, powers, t, k);
            EventEnergy(events, |events|, i) == Times(OwnerEnergy(x, intervals, powers, t, k, i), CellWeight(x, i))
    decreases t, k
  {
    hide Times, AllocationOk, PowerOk, EventEnergy, CellWeight;
    var weight := CellWeight(x, i);
    if k > 0 {
      EventsOnCell(x, intervals, powers, t, k - 1, i);
      EventsOnward(x, intervals, powers, t, k, i);
      TimesPlus(OwnerEnergy(x, intervals, powers, t, k - 1, i), Times(Duration(intervals[t]), powers[t][k - 1]), weight);
    } else if t > 0 {
      EventsOnCell(x, intervals, powers, t - 1, |x.totals|, i);
    } else {
      NoPower(weight);
      NoEvents(i);
    }
  }

  lemma NoEvents(i: nat)
    ensures EventEnergy([], 0, i) == 0.0
  {
  }

  // ---------------------------------------------------------------- the floorplans

  /** The slot powers of one cell: the samples of its component times its weight. */
  function CellValues(x: Allocation, samples: seq<Vec>, count: nat, i: nat): (v: Vec)
    requires i < |x.mesh.cells| && |samples| == |x.totals| && forall c :: 0 <= c < |samples| ==> |samples[c]| == count
    ensures |v| == count
  {
    var owner := x.mesh.cells[i].owner;
    if owner.Some? && owner.value < |samples| then
      seq(count, s requires 0 <= s < count => Times(samples[owner.value][s], CellWeight(x, i)))
    else seq(count, _ => 0.0)
  }

  lemma {:induction false} WeightedSum(a: Vec, b: Vec, weight: real, k: nat)
    requires k <= |a| == |b| && forall s :: 0 <= s < |a| ==> a[s] == Times(b[s], weight)
    ensures SumTo(a, k) == Times(SumTo(b, k), weight)
  {
    hide Times;
    if k == 0 {
      NoPower(weight);
    } else {
      WeightedSum(a, b, weight, k - 1);
      TimesPlus(SumTo(b, k - 1), b[k - 1], weight);
    }
  }

  /**
   The power values of every cell, slot by slot; `None` is the error of the sampling.  Each cell receives from the
   reference floorplans exactly the energy that the event file puts on it.
   */
  method ReferenceValues(x: Allocation, intervals: seq<Interval>, powers: seq<Vec>, slot: real) returns (r: Option<seq<Vec>>)
    requires PowersOk(x, intervals, powers)
    ensures r.Some? <==> intervals != [] && slot > 0.0 && forall k :: 0 <= k < |intervals| ==> OnEdges(intervals[k], slot)
    ensures r.Some? ==> |r.value| == |x.mesh.cells|
    ensures r.Some? ==> forall i :: 0 <= i < |r.value| ==>
              CellSamples(x, intervals, powers, slot, r.value[i], i) && SameHeat(x, intervals, powers, slot, r.value[i], i)
  {
    hide AllocationOk, OnEdges, SameHeat, CellSamples, Times, ComponentEnergy, SampleOf, SlotCountOf;
    PowerSizes(x, intervals, powers);
    assert forall k :: 0 <= k < |intervals| ==> PowerOk(x, intervals[k], powers[k]);
    var samples := SampledPower(intervals, powers, slot, |x.totals|);
    if samples.None? {
      return None;
    }
    var count := SlotCountOf(intervals, slot);
    var cells: seq<Vec> := [];
    for i := 0 to |x.mesh.cells|
      invariant |cells| == i && forall k :: 0 <= k < i ==>
                  CellSamples(x, intervals, powers, slot, cells[k], k) && SameHeat(x, intervals, powers, slot, cells[k], k)
    {
      CellIsSampled(x, intervals, powers, slot, samples.value, count, i);
      CellReceives(x, intervals, powers, slot, samples.value, count, i);
      cells := cells + [CellValues(x, samples.value, count, i)];
    }
    r := Some(cells);
  }

  /** In every slot the cell has its weight of the power its component has then. */
  ghost predicate CellSamples(x: Allocation, intervals: seq<Interval>, powers: seq<Vec>, slot: real, values: Vec, i: nat)
    requires PowersOk(x, intervals, powers) && slot > 0.0 && i < |x.mesh.cells|
  {
    PowerSizes(x, intervals, powers);
    var owner := x.mesh.cells[i].owner;
    && |values| == SlotCountOf(intervals, slot)
    && forall s :: 0 <= s < |values| ==>
         values[s] == if owner.Some? && owner.value < |x.totals|
                      then Times(SampleOf(intervals, powers, slot, |intervals|, owner.value, s), CellWeight(x, i)) else 0.0
  }

  lemma CellIsSampled(x: Allocation, intervals: seq<Interval>, powers: seq<Vec>, slot: real, samples: seq<Vec>, count: nat, i: nat)
    requires PowersOk(x, intervals, powers) && slot > 0.0 && i < |x.mesh.cells| && |samples| == |x.totals|
    requires forall q :: 0 <= q < |powers| ==> |powers[q]| == |x.totals|
    requires count == SlotCountOf(intervals, slot) && forall c :: 0 <= c < |samples| ==> |samples[c]| == count
    requires forall c, s :: 0 <= c < |samples| && 0 <= s < count ==>
               samples[c][s] == SampleOf(intervals, powers, slot, |intervals|, c, s)
    ensures CellSamples(x, intervals, powers, slot, CellValues(x, samples, count, i), i)
  {
    hide AllocationOk, Times, SampleOf, SlotCountOf, CellWeight, PowerOk;
  }

  /** Slot values that carry exactly the energy that the events put on node `i`. */
  ghost predicate SameHeat(x: Allocation, intervals: seq<Interval>, powers: seq<Vec>, slot: real, values: Vec, i: nat)
    requires PowersOk(x, intervals, powers)
  {
    var events := Exported(x, intervals, powers, |intervals|, 0);
    Times(slot, SumTo(values, |values|)) == EventEnergy(events, |events|, i)
  }

  lemma CellReceives(x: Allocation, intervals: seq<Interval>, powers: seq<Vec>, slot: real, samples: seq<Vec>, count: nat, i: nat)
    requires PowersOk(x, intervals, powers) && i < |x.mesh.cells| && |samples| == |x.totals|
    requires forall q :: 0 <= q < |powers| ==> |powers[q]| == |x.totals|
    requires forall c :: 0 <= c < |samples| ==> |samples[c]| == count
    requires forall c :: 0 <= c < |samples| ==>
               Times(slot, SumTo(samples[c], |samples[c]|)) == ComponentEnergy(intervals, powers, |intervals|, c)
    ensures SameHeat(x, intervals, powers, slot, CellValues(x, samples, count, i), i)
  {
    hide AllocationOk, Times, ComponentEnergy, Exported, EventEnergy, CellWeight, PowerOk;
    EventsOnCell(x, intervals, powers, |intervals|, 0, i);
    var values, weight, owner := CellValues(x, samples, count, i), CellWeight(x, i), x.mesh.cells[i].owner;
    if owner.Some? && owner.value < |samples| {
      WeightedSum(values, samples[owner.value], weight, count);
      TimesRegroup(slot, SumTo(samples[owner.value], count), weight);
    } else {
      ZeroSum(values, count);
      TimesZero(slot);
      NoPower(weight);
    }
  }

  lemma TimesRegroup(a: real, b: real, c: real)
    ensures Times(a, Times(b, c)) == Times(Times(a, b), c)
  {
  }
}

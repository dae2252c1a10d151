/** Handing component power to the back ends: activities on cells, and samples on slots. */
module RcExport {
  import opened Wrappers
  import opened RcNetwork
  import opened RcTheory
  import opened RcRunner
  import opened RcRun
  import opened Grid
  import opened GridBuild
  import opened PowerIr

  /** Components with their cells, and the volume of their boxes. */
  datatype Allocation = Allocation(mesh: Mesh, totals: Vec)

  ghost predicate AllocationOk(x: Allocation) {
    && |x.mesh.owned| == |x.totals| && MeshOk(x.mesh) && CellsPositive(x.mesh)
    && forall c :: 0 <= c < |x.totals| ==> TotalOk(x, c)
  }

  /** The component's cells fill its volume. */
  ghost predicate TotalOk(x: Allocation, c: nat)
    requires c < |x.totals| == |x.mesh.owned|
  {
    x.totals[c] > 0.0 && ListVolume(x.mesh.cells, x.mesh.owned[c], |x.mesh.owned[c]|) == x.totals[c]
  }

  /** What the discretization of separate boxes on the planes yields. */
  lemma DiscretizedIsAllocated(components: seq<Box>, mesh: Mesh)
    requires |mesh.owned| == |components| && MeshOk(mesh) && CellsPositive(mesh)
    requires forall c :: 0 <= c < |components| ==> Product(components[c]) > 0.0
    requires forall c :: 0 <= c < |components| ==> ListVolume(mesh.cells, mesh.owned[c], |mesh.owned[c]|) == Product(components[c])
    ensures AllocationOk(Allocation(mesh, seq(|components|, c requires 0 <= c < |components| => Product(components[c]))))
  {
    var x := Allocation(mesh, seq(|components|, c requires 0 <= c < |components| => Product(components[c])));
    forall c | 0 <= c < |x.totals| ensures TotalOk(x, c) {
    }
  }

  // ---------------------------------------------------------------- one activity

  /** The part of the component's power that falls on its `j`-th cell. */
  function Part(x: Allocation, c: nat, j: nat): real
    requires c < |x.totals| == |x.mesh.owned| && x.totals[c] > 0.0 && j < |x.mesh.owned[c]|
  {
    VolumeAt(x.mesh.cells, x.mesh.owned[c][j]) / x.totals[c]
  }

  /** Parts of the first `j` cells that are cell `i`. */
  function Share(x: Allocation, c: nat, j: nat, i: nat): real
    requires c < |x.totals| == |x.mesh.owned| && x.totals[c] > 0.0 && j <= |x.mesh.owned[c]|
  {
    if j == 0 then 0.0 else Share(x, c, j - 1, i) + if x.mesh.owned[c][j - 1] == i then Part(x, c, j - 1) else 0.0
  }

  function PartsTotal(x: Allocation, c: nat, j: nat): real
    requires c < |x.totals| == |x.mesh.owned| && x.totals[c] > 0.0 && j <= |x.mesh.owned[c]|
  {
    if j == 0 then 0.0 else PartsTotal(x, c, j - 1) + Part(x, c, j - 1)
  }

  lemma QuotientSum(a: real, b: real, t: real)
    requires t > 0.0
    ensures (a + b) / t == a / t + b / t
  {
  }

  lemma {:induction false} PartsTotalIs(x: Allocation, c: nat, j: nat)
    requires c < |x.totals| == |x.mesh.owned| && x.totals[c] > 0.0 && j <= |x.mesh.owned[c]|
    ensures PartsTotal(x, c, j) == ListVolume(x.mesh.cells, x.mesh.owned[c], j) / x.totals[c]
  {
    if j > 0 {
      PartsTotalIs(x, c, j - 1);
      QuotientSum(ListVolume(x.mesh.cells, x.mesh.owned[c], j - 1), VolumeAt(x.mesh.cells, x.mesh.owned[c][j - 1]), x.totals[c]);
    }
  }

  /** The parts of a component sum to one, so splitting it over its cells loses nothing. */
  lemma PartsSumToOne(x: Allocation, c: nat)
    requires c < |x.totals| == |x.mesh.owned| && TotalOk(x, c)
    ensures x.totals[c] > 0.0 && PartsTotal(x, c, |x.mesh.owned[c]|) == 1.0
  {
    PartsTotalIs(x, c, |x.mesh.owned[c]|);
    SelfQuotient(x.totals[c]);
  }

  lemma SelfQuotient(t: real)
    requires t != 0.0
    ensures t / t == 1.0
  {
  }

  lemma ShareIsNotNegative(x: Allocation, c: nat, j: nat, i: nat)
    requires AllocationOk(x) && c < |x.totals| && j <= |x.mesh.owned[c]|
    ensures x.totals[c] > 0.0 && Share(x, c, j, i) >= 0.0
  {
    assert TotalOk(x, c);
    if j > 0 {
      ShareIsNotNegative(x, c, j - 1, i);
      assert ListOk(x.mesh, c);
      var v := VolumeAt(x.mesh.cells, x.mesh.owned[c][j - 1]);
      PositiveQuotient(v, x.totals[c]);
    }
  }

  /** Energy of the cells: power times duration times volume over total volume. */
  function Assigned(x: Allocation, c: nat, power: real, duration: real): (s: seq<Assignment>)
    requires c < |x.totals| == |x.mesh.owned| && x.totals[c] > 0.0
    ensures |s| == |x.mesh.owned[c]|
  {
    seq(|x.mesh.owned[c]|, j requires 0 <= j < |x.mesh.owned[c]| =>
      Assignment(x.mesh.owned[c][j], EnergyShare(power, duration, VolumeAt(x.mesh.cells, x.mesh.owned[c][j]), x.totals[c])))
  }

  function EnergyShare(power: real, duration: real, volume: real, total: real): real
    requires total > 0.0
  {
    power * duration * volume / total
  }

  function ActivityFor(x: Allocation, c: nat, id: nat, start: real, end: real, power: real): Activity
    requires c < |x.totals| == |x.mesh.owned| && x.totals[c] > 0.0
  {
    Activity(id, start, end, end, Assigned(x, c, power, end - start))
  }

  lemma CellEnergy(power: real, duration: real, volume: real, total: real)
    requires total > 0.0 && duration > 0.0
    ensures EnergyShare(power, duration, volume, total) == Times(Times(power, duration), volume / total)
    ensures EnergyShare(power, duration, volume, total) / duration == Times(power, volume / total)
  {
    var part := volume / total;
    assert part * total == volume;
    assert power * duration * volume == (power * duration * part) * total;
    assert power * duration * volume / total == power * duration * part;
    assert power * duration * part == (power * part) * duration;
  }

  lemma {:induction false} EnergyOfActivity(x: Allocation, c: nat, id: nat, start: real, end: real, power: real, j: nat)
    requires c < |x.totals| == |x.mesh.owned| && x.totals[c] > 0.0 && start < end && j <= |x.mesh.owned[c]|
    ensures EnergyOf(ActivityFor(x, c, id, start, end, power), j) == Times(Times(power, end - start), PartsTotal(x, c, j))
  {
    hide Times, EnergyShare;
    var e := Times(power, end - start);
    if j == 0 {
      TimesZero(e);
    } else {
      EnergyOfActivity(x, c, id, start, end, power, j - 1);
      CellEnergy(power, end - start, VolumeAt(x.mesh.cells, x.mesh.owned[c][j - 1]), x.totals[c]);
      TimesSum(e, PartsTotal(x, c, j - 1), Part(x, c, j - 1));
    }
  }

  /** An activity declares exactly the energy of its component in its interval. */
  lemma ActivityEnergy(x: Allocation, c: nat, id: nat, start: real, end: real, power: real)
    requires c < |x.totals| == |x.mesh.owned| && TotalOk(x, c) && start < end
    ensures x.totals[c] > 0.0
    ensures EnergyOf(ActivityFor(x, c, id, start, end, power), |x.mesh.owned[c]|) == Times(power, end - start)
  {
    PartsSumToOne(x, c);
    EnergyOfActivity(x, c, id, start, end, power, |x.mesh.owned[c]|);
    TimesOne(Times(power, end - start));
  }

  /** While it lasts it puts the component's power on its cells by their shares. */
  lemma {:induction false} PowerOfActivity(x: Allocation, c: nat, id: nat, start: real, end: real, power: real, j: nat, i: nat)
    requires c < |x.totals| == |x.mesh.owned| && x.totals[c] > 0.0 && start < end && j <= |x.mesh.owned[c]|
    ensures AssignedPower(ActivityFor(x, c, id, start, end, power), end - start, j, i) == Times(power, Share(x, c, j, i))
  {
    hide Times, EnergyShare;
    if j == 0 {
      TimesZero(power);
    } else {
      PowerOfActivity(x, c, id, start, end, power, j - 1, i);
      CellEnergy(power, end - start, VolumeAt(x.mesh.cells, x.mesh.owned[c][j - 1]), x.totals[c]);
      TimesSum(power, Share(x, c, j - 1, i), Part(x, c, j - 1));
    }
  }

  lemma ActivityIsOk(x: Allocation, c: nat, id: nat, start: real, end: real, power: real)
    requires AllocationOk(x) && c < |x.totals| && 0.0 <= start < end && power >= 0.0
    ensures x.totals[c] > 0.0 && ActivityOk(ActivityFor(x, c, id, start, end, power), |x.mesh.cells|)
  {
    assert TotalOk(x, c) && ListOk(x.mesh, c);
    var a := ActivityFor(x, c, id, start, end, power);
    forall j | 0 <= j < |a.nodeEnergy| ensures a.nodeEnergy[j].node < |x.mesh.cells| && a.nodeEnergy[j].energy >= 0.0 {
      CellEnergy(power, end - start, VolumeAt(x.mesh.cells, x.mesh.owned[c][j]), x.totals[c]);
      PositiveQuotient(VolumeAt(x.mesh.cells, x.mesh.owned[c][j]), x.totals[c]);
      TimesSign(power, end - start);
      TimesSign(Times(power, end - start), Part(x, c, j));
    }
    assert a.nodeEnergy != [] by {
      assert |x.mesh.owned[c]| > 0;
    }
  }
}

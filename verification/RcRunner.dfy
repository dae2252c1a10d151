/** The sparse implicit-Euler runner: matrix assembly, steady envelope, slot powers and the stepping loop. */
module RcRunner {
  import opened Wrappers
  import opened RcNetwork
  import opened RcTheory
  import opened RcGround

  datatype Assignment = Assignment(node: nat, energy: real)
  datatype Activity = Activity(id: nat, start: real, end: real, completion: real, nodeEnergy: seq<Assignment>)
  datatype Options = Options(step: real, slot: real, end: real, sample: real, minK: real, maxK: real)
  datatype Schedule = Schedule(stepsPerSlot: pos, slotCount: pos, stepsPerSample: pos, sampleCount: pos)

  predicate ValidOptions(o: Options) {
    o.step > 0.0 && o.slot > 0.0 && o.end > 0.0 && o.sample > 0.0 && 0.0 < o.minK < o.maxK
  }

  /** What reading an event file guarantees. */
  predicate ActivityOk(a: Activity, n: nat) {
    && 0.0 <= a.start < a.end <= a.completion && a.nodeEnergy != []
    && forall i :: 0 <= i < |a.nodeEnergy| ==> a.nodeEnergy[i].node < n && a.nodeEnergy[i].energy >= 0.0
  }

  ghost predicate ValidActivities(activities: seq<Activity>, n: nat) {
    forall i :: 0 <= i < |activities| ==> ActivityOk(activities[i], n)
  }

  // ---------------------------------------------------------------- assembly

  method AssembleEdges(m: Network, ghost diagonal: Vec, start: seq<Triplet>) returns (entries: seq<Triplet>)
    requires start == DiagonalEntries(diagonal, |diagonal|)
    ensures entries == MatrixEntries(m, diagonal, |m.edges|)
  {
    entries := start;
    for k := 0 to |m.edges|
      invariant entries == MatrixEntries(m, diagonal, k)
    {
      var e := m.edges[k];
      if IsActive(m, e) {
        ghost var before := entries;
        entries := entries + [Triplet(e.a, e.a, e.g)];
        entries := entries + [Triplet(e.b, e.b, e.g)];
        entries := entries + [Triplet(e.a, e.b, -e.g)];
        entries := entries + [Triplet(e.b, e.a, -e.g)];
        assert entries == before + FourEntries(e);
      }
    }
  }

  /** `capacity / step + boundary` on the diagonal, conductances off it. */
  method SystemMatrix(m: Network, step: real) returns (entries: seq<Triplet>)
    requires step > 0.0
    ensures entries == MatrixEntries(m, SystemDiagonal(m, step), |m.edges|)
    ensures ValidNetwork(m) ==> SystemRows(m, step, entries)
  {
    hide SystemRows;
    entries := [];
    for i := 0 to |m.nodes|
      invariant entries == DiagonalEntries(SystemDiagonal(m, step), i)
    {
      entries := entries + [Triplet(i, i, m.nodes[i].capacity / step + m.nodes[i].boundaryG)];
    }
    entries := AssembleEdges(m, SystemDiagonal(m, step), entries);
    if ValidNetwork(m) {
      SystemRowsHold(m, step);
    }
  }

  /** Every row is `capacity / step + boundary` times the node's temperature plus the heat that leaves the node. */
  ghost predicate SystemRows(m: Network, step: real, entries: seq<Triplet>)
    requires step > 0.0
  {
    forall x: Vec, r :: |x| == |m.nodes| && 0 <= r < |x| ==>
      && Fits(m, x) && Square(entries, |x|)
      && Row(entries, x, r) == (m.nodes[r].capacity / step + m.nodes[r].boundaryG) * x[r] + HeatOut(m, |m.edges|, x, r)
  }

  lemma SystemRowsHold(m: Network, step: real)
    requires ValidNetwork(m) && step > 0.0
    ensures SystemRows(m, step, MatrixEntries(m, SystemDiagonal(m, step), |m.edges|))
  {
    hide MatrixEntries, Row, HeatOut, Fits, Square;
    var entries := MatrixEntries(m, SystemDiagonal(m, step), |m.edges|);
    forall x: Vec, r | |x| == |m.nodes| && 0 <= r < |x|
      ensures Fits(m, x) && Square(entries, |x|)
      ensures Row(entries, x, r) == (m.nodes[r].capacity / step + m.nodes[r].boundaryG) * x[r] + HeatOut(m, |m.edges|, x, r)
    {
      RowOnFields(m, SystemDiagonal(m, step), x, r);
    }
  }

  /** The same without the capacity. */
  ghost predicate SteadyRows(m: Network, entries: seq<Triplet>) {
    forall x: Vec, r :: |x| == |m.nodes| && 0 <= r < |x| ==> SteadyRow(m, entries, x, r)
  }

  ghost predicate SteadyRow(m: Network, entries: seq<Triplet>, x: Vec, r: nat)
    requires |x| == |m.nodes| && r < |x|
  {
    && Fits(m, x) && Square(entries, |x|)
    && Row(entries, x, r) == m.nodes[r].boundaryG * x[r] + HeatOut(m, |m.edges|, x, r)
  }

  lemma SteadyRowsHold(m: Network)
    requires ValidNetwork(m)
    ensures SteadyRows(m, MatrixEntries(m, SteadyDiagonal(m), |m.edges|))
  {
    hide MatrixEntries, Row, HeatOut, Fits, Square;
    var entries := MatrixEntries(m, SteadyDiagonal(m), |m.edges|);
    forall x: Vec, r | |x| == |m.nodes| && 0 <= r < |x|
      ensures SteadyRow(m, entries, x, r)
    {
      RowOnFields(m, SteadyDiagonal(m), x, r);
    }
  }

  /** `None` is the refusal of a network without heat rejection. */
  method SteadyMatrix(m: Network) returns (entries: Option<seq<Triplet>>)
    requires ValidNetwork(m)
    ensures entries.Some? ==> entries.value == MatrixEntries(m, SteadyDiagonal(m), |m.edges|)
    ensures entries.Some? <==> exists i :: 0 <= i < |m.nodes| && m.nodes[i].boundaryG > 0.0
    ensures entries.Some? ==> SteadyRows(m, entries.value)
  {
    hide SteadyRows;
    var built := [];
    var total := 0.0;
    for i := 0 to |m.nodes|
      invariant built == DiagonalEntries(SteadyDiagonal(m), i)
      invariant total >= 0.0 && (total > 0.0 <==> exists k :: 0 <= k < i && m.nodes[k].boundaryG > 0.0)
    {
      assert NodeOk(m.nodes[i]);
      built := built + [Triplet(i, i, m.nodes[i].boundaryG)];
      total := total + m.nodes[i].boundaryG;
    }
    if total <= 0.0 {
      return None;
    }
    built := AssembleEdges(m, SteadyDiagonal(m), built);
    SteadyRowsHold(m);
    entries := Some(built);
  }

  /** Factorize and solve; `None` is a factorization that fails. */
  type Solver = (seq<Triplet>, Vec) -> Option<Vec>

  /** An exact solver fails exactly on a singular matrix; otherwise its answer satisfies every row. */
  ghost predicate Exact(solve: Solver, entries: seq<Triplet>, n: nat) {
    forall rhs :: |rhs| == n ==>
      && (solve(entries, rhs).None? <==> Singular(entries, n))
      && (solve(entries, rhs).Some? ==> Solves(entries, solve(entries, rhs).value, rhs))
  }

  lemma SolvedRow(m: Network, diagonal: Vec, x: Vec, rhs: Vec, r: nat)
    requires Fits(m, x) && |diagonal| == |x| && r < |x|
    requires Solves(MatrixEntries(m, diagonal, |m.edges|), x, rhs)
    ensures Operator(m, diagonal, x, r) == rhs[r]
  {
    RowOfMatrix(m, diagonal, |m.edges|, x, r);
  }

  lemma FitsBySize(m: Network, x: Vec)
    requires ValidNetwork(m) && |x| == |m.nodes|
    ensures Fits(m, x)
  {
    assert forall i :: 0 <= i < |m.edges| ==> EdgeOk(m.edges[i], |m.nodes|);
  }

  // ---------------------------------------------------------------- steady envelope

  /** Sum over the first `j` assignments to node `i` of energy over duration. */
  function AssignedPower(a: Activity, duration: real, j: nat, i: nat): real
    requires duration > 0.0 && j <= |a.nodeEnergy|
  {
    if j == 0 then 0.0
    else AssignedPower(a, duration, j - 1, i)
         + if a.nodeEnergy[j - 1].node == i then a.nodeEnergy[j - 1].energy / duration else 0.0
  }

  /** Power the first `k` cap activities put on node `i`. */
  function CapPower(activities: seq<Activity>, k: nat, i: nat): real
    requires k <= |activities| && forall q :: 0 <= q < k ==> activities[q].end > activities[q].start
  {
    if k == 0 then 0.0
    else
      var a := activities[k - 1];
      CapPower(activities, k - 1, i) + AssignedPower(a, a.end - a.start, |a.nodeEnergy|, i)
  }

  /** Some activity puts heat on some node. */
  ghost predicate Heats(activities: seq<Activity>) {
    exists q :: 0 <= q < |activities| && HeatsBy(activities[q], |activities[q].nodeEnergy|)
  }

  ghost predicate HeatsBy(a: Activity, j: nat) {
    exists i :: 0 <= i < j <= |a.nodeEnergy| && a.nodeEnergy[i].energy > 0.0
  }

  ghost predicate HeatsUpTo(activities: seq<Activity>, k: nat) {
    exists q :: 0 <= q < k <= |activities| && HeatsBy(activities[q], |activities[q].nodeEnergy|)
  }

  lemma HeatsNext(a: Activity, j: nat)
    requires j < |a.nodeEnergy|
    ensures HeatsBy(a, j + 1) <==> HeatsBy(a, j) || a.nodeEnergy[j].energy > 0.0
  {
    if HeatsBy(a, j) {
      var i :| 0 <= i < j && a.nodeEnergy[i].energy > 0.0;
      assert a.nodeEnergy[i].energy > 0.0;
    }
  }

  lemma HeatsMore(activities: seq<Activity>, k: nat)
    requires k < |activities|
    ensures HeatsUpTo(activities, k + 1) <==> HeatsUpTo(activities, k) || HeatsBy(activities[k], |activities[k].nodeEnergy|)
  {
    hide HeatsBy;
    if HeatsUpTo(activities, k) {
      var q :| 0 <= q < k && HeatsBy(activities[q], |activities[q].nodeEnergy|);
      assert HeatsBy(activities[q], |activities[q].nodeEnergy|);
    }
  }

  method CapPowers(activities: seq<Activity>, n: nat) returns (cap: Vec, total: real)
    requires ValidActivities(activities, n)
    ensures |cap| == n && forall i :: 0 <= i < n ==>
              (forall q :: 0 <= q < |activities| ==> activities[q].end > activities[q].start)
              && cap[i] == CapPower(activities, |activities|, i)
    ensures total == SumTo(cap, n) && (total > 0.0 <==> Heats(activities))
    ensures forall i :: 0 <= i < n ==> cap[i] >= 0.0
  {
    hide HeatsBy, HeatsUpTo;
    NoneHeats(activities);
    cap := seq(n, _ => 0.0);
    total := 0.0;
    ZeroSum(cap, n);
    assert forall q :: 0 <= q < |activities| ==> ActivityOk(activities[q], n);
    for k := 0 to |activities|
      invariant |cap| == n && forall i :: 0 <= i < n ==> cap[i] == CapPower(activities, k, i)
      invariant total == SumTo(cap, n)
      invariant total >= 0.0 && (total > 0.0 <==> HeatsUpTo(activities, k)) && forall i :: 0 <= i < n ==> cap[i] >= 0.0
    {
      HeatsMore(activities, k);
      NoneHeatsBy(activities[k]);
      ghost var before := total;
      var a := activities[k];
      var duration := a.end - a.start;
      for j := 0 to |a.nodeEnergy|
        invariant |cap| == n
        invariant forall i :: 0 <= i < n ==> cap[i] == CapPower(activities, k, i) + AssignedPower(a, duration, j, i)
        invariant total == SumTo(cap, n) && forall i :: 0 <= i < n ==> cap[i] >= 0.0
        invariant total >= before && (total > before <==> HeatsBy(a, j))
      {
        HeatsNext(a, j);
        assert ActivityOk(a, n);
        var node := a.nodeEnergy[j].node;
        var power := a.nodeEnergy[j].energy / duration;
        QuotientSign(a.nodeEnergy[j].energy, duration);
        SumOfUpdate(cap, node, cap[node] + power, n);
        cap := cap[node := cap[node] + power];
        total := total + power;
      }
    }
  }

  lemma NoneHeats(activities: seq<Activity>)
    ensures !HeatsUpTo(activities, 0) && (HeatsUpTo(activities, |activities|) <==> Heats(activities))
  {
  }

  lemma NoneHeatsBy(a: Activity)
    ensures !HeatsBy(a, 0)
  {
  }

  lemma QuotientSign(a: real, b: real)
    requires a >= 0.0 && b > 0.0
    ensures a / b >= 0.0 && (a / b > 0.0 <==> a > 0.0)
  {
    assert a == (a / b) * b;
  }

  lemma {:induction false} ZeroSum(v: Vec, k: nat)
    requires k <= |v| && forall i :: 0 <= i < |v| ==> v[i] == 0.0
    ensures SumTo(v, k) == 0.0
  {
    if k > 0 {
      ZeroSum(v, k - 1);
    }
  }

  lemma {:induction false} SumOfUpdate(v: Vec, i: nat, value: real, k: nat)
    requires i < |v| && k <= |v|
    ensures SumTo(v[i := value], k) == SumTo(v, k) + if i < k then value - v[i] else 0.0
  {
    if k > 0 {
      SumOfUpdate(v, i, value, k - 1);
    }
  }

  const ALPHAS: seq<real> := [1.0, 0.75, 0.5, 0.25]

  predicate AllWithin(x: Vec, limit: real) {
    forall i :: 0 <= i < |x| ==> x[i] <= limit
  }

  predicate Covers(m: Network, envelope: Vec) {
    |envelope| == |m.nodes| && forall i :: 0 <= i < |envelope| ==> m.nodes[i].initial <= envelope[i]
  }

  /** A candidate is eligible when its envelope stays within the limit and covers the initial state. */
  predicate Eligible(m: Network, fixed: Vec, rise: Vec, alpha: real, limit: real)
    requires |fixed| == |rise|
  {
    AllWithin(Combine(fixed, alpha, rise), limit) && Covers(m, Combine(fixed, alpha, rise))
  }

  /** With the factor `alpha` the envelope covers every initial temperature and is nowhere above the limit. */
  ghost predicate Admissible(m: Network, fixed: Vec, rise: Vec, alpha: real, limit: real) {
    && |fixed| == |rise| == |m.nodes|
    && forall i :: 0 <= i < |m.nodes| ==> m.nodes[i].initial <= fixed[i] + alpha * rise[i] <= limit
  }

  /** The first admissible of 1, 3/4, 1/2 and 1/4, if any. */
  ghost predicate IsChoice(m: Network, fixed: Vec, rise: Vec, limit: real, selected: Option<real>) {
    selected == if Admissible(m, fixed, rise, 1.0, limit) then Some(1.0)
                else if Admissible(m, fixed, rise, 0.75, limit) then Some(0.75)
                else if Admissible(m, fixed, rise, 0.5, limit) then Some(0.5)
                else if Admissible(m, fixed, rise, 0.25, limit) then Some(0.25)
                else None
  }

  lemma EligibleIsAdmissible(m: Network, fixed: Vec, rise: Vec, alpha: real, limit: real)
    requires |fixed| == |rise|
    ensures Eligible(m, fixed, rise, alpha, limit) <==> Admissible(m, fixed, rise, alpha, limit)
  {
    var x := Combine(fixed, alpha, rise);
    forall i | 0 <= i < |x| ensures x[i] == fixed[i] + alpha * rise[i] {
    }
  }

  lemma SelectedIsChoice(m: Network, r: EnvelopeResult, limit: real)
    requires EnvelopeOk(m, r, limit) && r.EnvelopeFound?
    ensures IsChoice(m, r.fixed, r.rise, limit, r.selected)
  {
    hide Eligible, Admissible, IsSteady;
    SteadySizes(m, FixedSources(m), r.fixed);
    SteadySizes(m, r.cap, r.rise);
    EligibleIsAdmissible(m, r.fixed, r.rise, ALPHAS[0], limit);
    EligibleIsAdmissible(m, r.fixed, r.rise, ALPHAS[1], limit);
    EligibleIsAdmissible(m, r.fixed, r.rise, ALPHAS[2], limit);
    EligibleIsAdmissible(m, r.fixed, r.rise, ALPHAS[3], limit);
    if r.selected.Some? {
      var k :| SelectedAt(m, r, limit, k);
      assert k == 0 || k == 1 || k == 2 || k == 3;
    }
  }

  datatype EnvelopeResult =
    | EnvelopeRefused
    | EnvelopeFound(selected: Option<real>, fixed: Vec, rise: Vec, cap: Vec)

  ghost predicate EnvelopeOk(m: Network, r: EnvelopeResult, limit: real) {
    r.EnvelopeFound? ==>
      && IsSteady(m, FixedSources(m), r.fixed) && IsSteady(m, r.cap, r.rise)
      && (forall i :: 0 <= i < |r.rise| ==> r.rise[i] >= 0.0) && (forall i :: 0 <= i < |r.cap| ==> r.cap[i] >= 0.0)
      && (r.selected.Some? ==> exists k :: SelectedAt(m, r, limit, k))
      && (r.selected.None? ==> forall k :: 0 <= k < 4 ==> !Eligible(m, r.fixed, r.rise, ALPHAS[k], limit))
  }

  /** The selected factor is candidate `k` and every larger candidate is ineligible. */
  ghost predicate SelectedAt(m: Network, r: EnvelopeResult, limit: real, k: int)
    requires r.EnvelopeFound? && r.selected.Some? && |r.fixed| == |r.rise|
  {
    && 0 <= k < 4 && r.selected.value == ALPHAS[k] && Eligible(m, r.fixed, r.rise, ALPHAS[k], limit)
    && forall q :: 0 <= q < k ==> !Eligible(m, r.fixed, r.rise, ALPHAS[q], limit)
  }

  method SelectAlpha(m: Network, fixed: Vec, rise: Vec, ghost cap: Vec, limit: real) returns (selected: Option<real>)
    requires |fixed| == |rise|
    ensures selected.Some? ==> exists k :: SelectedAt(m, EnvelopeFound(selected, fixed, rise, cap), limit, k)
    ensures selected.None? ==> forall k :: 0 <= k < 4 ==> !Eligible(m, fixed, rise, ALPHAS[k], limit)
  {
    hide Eligible;
    selected := None;
    ghost var chosen := 0;
    for k := 0 to 4
      invariant selected.None? ==> forall q :: 0 <= q < k ==> !Eligible(m, fixed, rise, ALPHAS[q], limit)
      invariant selected.Some? ==> SelectedAt(m, EnvelopeFound(selected, fixed, rise, cap), limit, chosen)
    {
      if selected.None? && Eligible(m, fixed, rise, ALPHAS[k], limit) {
        selected := Some(ALPHAS[k]);
        chosen := k;
      }
    }
  }

  /**
   Predict the largest candidate factor whose steady envelope is admissible.  Refused exactly when the caps
   heat nothing or some nodes are cut off from every boundary; the check that the rise is nonnegative cannot fail.
   */
  method SteadyEnvelope(m: Network, activities: seq<Activity>, limit: real, solve: Solver) returns (r: EnvelopeResult)
    requires ValidNetwork(m) && ValidActivities(activities, |m.nodes|)
    requires Exact(solve, MatrixEntries(m, SteadyDiagonal(m), |m.edges|), |m.nodes|)
    ensures EnvelopeOk(m, r, limit)
    ensures r.EnvelopeFound? ==> IsChoice(m, r.fixed, r.rise, limit, r.selected)
    ensures r.EnvelopeRefused? <==> !Heats(activities) || !Grounded(m)
    ensures r.EnvelopeFound? ==> |r.cap| == |m.nodes| && forall i :: 0 <= i < |r.cap| ==>
              (forall q :: 0 <= q < |activities| ==> activities[q].end > activities[q].start)
              && r.cap[i] == CapPower(activities, |activities|, i)
  {
    hide Grounded, Heats, Singular, Solves, MatrixEntries, SteadyRows;
    var n := |m.nodes|;
    var cap, total := CapPowers(activities, n);
    if total <= 0.0 {
      return EnvelopeRefused;
    }
    SingularIffNotGrounded(m);
    var matrix := SteadyMatrix(m);
    if matrix.None? {
      NoBoundaryIsNotGrounded(m);
      return EnvelopeRefused;
    }
    var fixed := solve(matrix.value, FixedSources(m));
    var rise := solve(matrix.value, cap);
    if fixed.None? || rise.None? {
      return EnvelopeRefused;
    }
    SolutionIsSteady(m, FixedSources(m), fixed.value);
    SolutionIsSteady(m, cap, rise.value);
    RiseIsNonnegative(m, cap, rise.value);
    if exists i :: 0 <= i < |rise.value| && rise.value[i] < 0.0 {
      assert false;
    }
    var selected := SelectAlpha(m, fixed.value, rise.value, cap, limit);
    r := EnvelopeFound(selected, fixed.value, rise.value, cap);
    SelectedIsChoice(m, r, limit);
    hide IsChoice;
  }

  /** Caps only heat, so in a grounded network they cool no node. */
  lemma RiseIsNonnegative(m: Network, cap: Vec, rise: Vec)
    requires ValidNetwork(m) && Grounded(m) && IsSteady(m, cap, rise) && forall i :: 0 <= i < |cap| ==> cap[i] >= 0.0
    ensures forall i :: 0 <= i < |rise| ==> rise[i] >= 0.0
  {
    hide Operator, Grounded;
    SteadyIsNonnegative(m, rise);
  }

  lemma SolutionIsSteady(m: Network, source: Vec, x: Vec)
    requires ValidNetwork(m) && |source| == |m.nodes| && Solves(MatrixEntries(m, SteadyDiagonal(m), |m.edges|), x, source)
    ensures IsSteady(m, source, x)
  {
    FitsBySize(m, x);
    forall r | 0 <= r < |x| ensures Operator(m, SteadyDiagonal(m), x, r) == source[r] {
      SolvedRow(m, SteadyDiagonal(m), x, source, r);
    }
  }

  /** If the envelope was found, every run within the scaled cap stays below the envelope and below the limit. */
  lemma PredictedEnvelopeHolds(m: Network, r: EnvelopeResult, limit: real,
                               step: real, powers: seq<Vec>, trace: seq<Vec>, k: nat, i: nat)
    requires ValidNetwork(m) && EnvelopeOk(m, r, limit) && r.EnvelopeFound? && r.selected.Some?
    requires step > 0.0 && IsTrace(m, step, powers, trace) && k < |trace| && i < |m.nodes|
    requires forall q :: 0 <= q < |powers| ==> WithinCap(powers[q], r.selected.value, r.cap)
    ensures |trace[k]| == |m.nodes| && trace[k][i] <= Combine(r.fixed, r.selected.value, r.rise)[i] <= limit
  {
    var chosen :| SelectedAt(m, r, limit, chosen);
    var envelope := Combine(r.fixed, r.selected.value, r.rise);
    assert Covers(m, envelope) && AllWithin(envelope, limit);
    assert Below(Initial(m), envelope);
    EnvelopeDominates(m, step, powers, trace, k, r.fixed, r.rise, r.cap, r.selected.value);
  }
}

/** Implicit-Euler steps of the network: energy balance, envelope domination, lower bound, uniqueness. */
module RcTheory {
  import opened RcNetwork

  // ---------------------------------------------------------------- steps

  /** Static source plus the boundary's pull towards its own temperature. */
  function FixedSource(node: Node): real {
    node.staticPower + Times(node.boundaryG, node.boundaryT)
  }

  /** Backward Euler at node `r`: capacity, boundary and edge terms at the new temperatures. */
  ghost predicate StepAt(m: Network, step: real, power: Vec, before: Vec, after: Vec, r: nat)
    requires step > 0.0 && Fits(m, before) && Fits(m, after) && |power| == |before| && r < |before|
  {
    Operator(m, SystemDiagonal(m, step), after, r)
    == Times(m.nodes[r].capacity / step, before[r]) + FixedSource(m.nodes[r]) + power[r]
  }

  ghost predicate IsStep(m: Network, step: real, power: Vec, before: Vec, after: Vec)
    requires step > 0.0
  {
    && Fits(m, before) && Fits(m, after) && |power| == |before|
    && forall r :: 0 <= r < |before| ==> StepAt(m, step, power, before, after, r)
  }

  /**
   What a step means at one node: the heat it stores is its static power and its activity power, less what it gives
   to the boundary and to its neighbours, all at the new temperatures.
   */
  ghost predicate NodeBalances(m: Network, step: real, power: Vec, before: Vec, after: Vec, r: nat)
    requires step > 0.0 && Fits(m, after) && |power| == |before| == |after| && r < |after|
  {
    var node := m.nodes[r];
    node.capacity / step * (after[r] - before[r])
    == node.staticPower + power[r] - node.boundaryG * (after[r] - node.boundaryT) - HeatOut(m, |m.edges|, after, r)
  }

  lemma StepIsBalance(m: Network, step: real, power: Vec, before: Vec, after: Vec)
    requires ValidNetwork(m) && step > 0.0 && |power| == |before| == |after| == |m.nodes|
    ensures Fits(m, before) && Fits(m, after)
    ensures IsStep(m, step, power, before, after) <==>
              forall r :: 0 <= r < |after| ==> NodeBalances(m, step, power, before, after, r)
  {
    assert forall i :: 0 <= i < |m.edges| ==> EdgeOk(m.edges[i], |m.nodes|);
    forall r | 0 <= r < |after| ensures StepAt(m, step, power, before, after, r) <==> NodeBalances(m, step, power, before, after, r) {
      FlowIsHeatOut(m, |m.edges|, after, r);
      var node := m.nodes[r];
      BalanceTerms(node.capacity / step, node.boundaryG, before[r], after[r], node.boundaryT);
    }
  }

  lemma BalanceTerms(rate: real, g: real, before: real, after: real, boundary: real)
    ensures Times(rate + g, after) == rate * after + g * after && Times(rate, before) == rate * before
    ensures rate * (after - before) == rate * after - rate * before && g * (after - boundary) == g * after - g * boundary
    ensures Times(g, boundary) == g * boundary
  {
  }

  function Initial(m: Network): Vec {
    seq(|m.nodes|, i requires 0 <= i < |m.nodes| => m.nodes[i].initial)
  }

  /** `trace[k]` is the temperature field after `k` steps under the given power of each step. */
  ghost predicate IsTrace(m: Network, step: real, powers: seq<Vec>, trace: seq<Vec>)
    requires step > 0.0
  {
    && |trace| == |powers| + 1 && trace[0] == Initial(m)
    && forall k :: 0 <= k < |powers| ==> IsStep(m, step, powers[k], trace[k], trace[k + 1])
  }

  ghost predicate StepBalances(m: Network, step: real, power: Vec, before: Vec, after: Vec)
    requires step > 0.0
  {
    && Fits(m, after) && |power| == |before| == |after|
    && forall r :: 0 <= r < |after| ==> NodeBalances(m, step, power, before, after, r)
  }

  /** From the initial temperatures on, every step balances at every node. */
  ghost predicate BalancedTrace(m: Network, step: real, powers: seq<Vec>, trace: seq<Vec>)
    requires step > 0.0
  {
    && |trace| == |powers| + 1 && |trace[0]| == |m.nodes|
    && (forall i :: 0 <= i < |m.nodes| ==> trace[0][i] == m.nodes[i].initial)
    && forall k :: 0 <= k < |powers| ==> StepBalances(m, step, powers[k], trace[k], trace[k + 1])
  }

  lemma TraceIsBalanced(m: Network, step: real, powers: seq<Vec>, trace: seq<Vec>)
    requires ValidNetwork(m) && step > 0.0 && IsTrace(m, step, powers, trace)
    ensures BalancedTrace(m, step, powers, trace)
  {
    hide NodeBalances, ValidNetwork;
    forall k | 0 <= k < |powers| ensures StepBalances(m, step, powers[k], trace[k], trace[k + 1]) {
      assert IsStep(m, step, powers[k], trace[k], trace[k + 1]);
      StepIsBalance(m, step, powers[k], trace[k], trace[k + 1]);
    }
  }

  // ---------------------------------------------------------------- energy

  /** Energy stored above the initial state in the first `k` nodes. */
  function Stored(m: Network, x: Vec, k: nat): real
    requires k <= |m.nodes| == |x|
  {
    if k == 0 then 0.0 else Stored(m, x, k - 1) + Times(m.nodes[k - 1].capacity, x[k - 1] - m.nodes[k - 1].initial)
  }

  /** Power the first `k` nodes lose to the boundary. */
  function BoundaryPower(m: Network, x: Vec, k: nat): real
    requires k <= |m.nodes| == |x|
  {
    if k == 0 then 0.0
    else BoundaryPower(m, x, k - 1) + Times(m.nodes[k - 1].boundaryG, x[k - 1] - m.nodes[k - 1].boundaryT)
  }

  function StaticPower(m: Network, k: nat): real
    requires k <= |m.nodes|
  {
    if k == 0 then 0.0 else StaticPower(m, k - 1) + m.nodes[k - 1].staticPower
  }

  function SumTo(v: Vec, k: nat): real
    requires k <= |v|
  {
    if k == 0 then 0.0 else SumTo(v, k - 1) + v[k - 1]
  }

  /** The row equation of one node, multiplied by the step. */
  lemma NodeEnergy(capacity: real, step: real, g: real, before: real, after: real, flow: real,
                   boundary: real, fixed: real, power: real)
    requires step > 0.0
    requires Times(capacity / step + g, after) + flow == Times(capacity / step, before) + (fixed + Times(g, boundary)) + power
    ensures Times(capacity, after - before) + Times(step, Times(g, after - boundary)) + Times(step, flow)
            == Times(step, fixed) + Times(step, power)
  {
    var rate := capacity / step;
    assert capacity == rate * step;
    assert rate * (after - before) + g * (after - boundary) + flow == fixed + power;
    assert step * (rate * (after - before)) == capacity * (after - before);
    ScaleEquation(step, rate * (after - before), g * (after - boundary), flow, fixed, power);
  }

  lemma ScaleEquation(s: real, a: real, b: real, c: real, d: real, e: real)
    requires a + b + c == d + e
    ensures s * a + s * b + s * c == s * d + s * e
  {
    assert s * a + s * b + s * c == s * (a + b + c);
    assert s * d + s * e == s * (d + e);
  }

  lemma TimesSum(s: real, a: real, b: real)
    ensures Times(s, a + b) == Times(s, a) + Times(s, b)
  {
  }

  lemma StepRow(m: Network, step: real, power: Vec, before: Vec, after: Vec, r: nat)
    requires step > 0.0 && IsStep(m, step, power, before, after) && r < |before|
    ensures var node := m.nodes[r];
            Times(node.capacity, after[r] - before[r]) + Times(step, Times(node.boundaryG, after[r] - node.boundaryT))
            + Times(step, Flow(m, |m.edges|, after, r)) == Times(step, node.staticPower) + Times(step, power[r])
  {
    hide Times;
    assert StepAt(m, step, power, before, after, r);
    var node := m.nodes[r];
    NodeEnergy(node.capacity, step, node.boundaryG, before[r], after[r], Flow(m, |m.edges|, after, r),
               node.boundaryT, node.staticPower, power[r]);
  }

  lemma {:induction false} StepEnergyTo(m: Network, step: real, power: Vec, before: Vec, after: Vec, k: nat)
    requires step > 0.0 && IsStep(m, step, power, before, after) && k <= |before|
    ensures Stored(m, after, k) - Stored(m, before, k) + Times(step, BoundaryPower(m, after, k))
            + Times(step, FlowTotal(m, |m.edges|, after, k))
            == Times(step, StaticPower(m, k)) + Times(step, SumTo(power, k))
  {
    hide Times, StepAt;
    if k == 0 {
      TimesZero(step);
    } else {
      var r := k - 1;
      var node := m.nodes[r];
      StepEnergyTo(m, step, power, before, after, r);
      StepRow(m, step, power, before, after, r);
      TimesSum(step, BoundaryPower(m, after, r), Times(node.boundaryG, after[r] - node.boundaryT));
      TimesSum(step, FlowTotal(m, |m.edges|, after, r), Flow(m, |m.edges|, after, r));
      TimesSum(step, StaticPower(m, r), node.staticPower);
      TimesSum(step, SumTo(power, r), power[r]);
      assert (after[r] - node.initial) - (before[r] - node.initial) == after[r] - before[r];
      TimesMinus(node.capacity, after[r] - node.initial, before[r] - node.initial);
    }
  }

  lemma TimesZero(s: real)
    ensures Times(s, 0.0) == 0.0
  {
  }

  lemma TimesByZero(s: real)
    ensures Times(0.0, s) == 0.0
  {
  }

  /** Energy balance of one step: what is put in is stored or lost to the boundary. */
  lemma StepEnergy(m: Network, step: real, power: Vec, before: Vec, after: Vec)
    requires step > 0.0 && IsStep(m, step, power, before, after)
    ensures Stored(m, after, |after|) - Stored(m, before, |before|) + Times(step, BoundaryPower(m, after, |after|))
            == Times(step, StaticPower(m, |after|)) + Times(step, SumTo(power, |power|))
  {
    hide Times;
    StepEnergyTo(m, step, power, before, after, |after|);
    FlowConserved(m, |m.edges|, after);
    TimesZero(step);
  }

  lemma {:induction false} NothingStoredAtFirst(m: Network, k: nat)
    requires k <= |m.nodes|
    ensures Stored(m, Initial(m), k) == 0.0
  {
    if k > 0 {
      NothingStoredAtFirst(m, k - 1);
      TimesZero(m.nodes[k - 1].capacity);
    }
  }

  /** Energy lost to the boundary in the first `k` steps. */
  function LossTo(m: Network, step: real, trace: seq<Vec>, k: nat): real
    requires k < |trace| && forall i :: 0 <= i < |trace| ==> |trace[i]| == |m.nodes|
  {
    if k == 0 then 0.0 else LossTo(m, step, trace, k - 1) + Times(step, BoundaryPower(m, trace[k], |m.nodes|))
  }

  /** Activity energy applied in the first `k` steps. */
  function AppliedTo(step: real, powers: seq<Vec>, k: nat): real
    requires k <= |powers|
  {
    if k == 0 then 0.0 else AppliedTo(step, powers, k - 1) + Times(step, SumTo(powers[k - 1], |powers[k - 1]|))
  }

  /** Energy of the static sources in the first `k` steps. */
  function StaticTo(m: Network, step: real, k: nat): real {
    if k == 0 then 0.0 else StaticTo(m, step, k - 1) + Times(step, StaticPower(m, |m.nodes|))
  }

  lemma FieldSizes(m: Network, step: real, powers: seq<Vec>, trace: seq<Vec>)
    requires step > 0.0 && IsTrace(m, step, powers, trace)
    ensures forall i :: 0 <= i < |trace| ==> |trace[i]| == |m.nodes|
  {
    forall i | 0 <= i < |trace| ensures |trace[i]| == |m.nodes| {
      assert i > 0 ==> IsStep(m, step, powers[i - 1], trace[i - 1], trace[i - 1 + 1]);
    }
  }

  /** After every step of every run, stored energy plus boundary loss equals applied plus static energy. */
  lemma {:induction false} TraceEnergy(m: Network, step: real, powers: seq<Vec>, trace: seq<Vec>, k: nat)
    requires step > 0.0 && IsTrace(m, step, powers, trace) && k < |trace|
    ensures forall i :: 0 <= i < |trace| ==> |trace[i]| == |m.nodes|
    ensures Stored(m, trace[k], |m.nodes|) + LossTo(m, step, trace, k) == AppliedTo(step, powers, k) + StaticTo(m, step, k)
  {
    hide Times, IsStep;
    FieldSizes(m, step, powers, trace);
    if k == 0 {
      NothingStoredAtFirst(m, |m.nodes|);
    } else {
      TraceEnergy(m, step, powers, trace, k - 1);
      StepEnergy(m, step, powers[k - 1], trace[k - 1], trace[k - 1 + 1]);
    }
  }

  lemma {:induction false} LossOfPrefix(m: Network, step: real, trace: seq<Vec>, more: seq<Vec>, k: nat)
    requires k < |trace| && trace <= more && forall i :: 0 <= i < |more| ==> |more[i]| == |m.nodes|
    ensures forall i :: 0 <= i < |trace| ==> |trace[i]| == |m.nodes|
    ensures LossTo(m, step, more, k) == LossTo(m, step, trace, k)
  {
    assert forall i :: 0 <= i < |trace| ==> trace[i] == more[i];
    if k > 0 {
      LossOfPrefix(m, step, trace, more, k - 1);
    }
  }

  // ---------------------------------------------------------------- temperature differences as state

  function Shift(x: Vec, d: real): (y: Vec)
    ensures |y| == |x| && forall i :: 0 <= i < |x| ==> y[i] == x[i] + d
  {
    seq(|x|, i requires 0 <= i < |x| => x[i] + d)
  }

  lemma {:induction false} FlowOfShift(m: Network, k: nat, x: Vec, d: real, r: nat)
    requires Fits(m, x) && k <= |m.edges|
    ensures Fits(m, Shift(x, d)) && Flow(m, k, Shift(x, d), r) == Flow(m, k, x, r)
  {
    hide Times;
    if k > 0 {
      FlowOfShift(m, k - 1, x, d, r);
      var e := m.edges[k - 1];
      var y := Shift(x, d);
      assert y[e.a] - y[e.b] == x[e.a] - x[e.b] && y[e.b] - y[e.a] == x[e.b] - x[e.a];
    }
  }

  /** The right-hand side the runner builds for theta = T - origin. */
  function ThetaSource(node: Node, origin: real): real {
    node.staticPower + Times(node.boundaryG, node.boundaryT - origin)
  }

  lemma ShiftRow(rate: real, g: real, after: real, before: real, origin: real, boundary: real)
    ensures Times(rate + g, after + origin) - Times(rate, before + origin) - Times(g, boundary)
            == Times(rate + g, after) - Times(rate, before) - Times(g, boundary - origin)
  {
  }

  /** The theta system and the system in absolute temperature have the same solutions. */
  lemma ThetaIsTemperature(m: Network, step: real, origin: real, power: Vec, before: Vec, after: Vec, r: nat)
    requires step > 0.0 && Fits(m, before) && Fits(m, after) && |power| == |before| && r < |before|
    ensures Fits(m, Shift(before, origin)) && Fits(m, Shift(after, origin))
    ensures Operator(m, SystemDiagonal(m, step), after, r)
            == Times(m.nodes[r].capacity / step, before[r]) + ThetaSource(m.nodes[r], origin) + power[r]
            <==> StepAt(m, step, power, Shift(before, origin), Shift(after, origin), r)
  {
    hide Times;
    FlowOfShift(m, |m.edges|, before, origin, r);
    FlowOfShift(m, |m.edges|, after, origin, r);
    var node := m.nodes[r];
    ShiftRow(node.capacity / step, node.boundaryG, after[r], before[r], origin, node.boundaryT);
  }

  // ---------------------------------------------------------------- envelope

  /** `x` balances the steady network under the given sources. */
  ghost predicate IsSteady(m: Network, source: Vec, x: Vec) {
    && Fits(m, x) && |source| == |x|
    && forall r :: 0 <= r < |x| ==> Operator(m, SteadyDiagonal(m), x, r) == source[r]
  }

  /** A steady field gives to boundary and neighbours exactly what the source puts in. */
  lemma SteadyIsBalance(m: Network, source: Vec, x: Vec)
    requires ValidNetwork(m) && |source| == |x| == |m.nodes|
    ensures Fits(m, x)
    ensures IsSteady(m, source, x) <==>
              forall r :: 0 <= r < |x| ==> m.nodes[r].boundaryG * x[r] + HeatOut(m, |m.edges|, x, r) == source[r]
  {
    assert forall i :: 0 <= i < |m.edges| ==> EdgeOk(m.edges[i], |m.nodes|);
    forall r | 0 <= r < |x|
      ensures Operator(m, SteadyDiagonal(m), x, r) == m.nodes[r].boundaryG * x[r] + HeatOut(m, |m.edges|, x, r)
    {
      FlowIsHeatOut(m, |m.edges|, x, r);
    }
  }

  function FixedSources(m: Network): Vec {
    seq(|m.nodes|, i requires 0 <= i < |m.nodes| => FixedSource(m.nodes[i]))
  }

  function Combine(x: Vec, alpha: real, y: Vec): (z: Vec)
    requires |x| == |y|
    ensures |z| == |x| && forall i :: 0 <= i < |x| ==> z[i] == x[i] + Times(alpha, y[i])
  {
    seq(|x|, i requires 0 <= i < |x| => x[i] + Times(alpha, y[i]))
  }

  lemma TimesCombine(g: real, alpha: real, p: real, q: real)
    ensures Times(g, p + Times(alpha, q)) == Times(g, p) + Times(alpha, Times(g, q))
  {
  }

  lemma {:induction false} FlowOfCombination(m: Network, k: nat, x: Vec, alpha: real, y: Vec, r: nat)
    requires Fits(m, x) && Fits(m, y) && k <= |m.edges|
    ensures Fits(m, Combine(x, alpha, y))
    ensures Flow(m, k, Combine(x, alpha, y), r) == Flow(m, k, x, r) + Times(alpha, Flow(m, k, y, r))
  {
    hide Times;
    if k == 0 {
      TimesZero(alpha);
    } else {
      FlowOfCombination(m, k - 1, x, alpha, y, r);
      var e := m.edges[k - 1];
      var z := Combine(x, alpha, y);
      TimesMinus(alpha, y[e.a], y[e.b]);
      TimesMinus(alpha, y[e.b], y[e.a]);
      assert z[e.a] - z[e.b] == (x[e.a] - x[e.b]) + Times(alpha, y[e.a] - y[e.b]);
      assert z[e.b] - z[e.a] == (x[e.b] - x[e.a]) + Times(alpha, y[e.b] - y[e.a]);
      TimesCombine(e.g, alpha, x[e.a] - x[e.b], y[e.a] - y[e.b]);
      TimesCombine(e.g, alpha, x[e.b] - x[e.a], y[e.b] - y[e.a]);
      TimesZero(alpha);
      TimesSum(alpha, Flow(m, k - 1, y, r), EdgeFlow(m, e, y, r));
      TimesSum(alpha, Times(e.g, y[e.a] - y[e.b]), 0.0);
      TimesSum(alpha, 0.0, Times(e.g, y[e.b] - y[e.a]));
      TimesSum(alpha, Times(e.g, y[e.a] - y[e.b]), Times(e.g, y[e.b] - y[e.a]));
    }
  }

  /** The envelope `fixed + alpha * rise` is the steady state under the caps scaled by `alpha`. */
  lemma EnvelopeIsSteady(m: Network, fixed: Vec, rise: Vec, cap: Vec, alpha: real)
    requires IsSteady(m, FixedSources(m), fixed) && IsSteady(m, cap, rise)
    ensures IsSteady(m, Combine(FixedSources(m), alpha, cap), Combine(fixed, alpha, rise))
  {
    hide Times, FixedSource;
    var z := Combine(fixed, alpha, rise);
    forall r | 0 <= r < |z|
      ensures Fits(m, z) && Operator(m, SteadyDiagonal(m), z, r) == Combine(FixedSources(m), alpha, cap)[r]
    {
      FlowOfCombination(m, |m.edges|, fixed, alpha, rise, r);
      TimesCombine(m.nodes[r].boundaryG, alpha, fixed[r], rise[r]);
      assert Operator(m, SteadyDiagonal(m), rise, r) == cap[r];
      TimesSum(alpha, Times(m.nodes[r].boundaryG, rise[r]), Flow(m, |m.edges|, rise, r));
      assert Operator(m, SteadyDiagonal(m), fixed, r) == FixedSources(m)[r];
    }
    assert Fits(m, z);
  }

  /** Slot power is nowhere above `alpha` times the cap. */
  ghost predicate WithinCap(power: Vec, alpha: real, cap: Vec) {
    |power| == |cap| && forall r :: 0 <= r < |power| ==> power[r] <= Times(alpha, cap[r])
  }

  lemma SystemIsPositive(m: Network, step: real)
    requires ValidNetwork(m) && step > 0.0
    ensures forall r :: 0 <= r < |m.nodes| ==> m.nodes[r].capacity / step > 0.0 && SystemDiagonal(m, step)[r] > 0.0
  {
    forall r | 0 <= r < |m.nodes| ensures m.nodes[r].capacity / step > 0.0 {
      assert NodeOk(m.nodes[r]);
      PositiveQuotient(m.nodes[r].capacity, step);
    }
    assert forall r :: 0 <= r < |m.nodes| ==> NodeOk(m.nodes[r]);
  }

  lemma PositiveQuotient(a: real, b: real)
    requires a > 0.0 && b > 0.0
    ensures a / b > 0.0
  {
  }

  lemma TimesMonotone(g: real, p: real, q: real)
    requires g >= 0.0 && p <= q
    ensures Times(g, p) <= Times(g, q)
  {
  }

  /** One step from below the envelope ends below it. */
  lemma EnvelopeStep(m: Network, step: real, power: Vec, before: Vec, after: Vec, envelope: Vec, cap: Vec, alpha: real)
    requires ValidNetwork(m) && step > 0.0 && IsStep(m, step, power, before, after)
    requires |cap| == |m.nodes| && IsSteady(m, Combine(FixedSources(m), alpha, cap), envelope)
    requires WithinCap(power, alpha, cap) && Below(before, envelope)
    ensures Below(after, envelope)
  {
    hide Times, FixedSource;
    SystemIsPositive(m, step);
    forall r | 0 <= r < |after|
      ensures Operator(m, SystemDiagonal(m, step), after, r) <= Operator(m, SystemDiagonal(m, step), envelope, r)
    {
      var rate := m.nodes[r].capacity / step;
      assert StepAt(m, step, power, before, after, r);
      assert Operator(m, SteadyDiagonal(m), envelope, r) == Combine(FixedSources(m), alpha, cap)[r];
      TimesPlus(rate, m.nodes[r].boundaryG, envelope[r]);
      TimesMonotone(rate, before[r], envelope[r]);
    }
    Comparison(m, SystemDiagonal(m, step), after, envelope);
  }

  /**
   Envelope domination.  A run that starts below the envelope selected for `alpha`, and
   whose power never exceeds `alpha` times the cap, stays below it at every node and step.
   */
  lemma {:induction false} EnvelopeDominates(m: Network, step: real, powers: seq<Vec>, trace: seq<Vec>, k: nat,
                                             fixed: Vec, rise: Vec, cap: Vec, alpha: real)
    requires ValidNetwork(m) && step > 0.0 && IsTrace(m, step, powers, trace) && k < |trace|
    requires IsSteady(m, FixedSources(m), fixed) && IsSteady(m, cap, rise)
    requires Below(Initial(m), Combine(fixed, alpha, rise))
    requires forall i :: 0 <= i < |powers| ==> WithinCap(powers[i], alpha, cap)
    ensures Below(trace[k], Combine(fixed, alpha, rise))
  {
    hide IsStep, IsSteady, Below, WithinCap;
    if k > 0 {
      EnvelopeDominates(m, step, powers, trace, k - 1, fixed, rise, cap, alpha);
      EnvelopeIsSteady(m, fixed, rise, cap, alpha);
      SteadySizes(m, cap, rise);
      SteadySizes(m, FixedSources(m), fixed);
      EnvelopeStep(m, step, powers[k - 1], trace[k - 1], trace[k], Combine(fixed, alpha, rise), cap, alpha);
    }
  }

  lemma SteadySizes(m: Network, source: Vec, x: Vec)
    requires IsSteady(m, source, x)
    ensures |source| == |x| == |m.nodes|
  {
  }

  // ---------------------------------------------------------------- lower bound and uniqueness

  function Constant(m: Network, t: real): (x: Vec)
    ensures |x| == |m.nodes| && forall i :: 0 <= i < |x| ==> x[i] == t
  {
    seq(|m.nodes|, _ => t)
  }

  lemma {:induction false} FlowOfConstant(m: Network, k: nat, t: real, r: nat)
    requires Fits(m, Constant(m, t)) && k <= |m.edges|
    ensures Flow(m, k, Constant(m, t), r) == 0.0
  {
    hide Times;
    if k > 0 {
      FlowOfConstant(m, k - 1, t, r);
      TimesZero(m.edges[k - 1].g);
    }
  }

  /** With no cooling source, nothing falls below a temperature that bounds the state and the boundary from below. */
  lemma FloorStep(m: Network, step: real, power: Vec, before: Vec, after: Vec, floor: real)
    requires ValidNetwork(m) && step > 0.0 && IsStep(m, step, power, before, after)
    requires forall r :: 0 <= r < |power| ==> power[r] >= 0.0
    requires forall r :: 0 <= r < |m.nodes| ==> floor <= before[r] && (m.nodes[r].boundaryG > 0.0 ==> floor <= m.nodes[r].boundaryT)
    ensures forall r :: 0 <= r < |after| ==> floor <= after[r]
  {
    hide Times;
    SystemIsPositive(m, step);
    var x := Constant(m, floor);
    forall r | 0 <= r < |after|
      ensures Operator(m, SystemDiagonal(m, step), x, r) <= Operator(m, SystemDiagonal(m, step), after, r)
    {
      var node := m.nodes[r];
      var rate := node.capacity / step;
      assert NodeOk(node) && StepAt(m, step, power, before, after, r);
      FlowOfConstant(m, |m.edges|, floor, r);
      TimesPlus(rate, node.boundaryG, floor);
      TimesMonotone(rate, floor, before[r]);
      if node.boundaryG > 0.0 {
        TimesMonotone(node.boundaryG, floor, node.boundaryT);
      } else {
        TimesByZero(floor);
        TimesByZero(node.boundaryT);
      }
    }
    Comparison(m, SystemDiagonal(m, step), x, after);
    assert Below(x, after);
  }

  lemma {:induction false} TraceAboveFloor(m: Network, step: real, powers: seq<Vec>, trace: seq<Vec>, k: nat, floor: real)
    requires ValidNetwork(m) && step > 0.0 && IsTrace(m, step, powers, trace) && k < |trace|
    requires forall i, r :: 0 <= i < |powers| && 0 <= r < |powers[i]| ==> powers[i][r] >= 0.0
    requires forall r :: 0 <= r < |m.nodes| ==>
               floor <= m.nodes[r].initial && (m.nodes[r].boundaryG > 0.0 ==> floor <= m.nodes[r].boundaryT)
    ensures forall r :: 0 <= r < |trace[k]| ==> floor <= trace[k][r]
  {
    if k > 0 {
      TraceAboveFloor(m, step, powers, trace, k - 1, floor);
      assert IsStep(m, step, powers[k - 1], trace[k - 1], trace[k]);
      FloorStep(m, step, powers[k - 1], trace[k - 1], trace[k], floor);
    }
  }

  /** The step system has at most one solution. */
  lemma StepIsUnique(m: Network, step: real, power: Vec, before: Vec, x: Vec, y: Vec)
    requires ValidNetwork(m) && step > 0.0
    requires IsStep(m, step, power, before, x) && IsStep(m, step, power, before, y)
    ensures x == y
  {
    SystemIsPositive(m, step);
    forall r | 0 <= r < |x|
      ensures Operator(m, SystemDiagonal(m, step), x, r) == Operator(m, SystemDiagonal(m, step), y, r)
    {
      assert StepAt(m, step, power, before, x, r) && StepAt(m, step, power, before, y, r);
    }
    Comparison(m, SystemDiagonal(m, step), x, y);
    Comparison(m, SystemDiagonal(m, step), y, x);
  }
}

/** Deriving scaled traces from the selected envelope factor, and why their runs stay inside the envelope. */
module DomainInput {
  import opened Wrappers
  import opened RcNetwork
  import opened RcTheory
  import opened RcRunner
  import opened RcRun
  import opened PowerIr
  import opened RcExport
  import opened RcPipeline

  // ---------------------------------------------------------------- the factor

  datatype Candidate = Candidate(alpha: real, withinLimit: bool, initialCovered: bool)

  predicate Passes(c: Candidate) {
    c.withinLimit && c.initialCovered
  }

  predicate FrozenOrder(candidates: seq<Candidate>) {
    |candidates| == 4 && forall k :: 0 <= k < 4 ==> candidates[k].alpha == ALPHAS[k]
  }

  /** `alpha` is the largest factor whose candidate passes. */
  ghost predicate LargestPassing(candidates: seq<Candidate>, alpha: real) {
    exists k :: 0 <= k < |candidates| && candidates[k].alpha == alpha && candidates[k].withinLimit && candidates[k].initialCovered
                && forall q :: 0 <= q < |candidates| && candidates[q].withinLimit && candidates[q].initialCovered ==>
                     candidates[q].alpha <= alpha
  }

  /** The factor a receipt selects; `None` is the error for a receipt that does not select the largest eligible one. */
  method SelectedAlpha(candidates: seq<Candidate>, selected: real) returns (alpha: Option<real>)
    ensures alpha.Some? <==>
              && |candidates| == 4 && candidates[0].alpha == 1.0 && candidates[1].alpha == 0.75
              && candidates[2].alpha == 0.5 && candidates[3].alpha == 0.25 && LargestPassing(candidates, selected)
    ensures alpha.Some? ==> alpha.value == selected
  {
    if !FrozenOrder(candidates) {
      return None;
    }
    assert forall k :: 0 <= k < 4 ==> candidates[k].alpha == ALPHAS[k];
    assert ALPHAS[0] == 1.0 && ALPHAS[1] == 0.75 && ALPHAS[2] == 0.5 && ALPHAS[3] == 0.25;
    var eligible: seq<real> := [];
    ghost var first := 0;
    for k := 0 to 4
      invariant eligible == [] ==> forall q :: 0 <= q < k ==> !Passes(candidates[q])
      invariant eligible != [] ==> first < k && Passes(candidates[first]) && eligible[0] == candidates[first].alpha
                                   && forall q :: 0 <= q < first ==> !Passes(candidates[q])
    {
      if Passes(candidates[k]) {
        if eligible == [] {
          first := k;
        }
        eligible := eligible + [candidates[k].alpha];
      }
    }
    if eligible == [] || selected != eligible[0] {
      assert eligible != [] ==> candidates[first].alpha == eligible[0] && Passes(candidates[first]);
      OnlyTheFirst(candidates, selected, if eligible == [] then None else Some(first));
      return None;
    }
    Descending(candidates, first);
    return Some(selected);
  }

  lemma Descending(candidates: seq<Candidate>, first: nat)
    requires FrozenOrder(candidates) && first < 4 && Passes(candidates[first]) && forall q :: 0 <= q < first ==> !Passes(candidates[q])
    ensures LargestPassing(candidates, candidates[first].alpha) && candidates[first].alpha in ALPHAS
  {
    assert candidates[first].alpha == ALPHAS[first];
    forall q | 0 <= q < 4 && Passes(candidates[q]) ensures candidates[q].alpha <= candidates[first].alpha {
      assert first <= q && candidates[q].alpha == ALPHAS[q];
    }
  }

  lemma OnlyTheFirst(candidates: seq<Candidate>, selected: real, first: Option<nat>)
    requires FrozenOrder(candidates)
    requires first.None? ==> forall q :: 0 <= q < 4 ==> !Passes(candidates[q])
    requires first.Some? ==> first.value < 4 && Passes(candidates[first.value]) && selected != candidates[first.value].alpha
                             && forall q :: 0 <= q < first.value ==> !Passes(candidates[q])
    ensures !LargestPassing(candidates, selected)
  {
    if first.Some? {
      var f := first.value;
      assert candidates[f].alpha == ALPHAS[f];
      forall k | 0 <= k < 4 && Passes(candidates[k]) && candidates[k].alpha == selected ensures selected < candidates[f].alpha {
        assert f < k && candidates[k].alpha == ALPHAS[k];
      }
    }
  }

  // ---------------------------------------------------------------- scaling a trace

  function Scaled(values: Vec, alpha: real): (r: Vec)
    ensures |r| == |values| && forall g :: 0 <= g < |r| ==> r[g] == Times(values[g], alpha)
  {
    seq(|values|, g requires 0 <= g < |values| => Times(values[g], alpha))
  }

  predicate SlotOk(values: Vec, caps: Vec) {
    |values| == |caps| && forall g :: 0 <= g < |values| ==> 0.0 <= values[g] <= caps[g]
  }

  /** Energy of the first `t` slots. */
  function SlotsEnergy(slots: seq<Vec>, slot: real, t: nat): real
    requires t <= |slots|
  {
    if t == 0 then 0.0 else SlotsEnergy(slots, slot, t - 1) + Times(slot, SumTo(slots[t - 1], |slots[t - 1]|))
  }

  /**
   The scaled slots and both energies; `None` is the error for a trace without slots, or a slot of the wrong size, with a
   negative value or above the caps.  Scaling scales the energy, and keeps every slot within the scaled caps.
   */
  method Derive(slots: seq<Vec>, caps: Vec, slot: real, alpha: real) returns (r: Option<seq<Vec>>, original: real, scaled: real)
    requires slot > 0.0 && alpha >= 0.0
    ensures r.Some? <==> TraceAccepted(slots, caps)
    ensures r.Some? ==> |r.value| == |slots| && forall t :: 0 <= t < |slots| ==> r.value[t] == Scaled(slots[t], alpha)
    ensures r.Some? ==> forall t :: 0 <= t < |slots| ==> WithinScaledCaps(r.value[t], caps, alpha)
    ensures r.Some? ==> original == SlotsEnergy(slots, slot, |slots|) && scaled == SlotsEnergy(r.value, slot, |slots|)
    ensures r.Some? ==> scaled == Times(alpha, original)
  {
    hide Times;
    original, scaled := 0.0, 0.0;
    if slots == [] {
      return None, original, scaled;
    }
    var derived: seq<Vec> := [];
    TimesZero(alpha);
    for t := 0 to |slots|
      invariant |derived| == t && forall k :: 0 <= k < t ==> SlotOk(slots[k], caps) && derived[k] == Scaled(slots[k], alpha)
      invariant original == SlotsEnergy(slots, slot, t) && scaled == SlotsEnergy(derived, slot, t)
      invariant scaled == Times(alpha, original)
    {
      if !SlotOk(slots[t], caps) {
        return None, original, scaled;
      }
      var values := Scaled(slots[t], alpha);
      var sum := Total(slots[t]);
      var scaledSum := Total(values);
      ScaledSum(slots[t], alpha, |slots[t]|);
      ScaledEnergy(slot, alpha, original, sum);
      EnergyOfPrefix(derived, derived + [values], slot, t);
      derived := derived + [values];
      original := original + Times(slot, sum);
      scaled := scaled + Times(slot, scaledSum);
    }
    forall t | 0 <= t < |slots| ensures WithinScaledCaps(derived[t], caps, alpha) {
      ScaledWithin(slots[t], caps, alpha);
    }
    r := Some(derived);
  }

  /** A trace of whole, nonempty data within the caps. */
  ghost predicate TraceAccepted(slots: seq<Vec>, caps: Vec) {
    slots != [] && forall t :: 0 <= t < |slots| ==>
      |slots[t]| == |caps| && forall g :: 0 <= g < |caps| ==> 0.0 <= slots[t][g] <= caps[g]
  }

  datatype Derived = Derived(slots: seq<Vec>, original: real, scaled: real)

  /** The derived trace is the given one times the factor, and so are its energy and its caps. */
  ghost predicate IsDerived(slots: seq<Vec>, caps: Vec, slot: real, alpha: real, d: Derived) {
    && |d.slots| == |slots| && d.original == SlotsEnergy(slots, slot, |slots|) && d.scaled == Times(alpha, d.original)
    && (forall t :: 0 <= t < |slots| ==> d.slots[t] == Scaled(slots[t], alpha))
    && forall t :: 0 <= t < |slots| ==> WithinScaledCaps(d.slots[t], caps, alpha)
  }

  /** Every requested trace; the first that is not acceptable is the error for all, and so is a request for none or for one twice. */
  method DeriveAll(ids: seq<nat>, traces: map<nat, seq<Vec>>, caps: Vec, slot: real, alpha: real) returns (r: Option<seq<Derived>>)
    requires slot > 0.0 && alpha >= 0.0
    ensures r.Some? <==> ids != [] && (forall i, j :: 0 <= i < j < |ids| ==> ids[i] != ids[j])
                         && forall i :: 0 <= i < |ids| ==> ids[i] in traces && TraceAccepted(traces[ids[i]], caps)
    ensures r.Some? ==> |r.value| == |ids| && forall i :: 0 <= i < |ids| ==> IsDerived(traces[ids[i]], caps, slot, alpha, r.value[i])
  {
    hide SlotsEnergy, Times, WithinScaledCaps, SlotOk;
    if ids == [] {
      return None;
    }
    for j := 0 to |ids|
      invariant forall i, k :: 0 <= i < k < j ==> ids[i] != ids[k]
    {
      if ids[j] in ids[..j] {
        return None;
      }
    }
    var derived: seq<Derived> := [];
    for i := 0 to |ids|
      invariant |derived| == i && forall k :: 0 <= k < i ==> ids[k] in traces && TraceAccepted(traces[ids[k]], caps)
      invariant forall k :: 0 <= k < i ==> IsDerived(traces[ids[k]], caps, slot, alpha, derived[k])
    {
      if ids[i] !in traces {
        return None;
      }
      var one, original, scaled := Derive(traces[ids[i]], caps, slot, alpha);
      if one.None? {
        return None;
      }
      derived := derived + [Derived(one.value, original, scaled)];
    }
    r := Some(derived);
  }

  ghost predicate WithinScaledCaps(values: Vec, caps: Vec, alpha: real) {
    |values| == |caps| && forall g :: 0 <= g < |values| ==> 0.0 <= values[g] <= Times(alpha, caps[g])
  }

  lemma ScaledWithin(values: Vec, caps: Vec, alpha: real)
    requires SlotOk(values, caps) && alpha >= 0.0
    ensures WithinScaledCaps(Scaled(values, alpha), caps, alpha)
  {
    forall g | 0 <= g < |values| ensures 0.0 <= Times(values[g], alpha) <= Times(alpha, caps[g]) {
      assert (caps[g] - values[g]) * alpha >= 0.0;
    }
  }

  lemma {:induction false} ScaledSum(values: Vec, alpha: real, k: nat)
    requires k <= |values|
    ensures SumTo(Scaled(values, alpha), k) == Times(alpha, SumTo(values, k))
  {
    hide Times;
    if k == 0 {
      TimesZero(alpha);
    } else {
      ScaledSum(values, alpha, k - 1);
      TimesSwap(values[k - 1], alpha);
      TimesSum(alpha, SumTo(values, k - 1), values[k - 1]);
    }
  }

  lemma ScaledEnergy(slot: real, alpha: real, original: real, sum: real)
    ensures Times(alpha, original + Times(slot, sum)) == Times(alpha, original) + Times(slot, Times(alpha, sum))
  {
  }

  lemma {:induction false} EnergyOfPrefix(a: seq<Vec>, b: seq<Vec>, slot: real, t: nat)
    requires t <= |a| && a <= b
    ensures SlotsEnergy(b, slot, t) == SlotsEnergy(a, slot, t)
  {
    hide Times;
    if t > 0 {
      EnergyOfPrefix(a, b, slot, t - 1);
    }
  }

  // ---------------------------------------------------------------- runs of a derived trace

  /** The component powers of the caps. */
  ghost predicate CapIs(weights: seq<Vec>, caps: Vec, cap: Vec, n: nat)
    requires WeightsOk(weights, n) && |caps| == |weights|
  {
    |cap| == n && forall c :: 0 <= c < n ==> PowerIs(weights, caps, cap, n, c)
  }

  /** In a derived trace every component stays within the scaled cap of the component. */
  lemma ComponentWithin(weights: seq<Vec>, caps: Vec, cap: Vec, values: Vec, power: Vec, alpha: real, n: nat, c: nat)
    requires WeightsOk(weights, n) && |caps| == |values| == |weights| && c < n && CapIs(weights, caps, cap, n)
    requires WithinScaledCaps(values, caps, alpha) && PowerIs(weights, values, power, n, c)
    ensures |power| == |cap| == n && power[c] <= Times(alpha, cap[c])
  {
    hide Times;
    assert PowerIs(weights, caps, cap, n, c);
    SplitMonotone(weights, values, caps, alpha, |weights|, n, c);
  }

  /**
   A derived trace meets the hypothesis of the envelope: in every slot the exported activities put on each
   node at most `alpha` times what the cap file puts there.
   */
  lemma DerivedIsWithinCap(x: Allocation, weights: seq<Vec>, caps: Vec, cap: Vec, intervals: seq<Interval>, powers: seq<Vec>,
                           o: Options, alpha: real, t: nat, i: nat)
    requires PowersOk(x, intervals, powers) && OnGrid(intervals, o.slot) && t < |intervals|
    requires WeightsOk(weights, |x.totals|) && |caps| == |weights| && IsSplit(weights, intervals, powers, |x.totals|)
    requires CapIs(weights, caps, cap, |x.totals|) && WithinScaledCaps(intervals[t].values, caps, alpha)
    ensures var events := Exported(x, intervals, powers, |intervals|, 0);
            var limits := CapActivities(x, o.slot, cap, |x.totals|);
            && Lasting(events, o) && |limits| == |x.totals|
            && (forall q :: 0 <= q < |limits| ==> limits[q].end > limits[q].start)
            && SlotPower(events, o, |events|, t, i) <= Times(alpha, CapPower(limits, |limits|, i))
  {
    hide Times, AllocationOk, Exported, CapActivities, WithinScaledCaps, PowerIs, NodePower, SlotPower, CapPower;
    ExportedPower(x, intervals, powers, o, |intervals|, 0, t, i);
    CapIsNodePower(x, o.slot, cap, |x.totals|, i);
    forall c | 0 <= c < |x.totals| ensures powers[t][c] <= Times(alpha, cap[c]) {
      ComponentWithin(weights, caps, cap, intervals[t].values, powers[t], alpha, |x.totals|, c);
    }
    NodePowerMonotone(x, powers[t], cap, alpha, |x.totals|, i);
  }

  /** The cap vector of the envelope is what the cap file puts on the nodes. */
  ghost predicate CapOfFile(x: Allocation, slot: real, cap: Vec, r: EnvelopeResult)
    requires AllocationOk(x) && |cap| == |x.totals| && slot > 0.0 && r.EnvelopeFound?
  {
    var limits := CapActivities(x, slot, cap, |x.totals|);
    forall i :: 0 <= i < |r.cap| ==>
      (forall q :: 0 <= q < |limits| ==> limits[q].end > limits[q].start) && r.cap[i] == CapPower(limits, |limits|, i)
  }

  /** Everything that `Derive`, the exporter and the envelope guarantee about a derived trace. */
  ghost predicate DerivedTrace(x: Allocation, weights: seq<Vec>, caps: Vec, cap: Vec, intervals: seq<Interval>, powers: seq<Vec>,
                               slot: real, alpha: real) {
    && PowersOk(x, intervals, powers) && OnGrid(intervals, slot)
    && WeightsOk(weights, |x.totals|) && |caps| == |weights| && IsSplit(weights, intervals, powers, |x.totals|)
    && CapIs(weights, caps, cap, |x.totals|)
    && forall t :: 0 <= t < |intervals| ==> WithinScaledCaps(intervals[t].values, caps, alpha)
  }

  lemma SlotIsWithinCap(m: Network, x: Allocation, weights: seq<Vec>, caps: Vec, cap: Vec, intervals: seq<Interval>, powers: seq<Vec>,
                        o: Options, s: Schedule, r: EnvelopeResult, slotPowers: seq<Vec>, t: nat)
    requires r.EnvelopeFound? && r.selected.Some? && |r.cap| == |m.nodes|
    requires r.selected.value >= 0.0 && forall i :: 0 <= i < |r.cap| ==> r.cap[i] >= 0.0
    requires DerivedTrace(x, weights, caps, cap, intervals, powers, o.slot, r.selected.value) && CapOfFile(x, o.slot, cap, r)
    requires AllOnSlots(Exported(x, intervals, powers, |intervals|, 0), o, s) && |intervals| <= s.slotCount
    requires IsSlotPowers(Exported(x, intervals, powers, |intervals|, 0), o, s, |m.nodes|, slotPowers) && t < |slotPowers|
    ensures WithinCap(slotPowers[t], r.selected.value, r.cap)
  {
    hide Times, SlotPower, CapPower, Exported, CapActivities, OnSlots, WithinScaledCaps, PowersOk, IsSplit, WeightsOk, CapIs;
    var events := Exported(x, intervals, powers, |intervals|, 0);
    forall i | 0 <= i < |r.cap| ensures slotPowers[t][i] <= Times(r.selected.value, r.cap[i]) {
      if t < |intervals| {
        DerivedIsWithinCap(x, weights, caps, cap, intervals, powers, o, r.selected.value, t, i);
      } else {
        ExportedPower(x, intervals, powers, o, |intervals|, 0, t, i);
        TimesSign(r.selected.value, r.cap[i]);
      }
      assert slotPowers[t][i] == SlotPower(events, o, |events|, t, i);
    }
  }

  lemma SlotOfStep(s: Schedule, q: nat) returns (t: nat, local: nat)
    ensures local < s.stepsPerSlot && TileIndex(s, t, local) == q
  {
    t, local := q / s.stepsPerSlot, q % s.stepsPerSlot;
  }

  lemma FactorIsPositive(m: Network, r: EnvelopeResult, limit: real)
    requires EnvelopeOk(m, r, limit) && r.EnvelopeFound? && r.selected.Some?
    ensures 0.0 < r.selected.value <= 1.0
  {
    var k :| SelectedAt(m, r, limit, k);
  }

  /**
   The point of the envelope.  Take the factor that the steady envelope selects from the cap file, a trace
   derived with it, and the run of its exported activities: at every step and node the temperature is at
   most the predicted envelope, hence at most the limit.
   */
  lemma DerivedRunsStayBelow(m: Network, x: Allocation, weights: seq<Vec>, caps: Vec, cap: Vec, intervals: seq<Interval>,
                             powers: seq<Vec>, o: Options, s: Schedule, r: EnvelopeResult, limit: real,
                             slotPowers: seq<Vec>, stepPowers: seq<Vec>, trace: seq<Vec>, k: nat, i: nat)
    requires ValidNetwork(m) && EnvelopeOk(m, r, limit) && r.EnvelopeFound? && r.selected.Some?
    requires o.step > 0.0 && DerivedTrace(x, weights, caps, cap, intervals, powers, o.slot, r.selected.value)
    requires CapOfFile(x, o.slot, cap, r)
    requires AllOnSlots(Exported(x, intervals, powers, |intervals|, 0), o, s) && |intervals| <= s.slotCount
    requires IsSlotPowers(Exported(x, intervals, powers, |intervals|, 0), o, s, |m.nodes|, slotPowers)
    requires PowersUsed(s, slotPowers, stepPowers) && IsTrace(m, o.step, stepPowers, trace) && k < |trace| && i < |m.nodes|
    ensures |trace[k]| == |m.nodes| && trace[k][i] <= Combine(r.fixed, r.selected.value, r.rise)[i] <= limit
  {
    hide DerivedTrace, CapOfFile, AllOnSlots, IsSlotPowers, WithinCap, Exported, IsTrace, TileIndex;
    SteadySizes(m, r.cap, r.rise);
    SteadySizes(m, FixedSources(m), r.fixed);
    FactorIsPositive(m, r, limit);
    forall q | 0 <= q < |stepPowers| ensures WithinCap(stepPowers[q], r.selected.value, r.cap) {
      var t, local := SlotOfStep(s, q);
      SlotIsWithinCap(m, x, weights, caps, cap, intervals, powers, o, s, r, slotPowers, t);
    }
    PredictedEnvelopeHolds(m, r, limit, o.step, stepPowers, trace, k, i);
  }
}

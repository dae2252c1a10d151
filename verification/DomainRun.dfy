/** The whole chain from group caps and a group trace to a run: envelope, factor, derived trace, export, campaign. */
module DomainRun {
  import opened Wrappers
  import opened RcNetwork
  import opened RcTheory
  import opened RcGround
  import opened RcRunner
  import opened RcRun
  import opened PowerIr
  import opened RcExport
  import opened RcPipeline
  import opened RcFiles
  import opened DomainInput

  /** One network with its cells, the weights and caps of its source groups, and how it is run. */
  datatype Setup = Setup(network: Network, allocation: Allocation, weights: seq<Vec>, caps: Vec, options: Options, limit: real)

  ghost predicate SetupOk(u: Setup) {
    && ValidNetwork(u.network) && AllocationOk(u.allocation) && |u.network.nodes| == |u.allocation.mesh.cells|
    && WeightsOk(u.weights, |u.allocation.totals|) && |u.caps| == |u.weights| && ValidOptions(u.options)
    && forall g :: 0 <= g < |u.caps| ==> u.caps[g] >= 0.0
  }

  ghost predicate SolverOk(u: Setup, solve: Solver)
    requires ValidOptions(u.options)
  {
    var m := u.network;
    && Exact(solve, MatrixEntries(m, SteadyDiagonal(m), |m.edges|), |m.nodes|)
    && Exact(solve, MatrixEntries(m, SystemDiagonal(m, u.options.step), |m.edges|), |m.nodes|)
  }

  // ---------------------------------------------------------------- nonnegative power

  lemma {:induction false} ComponentIsNotNegative(weights: seq<Vec>, values: Vec, g: nat, n: nat, c: nat)
    requires WeightsOk(weights, n) && c < n && g <= |weights| && g <= |values| && forall k :: 0 <= k < |values| ==> values[k] >= 0.0
    ensures (forall k :: 0 <= k < |weights| ==> c < |weights[k]|) && ComponentPower(weights, values, g, c) >= 0.0
  {
    assert forall k :: 0 <= k < |weights| ==> WeightsOkRow(weights[k], n);
    hide Times;
    if g > 0 {
      ComponentIsNotNegative(weights, values, g - 1, n, c);
      TimesSign(values[g - 1], weights[g - 1][c]);
    }
  }

  lemma SplitIsNotNegative(weights: seq<Vec>, values: Vec, power: Vec, n: nat)
    requires WeightsOk(weights, n) && |values| == |weights| && |power| == n
    requires forall k :: 0 <= k < |values| ==> values[k] >= 0.0
    requires forall c :: 0 <= c < n ==> PowerIs(weights, values, power, n, c)
    ensures forall c :: 0 <= c < n ==> power[c] >= 0.0
  {
    forall c | 0 <= c < n ensures power[c] >= 0.0 {
      assert PowerIs(weights, values, power, n, c);
      ComponentIsNotNegative(weights, values, |weights|, n, c);
    }
  }

  lemma {:induction false} AssignedIsNotNegative(a: Activity, n: nat, duration: real, j: nat, i: nat)
    requires ActivityOk(a, n) && duration > 0.0 && j <= |a.nodeEnergy|
    ensures AssignedPower(a, duration, j, i) >= 0.0
  {
    if j > 0 {
      AssignedIsNotNegative(a, n, duration, j - 1, i);
      QuotientSign(a.nodeEnergy[j - 1].energy, duration);
    }
  }

  lemma {:induction false} SlotPowerIsNotNegative(activities: seq<Activity>, n: nat, o: Options, k: nat, t: nat, i: nat)
    requires o.slot > 0.0 && k <= |activities| && ValidActivities(activities, n) && Lasting(activities, o)
    ensures SlotPower(activities, o, k, t, i) >= 0.0
  {
    hide SlotDuration, FirstSlot, EndSlot, ActivityOk, AssignedPower;
    if k > 0 {
      SlotPowerIsNotNegative(activities, n, o, k - 1, t, i);
      AssignedIsNotNegative(activities[k - 1], n, SlotDuration(activities[k - 1], o), |activities[k - 1].nodeEnergy|, i);
    }
  }

  // ---------------------------------------------------------------- the files are what the programs accept

  lemma {:induction false} CapIsRunnable(x: Allocation, slot: real, cap: Vec, k: nat)
    requires AllocationOk(x) && slot > 0.0 && k <= |x.totals| && k <= |cap| && forall c :: 0 <= c < |cap| ==> cap[c] >= 0.0
    ensures ValidActivities(CapActivities(x, slot, cap, k), |x.mesh.cells|)
  {
    hide AllocationOk, ActivityFor, ActivityOk;
    if k > 0 {
      CapIsRunnable(x, slot, cap, k - 1);
      ActivityIsOk(x, k - 1, k, 0.0, slot, cap[k - 1]);
    }
  }

  /** Slot `t` of a trace is interval `t`. */
  function SlotIntervals(slots: seq<Vec>, slot: real): (r: seq<Interval>)
    ensures |r| == |slots| && forall t :: 0 <= t < |r| ==> r[t] == SlotOf(slots[t], slot, t)
  {
    seq(|slots|, t requires 0 <= t < |slots| => SlotOf(slots[t], slot, t))
  }

  function SlotOf(values: Vec, slot: real, t: nat): Interval {
    Interval(t as real * slot, (t + 1) as real * slot, values)
  }

  lemma SlotLasts(values: Vec, slot: real, t: nat)
    requires slot > 0.0
    ensures var i := SlotOf(values, slot, t);
            0.0 <= i.start < i.end && Duration(i) == slot && SlotInterval(i, t, slot)
  {
    assert (t + 1) as real * slot == t as real * slot + slot;
  }

  lemma SlotsOnGrid(slots: seq<Vec>, slot: real, groups: nat)
    requires slot > 0.0 && forall t :: 0 <= t < |slots| ==> |slots[t]| == groups
    ensures OnGrid(SlotIntervals(slots, slot), slot) && IntervalsOk(SlotIntervals(slots, slot), groups)
  {
    hide SlotInterval, SlotOf;
    forall t | 0 <= t < |slots|
      ensures SlotInterval(SlotOf(slots[t], slot, t), t, slot)
      ensures SlotOf(slots[t], slot, t).start < SlotOf(slots[t], slot, t).end && |SlotOf(slots[t], slot, t).values| == groups
    {
      SlotLasts(slots[t], slot, t);
      ValuesOfSlot(slots[t], slot, t);
    }
  }

  lemma ValuesOfSlot(values: Vec, slot: real, t: nat)
    ensures SlotOf(values, slot, t).values == values
  {
  }

  lemma {:induction false} SameEnergy(slots: seq<Vec>, slot: real, t: nat)
    requires slot > 0.0 && t <= |slots|
    ensures SourceEnergy(SlotIntervals(slots, slot), t) == SlotsEnergy(slots, slot, t)
  {
    hide Times;
    if t > 0 {
      SameEnergy(slots, slot, t - 1);
      SlotLasts(slots[t - 1], slot, t - 1);
    }
  }

  /** Activity `q` has number `q + 1` and lies on slots within the run. */
  ghost predicate NumberedAndAligned(events: seq<Activity>, o: Options)
    requires o.slot > 0.0
  {
    forall q :: 0 <= q < |events| ==> events[q].id == q + 1 && AlignedActivity(events[q], o)
  }

  lemma SlotIsAligned(x: Allocation, c: nat, id: nat, i: Interval, w: real, o: Options, s: Schedule, t: nat)
    requires c < |x.totals| == |x.mesh.owned| && x.totals[c] > 0.0 && ValidOptions(o) && ScheduleOk(o, s)
    requires SlotInterval(i, t, o.slot) && t < s.slotCount
    ensures AlignedActivity(ActivityFor(x, c, id, i.start, i.end, w), o)
  {
    hide Nearest;
    NearestOfMultiple(i.start, t, o.slot);
    NearestOfMultiple(i.end, t + 1, o.slot);
    var n := s.slotCount;
    assert (n - (t + 1)) as real * o.slot == n as real * o.slot - (t + 1) as real * o.slot;
    assert (n - (t + 1)) as real * o.slot >= 0.0;
  }

  lemma {:induction false} ExportedIsNumbered(x: Allocation, intervals: seq<Interval>, powers: seq<Vec>, o: Options, s: Schedule,
                                              t: nat, k: nat)
    requires PowersOk(x, intervals, powers) && OnGrid(intervals, o.slot) && |intervals| <= s.slotCount
    requires ValidOptions(o) && ScheduleOk(o, s) && t <= |intervals| && k <= |x.totals| && (k > 0 ==> t < |intervals|)
    ensures NumberedAndAligned(Exported(x, intervals, powers, t, k), o)
    decreases t, k
  {
    hide AllocationOk, ActivityFor, AlignedActivity, ScheduleOk, SlotInterval, NumberedAndAligned, PowerOk;
    PowerSizes(x, intervals, powers);
    NoneNumbered(o);
    if k > 0 {
      ExportedIsNumbered(x, intervals, powers, o, s, t, k - 1);
      ExportedStep(x, intervals, powers, t, k);
      assert SlotInterval(intervals[t], t, o.slot);
      var before := Exported(x, intervals, powers, t, k - 1);
      SlotIsAligned(x, k - 1, |before| + 1, intervals[t], powers[t][k - 1], o, s, t);
      NumberOfActivity(x, k - 1, |before| + 1, intervals[t], powers[t][k - 1]);
      OneMoreNumbered(before, ActivityFor(x, k - 1, |before| + 1, intervals[t].start, intervals[t].end, powers[t][k - 1]), o);
    } else if t > 0 {
      ExportedIsNumbered(x, intervals, powers, o, s, t - 1, |x.totals|);
    }
  }

  lemma NoneNumbered(o: Options)
    requires o.slot > 0.0
    ensures NumberedAndAligned([], o)
  {
  }

  lemma OneMoreNumbered(events: seq<Activity>, a: Activity, o: Options)
    requires o.slot > 0.0 && NumberedAndAligned(events, o) && a.id == |events| + 1 && AlignedActivity(a, o)
    ensures NumberedAndAligned(events + [a], o)
  {
    hide AlignedActivity;
  }

  lemma NumberOfActivity(x: Allocation, c: nat, id: nat, i: Interval, w: real)
    requires c < |x.totals| == |x.mesh.owned| && x.totals[c] > 0.0
    ensures ActivityFor(x, c, id, i.start, i.end, w).id == id
  {
  }

  // ---------------------------------------------------------------- the run never leaves the domain

  /** Nothing in the set-up lies outside the domain, and the envelope limit is within it. */
  ghost predicate Comfortable(u: Setup) {
    && u.limit <= u.options.maxK
    && forall i :: 0 <= i < |u.network.nodes| ==>
         && u.options.minK <= u.network.nodes[i].initial <= u.options.maxK
         && (u.network.nodes[i].boundaryG > 0.0 ==> u.options.minK <= u.network.nodes[i].boundaryT)
  }

  /** The temperature of every node stays below its envelope, and that below the limit. */
  ghost predicate BelowEnvelope(u: Setup, envelope: Vec, trace: seq<Vec>) {
    && |envelope| == |u.network.nodes| && (forall i :: 0 <= i < |envelope| ==> envelope[i] <= u.limit)
    && forall k :: 0 <= k < |trace| ==> Below(trace[k], envelope)
  }

  /** What the campaign guarantees of a run of the exported activities, over and above its outcome. */
  ghost predicate RunOf(u: Setup, s: Schedule, events: seq<Activity>, powers: seq<Vec>, stepPowers: seq<Vec>, trace: seq<Vec>)
    requires ValidOptions(u.options)
  {
    && AllOnSlots(events, u.options, s) && IsSlotPowers(events, u.options, s, |u.network.nodes|, powers)
    && PowersUsed(s, powers, stepPowers) && IsTrace(u.network, u.options.step, stepPowers, trace)
  }

  /** Everything known about a derived trace before it is run. */
  ghost predicate Prepared(u: Setup, r: EnvelopeResult, cap: Vec, intervals: seq<Interval>, powers: seq<Vec>) {
    && SetupOk(u) && EnvelopeOk(u.network, r, u.limit) && r.EnvelopeFound? && r.selected.Some?
    && DerivedTrace(u.allocation, u.weights, u.caps, cap, intervals, powers, u.options.slot, r.selected.value)
    && CapOfFile(u.allocation, u.options.slot, cap, r)
  }

  ghost function EventsOf(u: Setup, intervals: seq<Interval>, powers: seq<Vec>): seq<Activity>
    requires PowersOk(u.allocation, intervals, powers)
  {
    Exported(u.allocation, intervals, powers, |intervals|, 0)
  }

  lemma RunsBelow(u: Setup, r: EnvelopeResult, cap: Vec, intervals: seq<Interval>, powers: seq<Vec>, s: Schedule,
                  slotPowers: seq<Vec>, stepPowers: seq<Vec>, trace: seq<Vec>)
    requires Prepared(u, r, cap, intervals, powers) && |intervals| <= s.slotCount
    requires RunOf(u, s, EventsOf(u, intervals, powers), slotPowers, stepPowers, trace)
    ensures |r.fixed| == |r.rise| && BelowEnvelope(u, Combine(r.fixed, r.selected.value, r.rise), trace)
  {
    hide DerivedTrace, CapOfFile, AllOnSlots, IsSlotPowers, Exported, EnvelopeOk, IsTrace, PowersUsed, AllocationOk, ValidNetwork;
    var envelope := EnvelopeFits(u, r);
    NodesExist(u);
    forall k | 0 <= k < |trace| ensures Below(trace[k], envelope) {
      DerivedRunsStayBelow(u.network, u.allocation, u.weights, u.caps, cap, intervals, powers, u.options, s, r, u.limit,
                           slotPowers, stepPowers, trace, k, 0);
      forall i | 0 <= i < |u.network.nodes| ensures trace[k][i] <= envelope[i] {
        DerivedRunsStayBelow(u.network, u.allocation, u.weights, u.caps, cap, intervals, powers, u.options, s, r, u.limit,
                             slotPowers, stepPowers, trace, k, i);
      }
    }
  }

  lemma NodesExist(u: Setup)
    requires SetupOk(u)
    ensures |u.network.nodes| > 0
  {
  }

  /** The selected envelope has a value for every node, within the limit. */
  lemma EnvelopeFits(u: Setup, r: EnvelopeResult) returns (envelope: Vec)
    requires SetupOk(u) && EnvelopeOk(u.network, r, u.limit) && r.EnvelopeFound? && r.selected.Some?
    ensures |r.fixed| == |r.rise| == |u.network.nodes| && envelope == Combine(r.fixed, r.selected.value, r.rise)
    ensures |envelope| == |u.network.nodes| && forall i :: 0 <= i < |envelope| ==> envelope[i] <= u.limit
  {
    SteadySizes(u.network, r.cap, r.rise);
    SteadySizes(u.network, FixedSources(u.network), r.fixed);
    envelope := Combine(r.fixed, r.selected.value, r.rise);
    var k :| SelectedAt(u.network, r, u.limit, k);
    assert AllWithin(envelope, u.limit);
  }

  lemma StepPowersAreNotNegative(u: Setup, intervals: seq<Interval>, powers: seq<Vec>, s: Schedule,
                                 slotPowers: seq<Vec>, stepPowers: seq<Vec>, q: nat)
    requires SetupOk(u) && PowersOk(u.allocation, intervals, powers) && OnGrid(intervals, u.options.slot)
    requires |intervals| <= s.slotCount && AllOnSlots(EventsOf(u, intervals, powers), u.options, s)
    requires IsSlotPowers(EventsOf(u, intervals, powers), u.options, s, |u.network.nodes|, slotPowers)
    requires PowersUsed(s, slotPowers, stepPowers) && q < |stepPowers|
    ensures forall i :: 0 <= i < |stepPowers[q]| ==> stepPowers[q][i] >= 0.0
  {
    hide Exported, SlotPower, OnSlots, AllocationOk, TileIndex, ActivityOk, PowerOk, SlotInterval;
    var events := EventsOf(u, intervals, powers);
    ExportedIsRunnable(u.allocation, intervals, powers, u.options, s, |intervals|, 0);
    AllPositive(events, u.options, s);
    var t, local := DomainInput.SlotOfStep(s, q);
    assert stepPowers[q] == slotPowers[t];
    forall i | 0 <= i < |slotPowers[t]| ensures slotPowers[t][i] >= 0.0 {
      SlotPowerIsNotNegative(events, |u.network.nodes|, u.options, |events|, t, i);
    }
  }

  lemma FloorHolds(u: Setup, intervals: seq<Interval>, powers: seq<Vec>, s: Schedule,
                   slotPowers: seq<Vec>, stepPowers: seq<Vec>, trace: seq<Vec>, k: nat)
    requires SetupOk(u) && Comfortable(u) && PowersOk(u.allocation, intervals, powers) && OnGrid(intervals, u.options.slot)
    requires |intervals| <= s.slotCount && k < |trace|
    requires RunOf(u, s, EventsOf(u, intervals, powers), slotPowers, stepPowers, trace)
    ensures forall i :: 0 <= i < |trace[k]| ==> u.options.minK <= trace[k][i]
  {
    hide Exported, AllOnSlots, IsSlotPowers, PowersUsed, IsTrace, AllocationOk, ValidNetwork, PowersOk, OnGrid;
    forall q, i | 0 <= q < |stepPowers| && 0 <= i < |stepPowers[q]| ensures stepPowers[q][i] >= 0.0 {
      StepPowersAreNotNegative(u, intervals, powers, s, slotPowers, stepPowers, q);
    }
    TraceAboveFloor(u.network, u.options.step, stepPowers, trace, k, u.options.minK);
  }

  /** Step number `n` belongs to slot `slot`. */
  ghost predicate InSlot(s: Schedule, n: nat, slot: nat) {
    forall t: nat, local: nat {:trigger TileIndex(s, t, local)} :: local < s.stepsPerSlot && TileIndex(s, t, local) == n ==> t == slot
  }

  lemma SlotByDivision(s: Schedule, n: nat)
    ensures InSlot(s, n, n / s.stepsPerSlot)
  {
    hide TileIndex;
    forall t: nat, local: nat | local < s.stepsPerSlot && TileIndex(s, t, local) == n ensures t == n / s.stepsPerSlot {
      RcRun.SlotOfStep(s, t, local);
    }
  }

  lemma TraceExtended(m: Network, step: real, stepPowers: seq<Vec>, trace: seq<Vec>, power: Vec, field: Vec)
    requires step > 0.0 && IsTrace(m, step, stepPowers, trace) && IsStep(m, step, power, trace[|trace| - 1], field)
    ensures IsTrace(m, step, stepPowers + [power], trace + [field])
  {
    hide IsStep;
    var more, fields := stepPowers + [power], trace + [field];
    forall k | 0 <= k < |more| ensures IsStep(m, step, more[k], fields[k], fields[k + 1]) {
      if k < |stepPowers| {
        assert IsStep(m, step, stepPowers[k], trace[k], trace[k + 1]);
      }
    }
  }

  lemma UseExtended(s: Schedule, powers: seq<Vec>, stepPowers: seq<Vec>, slot: nat)
    requires PowersUsed(s, powers, stepPowers) && slot < |powers| && InSlot(s, |stepPowers|, slot)
    ensures PowersUsed(s, powers, stepPowers + [powers[slot]])
  {
    hide TileIndex;
  }

  /** The run up to and including the step that is said to leave the domain. */
  lemma OneStepOn(u: Setup, s: Schedule, events: seq<Activity>, powers: seq<Vec>, stepPowers: seq<Vec>, trace: seq<Vec>,
                  slot: nat, field: Vec)
    requires ValidOptions(u.options) && RunOf(u, s, events, powers, stepPowers, trace) && |trace| > 0
    requires slot < |powers| && InSlot(s, |stepPowers|, slot)
    requires IsStep(u.network, u.options.step, powers[slot], trace[|trace| - 1], field)
    ensures RunOf(u, s, events, powers, stepPowers + [powers[slot]], trace + [field])
  {
    hide AllOnSlots, IsSlotPowers, IsStep, IsTrace, PowersUsed, InSlot;
    TraceExtended(u.network, u.options.step, stepPowers, trace, powers[slot], field);
    UseExtended(s, powers, stepPowers, slot);
  }

  /** Below the envelope and above the floor there is no way out of the domain. */
  lemma NeverLeaves(u: Setup, r: EnvelopeResult, cap: Vec, intervals: seq<Interval>, powers: seq<Vec>, s: Schedule,
                    slotPowers: seq<Vec>, stepPowers: seq<Vec>, trace: seq<Vec>)
    requires Prepared(u, r, cap, intervals, powers) && Comfortable(u) && |intervals| <= s.slotCount && |trace| > 0
    requires RunOf(u, s, EventsOf(u, intervals, powers), slotPowers, stepPowers, trace)
    ensures !NextLeavesDomain(u.network, u.options, s, slotPowers, |stepPowers|, trace[|trace| - 1])
  {
    GridOfTrace(u, r, cap, intervals, powers);
    hide DerivedTrace, CapOfFile, RunOf, Exported, EnvelopeOk, AllocationOk, ValidNetwork, IsStep, InSlot;
    SlotByDivision(s, |stepPowers|);
    var q, events := |stepPowers| / s.stepsPerSlot, EventsOf(u, intervals, powers);
    if q < |slotPowers| {
      forall x | IsStep(u.network, u.options.step, slotPowers[q], trace[|trace| - 1], x) ensures !Escapes(u.options, x) {
        OneStepOn(u, s, events, slotPowers, stepPowers, trace, q, x);
        var more, fields := stepPowers + [slotPowers[q]], trace + [x];
        RunsBelow(u, r, cap, intervals, powers, s, slotPowers, more, fields);
        FloorHolds(u, intervals, powers, s, slotPowers, more, fields, |trace|);
        assert fields[|trace|] == x;
        assert Below(fields[|trace|], Combine(r.fixed, r.selected.value, r.rise));
      }
    }
  }

  lemma GridOfTrace(u: Setup, r: EnvelopeResult, cap: Vec, intervals: seq<Interval>, powers: seq<Vec>)
    requires Prepared(u, r, cap, intervals, powers)
    ensures PowersOk(u.allocation, intervals, powers) && OnGrid(intervals, u.options.slot)
  {
  }

  // ---------------------------------------------------------------- the chain as a program

  datatype DerivedRun =
    | NoEnvelope
    | NoFactor
    | BadTrace
    | Ran(alpha: real, envelope: Vec, outcome: Outcome)

  function Limits(caps: Vec, alpha: real): (r: seq<Option<real>>)
    ensures |r| == |caps| && forall g :: 0 <= g < |r| ==> r[g] == Some(Times(alpha, caps[g]))
  {
    seq(|caps|, g requires 0 <= g < |caps| => Some(Times(alpha, caps[g])))
  }

  lemma OwnedMatch(x: Allocation)
    requires AllocationOk(x)
    ensures |x.mesh.owned| == |x.totals|
  {
  }

  /** The component caps, and the envelope of the cap file. */
  method PredictFactor(u: Setup, solve: Solver) returns (r: EnvelopeResult, cap: Vec)
    requires SetupOk(u) && SolverOk(u, solve)
    ensures CapIs(u.weights, u.caps, cap, |u.allocation.totals|) && EnvelopeOk(u.network, r, u.limit)
    ensures r.EnvelopeFound? ==> CapOfFile(u.allocation, u.options.slot, cap, r)
    ensures !Grounded(u.network) ==> r.EnvelopeRefused?
  {
    hide PowerIs, AllocationOk, ValidNetwork, Exact, CapActivities, EnvelopeOk, Grounded;
    var n := |u.allocation.totals|;
    forall g | 0 <= g < |u.caps| ensures ValueOk(u.caps[g], Limits(u.caps, 1.0)[g]) {
      TimesSwap(1.0, u.caps[g]);
      TimesOne(u.caps[g]);
    }
    var split := SplitInterval(u.weights, Limits(u.caps, 1.0), u.caps, n);
    cap := split.value;
    SplitIsNotNegative(u.weights, u.caps, cap, n);
    forall c | 0 <= c < n ensures |u.allocation.mesh.owned| == n && u.allocation.totals[c] > 0.0 {
      TotalsPositive(u.allocation, c);
    }
    OwnedMatch(u.allocation);
    var file := BuildCap(u.allocation, u.options.slot, cap);
    CapIsRunnable(u.allocation, u.options.slot, cap, n);
    r := SteadyEnvelope(u.network, file.value.events, u.limit, solve);
  }

  /** Scale the trace, split it over the components and write the events. */
  method ExportDerived(u: Setup, slots: seq<Vec>, alpha: real)
    returns (events: Option<seq<Activity>>, ghost intervals: seq<Interval>, ghost powers: seq<Vec>)
    requires SetupOk(u) && alpha >= 0.0
    ensures events.Some? <==> TraceAccepted(slots, u.caps)
    ensures events.Some? ==>
              && |intervals| == |slots| && PowersOk(u.allocation, intervals, powers) && OnGrid(intervals, u.options.slot)
              && IsSplit(u.weights, intervals, powers, |u.allocation.totals|)
              && (forall t :: 0 <= t < |intervals| ==> WithinScaledCaps(intervals[t].values, u.caps, alpha))
              && events.value == EventsOf(u, intervals, powers)
              && DeclaredEnergy(events.value, |events.value|) == Times(alpha, SlotsEnergy(slots, u.options.slot, |slots|))
  {
    hide Times, AllocationOk, ValidNetwork, Exported, SlotOk, WithinScaledCaps, WeightsOk, IsSplit, SlotInterval, SlotsEnergy,
      SourceEnergy, DeclaredEnergy, ValuesOk;
    intervals, powers := [], [];
    var derived, original, scaled := Derive(slots, u.caps, u.options.slot, alpha);
    if derived.None? {
      return None, [], [];
    }
    var n, trace := |u.allocation.totals|, SlotIntervals(derived.value, u.options.slot);
    forall t | 0 <= t < |trace|
      ensures trace[t].values == derived.value[t] && ValuesOk(trace[t].values, Limits(u.caps, alpha))
      ensures |derived.value[t]| == |u.caps| && forall g :: 0 <= g < |derived.value[t]| ==> derived.value[t][g] >= 0.0
    {
      ValuesOfSlot(derived.value[t], u.options.slot, t);
      ScaledIsWithin(derived.value[t], u.caps, alpha);
    }
    SlotsOnGrid(derived.value, u.options.slot, |u.weights|);
    var split, energy := NormalizePower(u.weights, Limits(u.caps, alpha), trace, n);
    intervals, powers := trace, split.value;
    SplitPowersOk(u, derived.value, trace, split.value);
    var written, emitted := ExportActivities(u.allocation, trace, split.value);
    SameEnergy(derived.value, u.options.slot, |slots|);
    PipelineConserves(u.allocation, u.weights, trace, split.value);
    events := Some(written);
  }

  lemma ScaledIsWithin(values: Vec, caps: Vec, alpha: real)
    requires WithinScaledCaps(values, caps, alpha)
    ensures |values| == |caps| && ValuesOk(values, Limits(caps, alpha)) && forall g :: 0 <= g < |values| ==> values[g] >= 0.0
  {
    hide Times;
    forall g | 0 <= g < |values| ensures ValueOk(values[g], Limits(caps, alpha)[g]) {
    }
  }

  lemma SplitPowersOk(u: Setup, slots: seq<Vec>, intervals: seq<Interval>, powers: seq<Vec>)
    requires SetupOk(u) && intervals == SlotIntervals(slots, u.options.slot)
    requires IsSplit(u.weights, intervals, powers, |u.allocation.totals|)
    requires forall t :: 0 <= t < |slots| ==> forall g :: 0 <= g < |slots[t]| ==> slots[t][g] >= 0.0
    ensures PowersOk(u.allocation, intervals, powers)
  {
    hide AllocationOk, ValidNetwork, PowerIs, WeightsOk;
    forall t | 0 <= t < |intervals| ensures PowerOk(u.allocation, intervals[t], powers[t]) {
      SlotLasts(slots[t], u.options.slot, t);
      ValuesOfSlot(slots[t], u.options.slot, t);
      SplitIsNotNegative(u.weights, intervals[t].values, powers[t], |u.allocation.totals|);
    }
  }

  /**
   The chain.  A run that takes place stays below the predicted envelope and the limit at every step and node.
   If the set-up lies inside the domain, the limit too, and the trace fits the schedule, the run finishes, and what
   it receives is exactly the factor times the energy of the given trace.
   */
  method RunDerived(u: Setup, slots: seq<Vec>, solve: Solver) returns (r: DerivedRun, ghost trace: seq<Vec>)
    requires SetupOk(u) && SolverOk(u, solve)
    ensures !Grounded(u.network) ==> r.NoEnvelope?
    ensures r.BadTrace? ==> !TraceAccepted(slots, u.caps)
    ensures r.Ran? ==> 0.0 < r.alpha <= 1.0 && TraceAccepted(slots, u.caps)
    ensures r.Ran? && ScheduleFor(u.options).Some? && |slots| <= ScheduleFor(u.options).value.slotCount ==>
              && (!r.outcome.Rejected? ==> BelowEnvelope(u, r.envelope, trace))
              && (Comfortable(u) ==> r.outcome.Finished?)
    ensures r.Ran? && r.outcome.Finished? ==>
              var receipt := r.outcome.receipt;
              && receipt.stored + receipt.boundaryLoss == receipt.applied + receipt.staticInput
              && receipt.applied == Times(r.alpha, SlotsEnergy(slots, u.options.slot, |slots|))
  {
    hide SetupOk, SolverOk, EnvelopeOk, CapOfFile, IsSplit, WithinScaledCaps, Exported, Times, TraceAccepted, SlotsEnergy, DeclaredEnergy,
      Grounded, CapIs, NextLeavesDomain, BelowEnvelope, Comfortable, RunOf, AcceptedActivities, Schedulable, Escapes, ScheduleOk;
    trace := [];
    PartsOf(u, solve);
    var found, cap := PredictFactor(u, solve);
    if found.EnvelopeRefused? {
      return NoEnvelope, [];
    }
    if found.selected.None? {
      return NoFactor, [];
    }
    FactorIsPositive(u.network, found, u.limit);
    var alpha := found.selected.value;
    ghost var envelope := EnvelopeFits(u, found);
    var events, intervals, powers := ExportDerived(u, slots, alpha);
    if events.None? {
      return BadTrace, [];
    }
    assert Prepared(u, found, cap, intervals, powers);
    EventsAreValid(u, intervals, powers);
    var outcome;
    ghost var slotPowers, stepPowers;
    outcome, slotPowers, stepPowers, trace := Campaign(u.network, events.value, u.options, solve);
    if ScheduleFor(u.options).Some? && |slots| <= ScheduleFor(u.options).value.slotCount {
      ghost var s := ScheduleFor(u.options).value;
      if !outcome.Rejected? {
        CampaignRuns(u, s, events.value, slotPowers, stepPowers, trace);
        RunsBelow(u, found, cap, intervals, powers, s, slotPowers, stepPowers, trace);
        if Comfortable(u) {
          NeverLeaves(u, found, cap, intervals, powers, s, slotPowers, stepPowers, trace);
        }
      } else if Comfortable(u) {
        EventsAreAccepted(u, intervals, powers, s);
        StartsInside(u);
      }
    }
    if outcome.Finished? {
      ReceiptBalances(u.network, events.value, u.options, ScheduleFor(u.options).value, stepPowers, trace, outcome.receipt);
    }
    r := Ran(alpha, Combine(found.fixed, alpha, found.rise), outcome);
  }

  lemma PartsOf(u: Setup, solve: Solver)
    requires SetupOk(u) && SolverOk(u, solve)
    ensures ValidNetwork(u.network) && ValidOptions(u.options)
    ensures WeightsOk(u.weights, |u.allocation.totals|) && |u.caps| == |u.weights|
    ensures Exact(solve, MatrixEntries(u.network, SystemDiagonal(u.network, u.options.step), |u.network.edges|), |u.network.nodes|)
  {
  }

  lemma EventsAreValid(u: Setup, intervals: seq<Interval>, powers: seq<Vec>)
    requires SetupOk(u) && PowersOk(u.allocation, intervals, powers) && OnGrid(intervals, u.options.slot)
    ensures ValidActivities(EventsOf(u, intervals, powers), |u.network.nodes|)
  {
    var count: pos := |intervals| + 1;
    ExportedIsRunnable(u.allocation, intervals, powers, u.options, Schedule(1, count, 1, 1), |intervals|, 0);
  }

  lemma EventsAreAccepted(u: Setup, intervals: seq<Interval>, powers: seq<Vec>, s: Schedule)
    requires SetupOk(u) && PowersOk(u.allocation, intervals, powers) && OnGrid(intervals, u.options.slot)
    requires ScheduleOk(u.options, s) && |intervals| <= s.slotCount
    ensures AcceptedActivities(EventsOf(u, intervals, powers), u.options)
    ensures Schedulable(EventsOf(u, intervals, powers), u.options)
  {
    AcceptedMeans(EventsOf(u, intervals, powers), u.options);
    hide AllocationOk, ValidNetwork, AlignedActivity, Exported, PowersOk, OnGrid, ScheduleOk;
    ExportedIsNumbered(u.allocation, intervals, powers, u.options, s, |intervals|, 0);
  }

  lemma StartsInside(u: Setup)
    requires Comfortable(u)
    ensures !Escapes(u.options, Initial(u.network))
  {
  }

  lemma CampaignRuns(u: Setup, s: Schedule, events: seq<Activity>, powers: seq<Vec>, stepPowers: seq<Vec>, trace: seq<Vec>)
    requires ValidOptions(u.options) && AllOnSlots(events, u.options, s)
    requires IsSlotPowers(events, u.options, s, |u.network.nodes|, powers) && PowersUsed(s, powers, stepPowers)
    requires IsTrace(u.network, u.options.step, stepPowers, trace)
    ensures RunOf(u, s, events, powers, stepPowers, trace) && |trace| > 0
  {
  }

  lemma ReceiptBalances(m: Network, activities: seq<Activity>, o: Options, s: Schedule, stepPowers: seq<Vec>, trace: seq<Vec>,
                        r: Receipt)
    requires ReceiptOk(m, activities, o, s, stepPowers, trace, r)
    ensures r.stored + r.boundaryLoss == r.applied + r.staticInput
    ensures r.applied == DeclaredEnergy(activities, |activities|)
  {
  }
}

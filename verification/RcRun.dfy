/** Slot powers and the stepping loop of the runner. */
module RcRun {
  import opened Wrappers
  import opened RcNetwork
  import opened RcTheory
  import opened RcGround
  import opened RcRunner

  // ---------------------------------------------------------------- schedule

  /** The nearest whole number (halves away from zero), for nonnegative arguments. */
  function Nearest(x: real): int {
    (x + 0.5).Floor
  }

  const MAX_UINT64: nat := 0xffff_ffff_ffff_ffff

  /** `whole` is `n` times `part`, and `n` is a 64-bit count. */
  predicate Divides(n: pos, part: real, whole: real) {
    n <= MAX_UINT64 && n as real * part == whole
  }

  /** How often `part` goes into `whole`; `None` when it does not divide it into a 64-bit count of parts. */
  function Ratio(whole: real, part: real): (n: Option<pos>)
    requires part > 0.0
    ensures n.Some? ==> Divides(n.value, part, whole)
    ensures n.None? ==> forall k: pos :: !Divides(k, part, whole)
  {
    hide Divides, Nearest;
    var raw := whole / part;
    if 1.0 <= raw <= MAX_UINT64 as real && Nearest(raw) as real == raw then
      WholeDivides(whole, part);
      Some(Nearest(raw))
    else
      OthersDoNotDivide(whole, part);
      None
  }

  lemma WholeDivides(whole: real, part: real)
    requires part > 0.0 && 1.0 <= whole / part <= MAX_UINT64 as real && Nearest(whole / part) as real == whole / part
    ensures Nearest(whole / part) >= 1 && Divides(Nearest(whole / part), part, whole)
  {
    hide Nearest;
    assert (whole / part) * part == whole;
  }

  lemma OthersDoNotDivide(whole: real, part: real)
    requires part > 0.0 && !(1.0 <= whole / part <= MAX_UINT64 as real && Nearest(whole / part) as real == whole / part)
    ensures forall k: pos :: !Divides(k, part, whole)
  {
    RatioIsCount(whole, part);
    forall k: pos ensures !Divides(k, part, whole) {
      NearestOfCount(k);
    }
  }

  lemma NearestOfCount(k: pos)
    ensures Nearest(k as real) == k
  {
  }

  lemma RatioIsCount(whole: real, part: real)
    requires part > 0.0
    ensures forall k: pos :: Divides(k, part, whole) ==> whole / part == k as real
  {
    forall k: pos | Divides(k, part, whole) ensures whole / part == k as real {
      assert (k as real * part) / part == k as real;
    }
  }

  function ScheduleFor(o: Options): (s: Option<Schedule>)
    requires ValidOptions(o)
    ensures s.Some? ==> ScheduleOk(o, s.value)
    ensures s.None? ==> forall t :: !ScheduleOk(o, t)
  {
    hide Divides;
    var stepsPerSlot := Ratio(o.slot, o.step);
    var slotCount := Ratio(o.end, o.slot);
    var stepsPerSample := Ratio(o.sample, o.step);
    var sampleCount := Ratio(o.end, o.sample);
    if stepsPerSlot.None? || slotCount.None? || stepsPerSample.None? || sampleCount.None? then None
    else if slotCount.value > MAX_UINT64 / stepsPerSlot.value then
      TooManySteps(o, stepsPerSlot.value, slotCount.value);
      None
    else
      QuotientBound(slotCount.value, stepsPerSlot.value);
      Some(Schedule(stepsPerSlot.value, slotCount.value, stepsPerSample.value, sampleCount.value))
  }

  lemma QuotientBound(count: pos, each: pos)
    ensures count <= MAX_UINT64 / each <==> count * each <= MAX_UINT64
  {
    assert MAX_UINT64 / each * each + MAX_UINT64 % each == MAX_UINT64;
    if count <= MAX_UINT64 / each {
      ProductOrder(count, MAX_UINT64 / each, each);
    } else {
      ProductOrder(MAX_UINT64 / each + 1, count, each);
    }
  }

  lemma TooManySteps(o: Options, stepsPerSlot: pos, slotCount: pos)
    requires ValidOptions(o) && slotCount > MAX_UINT64 / stepsPerSlot
    requires Divides(stepsPerSlot, o.step, o.slot) && Divides(slotCount, o.slot, o.end)
    ensures forall t :: !ScheduleOk(o, t)
  {
    forall t ensures !ScheduleOk(o, t) {
      if ScheduleOk(o, t) {
        SameCount(t.stepsPerSlot, stepsPerSlot, o.step, o.slot);
        SameCount(t.slotCount, slotCount, o.slot, o.end);
        QuotientBound(slotCount, stepsPerSlot);
      }
    }
  }

  lemma SameCount(n: pos, k: pos, part: real, whole: real)
    requires part > 0.0 && Divides(n, part, whole) && Divides(k, part, whole)
    ensures n == k
  {
    RatioIsCount(whole, part);
    assert n as real == k as real;
  }

  /** Steps tile the slots and the samples, both tile the run, and the number of steps is a 64-bit count. */
  ghost predicate ScheduleOk(o: Options, s: Schedule) {
    && Divides(s.stepsPerSlot, o.step, o.slot) && Divides(s.slotCount, o.slot, o.end)
    && Divides(s.stepsPerSample, o.step, o.sample) && Divides(s.sampleCount, o.sample, o.end)
    && s.slotCount * s.stepsPerSlot <= MAX_UINT64
  }

  /** Options have a schedule exactly when there is one, and it is unique. */
  lemma ScheduleIsExact(o: Options, s: Schedule)
    requires ValidOptions(o)
    ensures ScheduleOk(o, s) <==> ScheduleFor(o) == Some(s)
  {
    hide Ratio, Divides, ScheduleFor;
    var t := ScheduleFor(o);
    if t.Some? && ScheduleOk(o, s) {
      SameCount(s.stepsPerSlot, t.value.stepsPerSlot, o.step, o.slot);
      SameCount(s.slotCount, t.value.slotCount, o.slot, o.end);
      SameCount(s.stepsPerSample, t.value.stepsPerSample, o.step, o.sample);
      SameCount(s.sampleCount, t.value.sampleCount, o.sample, o.end);
    }
  }

  /** The label of step `local` of slot `slot`; the last step of a slot is labelled by the slot's end. */
  function StepLabel(o: Options, s: Schedule, slot: nat, local: nat): real {
    if local == s.stepsPerSlot then (slot + 1) as real * o.slot
    else slot as real * o.slot + local as real * o.step
  }

  /** In exact arithmetic every label is its step number times the step: the grid error is zero. */
  lemma LabelIsOnGrid(o: Options, s: Schedule, slot: nat, local: nat)
    requires ScheduleOk(o, s) && local <= s.stepsPerSlot
    ensures StepLabel(o, s, slot, local) == (slot * s.stepsPerSlot + local) as real * o.step
  {
    var n := s.stepsPerSlot;
    assert (slot * n + local) as real == slot as real * n as real + local as real;
    assert slot as real * o.slot == slot as real * (n as real * o.step);
    assert slot as real * (n as real * o.step) == (slot as real * n as real) * o.step;
    assert (slot as real * n as real + local as real) * o.step
        == (slot as real * n as real) * o.step + local as real * o.step;
    assert (slot + 1) as real * o.slot == slot as real * o.slot + o.slot;
  }

  // ---------------------------------------------------------------- activities on slots

  /** Start and end lie on slot boundaries inside the run. */
  predicate AlignedActivity(a: Activity, o: Options)
    requires o.slot > 0.0
  {
    && a.start == Nearest(a.start / o.slot) as real * o.slot
    && a.end == Nearest(a.end / o.slot) as real * o.slot
    && a.start >= 0.0 && a.end <= o.end && a.completion <= o.end
  }

  predicate UniqueActivityIds(activities: seq<Activity>) {
    forall i, k :: 0 <= i < k < |activities| ==> activities[i].id != activities[k].id
  }

  predicate AcceptedActivities(activities: seq<Activity>, o: Options)
    requires o.slot > 0.0
  {
    UniqueActivityIds(activities) && forall i :: 0 <= i < |activities| ==> AlignedActivity(activities[i], o)
  }

  ghost predicate IsSlotEdge(x: real, k: int, slot: real) {
    x == k as real * slot
  }

  /** The activity begins and ends on slot edges, and is complete, within the run. */
  ghost predicate FitsRun(a: Activity, o: Options) {
    && (exists k: int :: IsSlotEdge(a.start, k, o.slot)) && (exists k: int :: IsSlotEdge(a.end, k, o.slot))
    && 0.0 <= a.start && a.end <= o.end && a.completion <= o.end
  }

  /** No id comes twice, and every activity fits the run. */
  ghost predicate Schedulable(activities: seq<Activity>, o: Options) {
    && (forall i, k :: 0 <= i < |activities| && 0 <= k < |activities| && activities[i].id == activities[k].id ==> i == k)
    && forall i :: 0 <= i < |activities| ==> FitsRun(activities[i], o)
  }

  lemma NearestMeans(x: real, slot: real)
    requires slot > 0.0
    ensures x == Nearest(x / slot) as real * slot <==> exists k: int :: IsSlotEdge(x, k, slot)
  {
    if x == Nearest(x / slot) as real * slot {
      assert IsSlotEdge(x, Nearest(x / slot), slot);
    }
    if k: int :| IsSlotEdge(x, k, slot) {
      assert x / slot == k as real;
      assert Nearest(k as real) == k;
    }
  }

  lemma AcceptedMeans(activities: seq<Activity>, o: Options)
    requires o.slot > 0.0
    ensures AcceptedActivities(activities, o) <==> Schedulable(activities, o)
  {
    hide Nearest;
    forall i | 0 <= i < |activities| ensures AlignedActivity(activities[i], o) <==> FitsRun(activities[i], o) {
      NearestMeans(activities[i].start, o.slot);
      NearestMeans(activities[i].end, o.slot);
    }
    hide AlignedActivity, FitsRun;
    if AcceptedActivities(activities, o) {
      forall i, k | 0 <= i < |activities| && 0 <= k < |activities| && activities[i].id == activities[k].id ensures i == k {
      }
    }
  }

  function FirstSlot(a: Activity, o: Options): int
    requires o.slot > 0.0
  {
    Nearest(a.start / o.slot)
  }

  function EndSlot(a: Activity, o: Options): int
    requires o.slot > 0.0
  {
    Nearest(a.end / o.slot)
  }

  function SlotDuration(a: Activity, o: Options): real
    requires o.slot > 0.0
  {
    (EndSlot(a, o) - FirstSlot(a, o)) as real * o.slot
  }

  /** An accepted activity covers a nonempty range of slots that lasts exactly as long as it does. */
  ghost predicate OnSlots(a: Activity, o: Options, s: Schedule)
    requires o.slot > 0.0
  {
    && 0 <= FirstSlot(a, o) < EndSlot(a, o) <= s.slotCount
    && SlotDuration(a, o) == a.end - a.start > 0.0
  }

  lemma OrderedBySlot(p: int, q: int, slot: real)
    requires slot > 0.0
    ensures p as real * slot < q as real * slot <==> p < q
  {
    if p < q {
      assert (q - p) as real >= 1.0;
      assert q as real * slot - p as real * slot == (q - p) as real * slot;
    } else {
      assert (p - q) as real >= 0.0;
      assert p as real * slot - q as real * slot == (p - q) as real * slot;
    }
  }

  lemma SlotRange(p: int, q: int, count: int, slot: real, start: real, end: real, total: real)
    requires slot > 0.0 && start == p as real * slot && end == q as real * slot && total == count as real * slot
    requires 0.0 <= start < end <= total
    ensures 0 <= p < q <= count && (q - p) as real * slot == end - start
  {
    OrderedBySlot(p, q, slot);
    OrderedBySlot(p, 0, slot);
    OrderedBySlot(count, q, slot);
  }

  lemma AcceptedIsOnSlots(a: Activity, o: Options, s: Schedule, n: nat)
    requires ValidOptions(o) && ScheduleOk(o, s) && AlignedActivity(a, o) && ActivityOk(a, n)
    ensures OnSlots(a, o, s)
  {
    hide Nearest;
    SlotRange(FirstSlot(a, o), EndSlot(a, o), s.slotCount, o.slot, a.start, a.end, o.end);
  }

  ghost predicate AllOnSlots(activities: seq<Activity>, o: Options, s: Schedule)
    requires o.slot > 0.0
  {
    forall i :: 0 <= i < |activities| ==> OnSlots(activities[i], o, s)
  }

  /** Power the first `k` activities put on node `i` during slot `t`. */
  function SlotPower(activities: seq<Activity>, o: Options, k: nat, t: nat, i: nat): real
    requires o.slot > 0.0 && k <= |activities|
    requires forall q :: 0 <= q < k ==> SlotDuration(activities[q], o) > 0.0
  {
    if k == 0 then 0.0
    else
      var a := activities[k - 1];
      SlotPower(activities, o, k - 1, t, i)
      + if FirstSlot(a, o) <= t < EndSlot(a, o) then AssignedPower(a, SlotDuration(a, o), |a.nodeEnergy|, i) else 0.0
  }

  ghost predicate IsSlotPowers(activities: seq<Activity>, o: Options, s: Schedule, n: nat, powers: seq<Vec>)
    requires o.slot > 0.0 && AllOnSlots(activities, o, s)
  {
    && |powers| == s.slotCount
    && (forall t :: 0 <= t < |powers| ==> |powers[t]| == n)
    && (forall t, i :: 0 <= t < |powers| && 0 <= i < n ==>
          powers[t][i] == SlotPower(activities, o, |activities|, t, i))
  }

  /** Power on node `i` at the start of slot `t`: every activity under way spreads its energy evenly over its own duration. */
  function PowerAt(activities: seq<Activity>, k: nat, slot: real, t: nat, i: nat): real
    requires k <= |activities| && forall q :: 0 <= q < k ==> activities[q].end > activities[q].start
  {
    if k == 0 then 0.0
    else
      var a := activities[k - 1];
      PowerAt(activities, k - 1, slot, t, i)
      + if a.start <= t as real * slot < a.end then AssignedPower(a, a.end - a.start, |a.nodeEnergy|, i) else 0.0
  }

  /** In each slot every node gets the power that is on at the slot's start. */
  ghost predicate FollowActivities(activities: seq<Activity>, o: Options, n: nat, powers: seq<Vec>) {
    && (forall q :: 0 <= q < |activities| ==> activities[q].end > activities[q].start)
    && (forall t :: 0 <= t < |powers| ==> |powers[t]| == n)
    && forall t, i :: 0 <= t < |powers| && 0 <= i < n ==> FollowsAt(activities, o, powers[t], t, i)
  }

  ghost predicate FollowsAt(activities: seq<Activity>, o: Options, power: Vec, t: nat, i: nat)
    requires i < |power| && forall q :: 0 <= q < |activities| ==> activities[q].end > activities[q].start
  {
    power[i] == PowerAt(activities, |activities|, o.slot, t, i)
  }

  lemma UnderWay(a: Activity, o: Options, t: nat)
    requires o.slot > 0.0 && AlignedActivity(a, o)
    ensures FirstSlot(a, o) <= t < EndSlot(a, o) <==> a.start <= t as real * o.slot < a.end
    ensures SlotDuration(a, o) == a.end - a.start
  {
    hide Nearest;
    var p, q := FirstSlot(a, o), EndSlot(a, o);
    assert a.start == p as real * o.slot && a.end == q as real * o.slot;
    OrderedBySlot(t, p, o.slot);
    OrderedBySlot(t, q, o.slot);
    assert (q - p) as real * o.slot == q as real * o.slot - p as real * o.slot;
  }

  lemma {:induction false} SlotPowerIsPowerAt(activities: seq<Activity>, o: Options, k: nat, t: nat, i: nat)
    requires o.slot > 0.0 && k <= |activities| && forall q :: 0 <= q < k ==> AlignedActivity(activities[q], o)
    requires forall q :: 0 <= q < k ==> SlotDuration(activities[q], o) > 0.0
    ensures forall q :: 0 <= q < k ==> activities[q].end > activities[q].start
    ensures SlotPower(activities, o, k, t, i) == PowerAt(activities, k, o.slot, t, i)
  {
    hide AlignedActivity, FirstSlot, EndSlot, SlotDuration, AssignedPower;
    if k > 0 {
      SlotPowerIsPowerAt(activities, o, k - 1, t, i);
      UnderWay(activities[k - 1], o, t);
    }
  }

  lemma SlotPowersFollow(activities: seq<Activity>, o: Options, s: Schedule, n: nat, powers: seq<Vec>)
    requires o.slot > 0.0 && AcceptedActivities(activities, o) && AllOnSlots(activities, o, s)
    requires IsSlotPowers(activities, o, s, n, powers)
    ensures FollowActivities(activities, o, n, powers)
  {
    hide AlignedActivity, SlotPower, PowerAt, UniqueActivityIds, SlotDuration, FirstSlot, EndSlot;
    forall q | 0 <= q < |activities| ensures SlotDuration(activities[q], o) > 0.0 && activities[q].end > activities[q].start {
      assert OnSlots(activities[q], o, s);
    }
    hide OnSlots;
    forall t, i | 0 <= t < |powers| && 0 <= i < n ensures FollowsAt(activities, o, powers[t], t, i) {
      assert powers[t][i] == SlotPower(activities, o, |activities|, t, i);
      SlotPowerIsPowerAt(activities, o, |activities|, t, i);
    }
  }

  /** Add one activity's power to one slot. */
  method AddToSlot(a: Activity, duration: real, power: Vec) returns (r: Vec)
    requires duration > 0.0 && forall j :: 0 <= j < |a.nodeEnergy| ==> a.nodeEnergy[j].node < |power|
    ensures |r| == |power|
    ensures forall i :: 0 <= i < |r| ==> r[i] == power[i] + AssignedPower(a, duration, |a.nodeEnergy|, i)
  {
    r := power;
    for j := 0 to |a.nodeEnergy|
      invariant |r| == |power|
      invariant forall i :: 0 <= i < |r| ==> r[i] == power[i] + AssignedPower(a, duration, j, i)
    {
      var node := a.nodeEnergy[j].node;
      r := r[node := r[node] + a.nodeEnergy[j].energy / duration];
    }
  }

  method SlotPowers(activities: seq<Activity>, o: Options, s: Schedule, n: nat) returns (powers: seq<Vec>)
    requires o.slot > 0.0 && ValidActivities(activities, n) && AllOnSlots(activities, o, s)
    ensures IsSlotPowers(activities, o, s, n, powers)
  {
    powers := seq(s.slotCount, _ => seq(n, _ => 0.0));
    for k := 0 to |activities|
      invariant |powers| == s.slotCount && forall t :: 0 <= t < |powers| ==> |powers[t]| == n
      invariant forall t, i :: 0 <= t < |powers| && 0 <= i < n ==> powers[t][i] == SlotPower(activities, o, k, t, i)
    {
      var a := activities[k];
      assert ActivityOk(a, n) && OnSlots(a, o, s);
      var first, end := FirstSlot(a, o), EndSlot(a, o);
      for t := first to end
        invariant |powers| == s.slotCount && forall u :: 0 <= u < |powers| ==> |powers[u]| == n
        invariant forall u, i :: first <= u < t && 0 <= i < n ==> powers[u][i] == SlotPower(activities, o, k + 1, u, i)
        invariant forall u, i :: 0 <= u < |powers| && !(first <= u < t) && 0 <= i < n ==>
                    powers[u][i] == SlotPower(activities, o, k, u, i)
      {
        var added := AddToSlot(a, SlotDuration(a, o), powers[t]);
        powers := powers[t := added];
      }
    }
  }

  // ---------------------------------------------------------------- declared energy

  function EnergyOf(a: Activity, j: nat): real
    requires j <= |a.nodeEnergy|
  {
    if j == 0 then 0.0 else EnergyOf(a, j - 1) + a.nodeEnergy[j - 1].energy
  }

  function DeclaredEnergy(activities: seq<Activity>, k: nat): real
    requires k <= |activities|
  {
    if k == 0 then 0.0 else DeclaredEnergy(activities, k - 1) + EnergyOf(activities[k - 1], |activities[k - 1].nodeEnergy|)
  }

  function AssignedTotal(a: Activity, duration: real, j: nat, n: nat): real
    requires duration > 0.0 && j <= |a.nodeEnergy|
  {
    if n == 0 then 0.0 else AssignedTotal(a, duration, j, n - 1) + AssignedPower(a, duration, j, n - 1)
  }

  lemma {:induction false} AssignedTotalStep(a: Activity, duration: real, j: nat, n: nat)
    requires duration > 0.0 && 0 < j <= |a.nodeEnergy|
    ensures AssignedTotal(a, duration, j, n) == AssignedTotal(a, duration, j - 1, n)
            + if a.nodeEnergy[j - 1].node < n then a.nodeEnergy[j - 1].energy / duration else 0.0
  {
    if n > 0 {
      AssignedTotalStep(a, duration, j, n - 1);
    }
  }

  lemma {:induction false} NothingAssigned(a: Activity, duration: real, n: nat)
    requires duration > 0.0
    ensures AssignedTotal(a, duration, 0, n) == 0.0
  {
    if n > 0 {
      NothingAssigned(a, duration, n - 1);
    }
  }

  /** Over all nodes an activity's power times its duration is its energy. */
  lemma {:induction false} AssignedIsEnergy(a: Activity, duration: real, j: nat, n: nat)
    requires duration > 0.0 && j <= |a.nodeEnergy| && ActivityOk(a, n)
    ensures Times(duration, AssignedTotal(a, duration, j, n)) == EnergyOf(a, j)
  {
    hide Times;
    if j == 0 {
      NothingAssigned(a, duration, n);
      TimesZero(duration);
    } else {
      AssignedIsEnergy(a, duration, j - 1, n);
      AssignedTotalStep(a, duration, j, n);
      TimesSum(duration, AssignedTotal(a, duration, j - 1, n), a.nodeEnergy[j - 1].energy / duration);
      TimesQuotient(duration, a.nodeEnergy[j - 1].energy);
    }
  }

  lemma TimesQuotient(d: real, e: real)
    requires d != 0.0
    ensures Times(d, e / d) == e
  {
  }

  /** Total power of the first `k` activities in slot `t`. */
  function SlotTotal(activities: seq<Activity>, o: Options, k: nat, t: nat, n: nat): real
    requires o.slot > 0.0 && k <= |activities|
    requires forall q :: 0 <= q < k ==> SlotDuration(activities[q], o) > 0.0
  {
    if k == 0 then 0.0
    else
      var a := activities[k - 1];
      SlotTotal(activities, o, k - 1, t, n)
      + if FirstSlot(a, o) <= t < EndSlot(a, o) then AssignedTotal(a, SlotDuration(a, o), |a.nodeEnergy|, n) else 0.0
  }

  lemma {:induction false} SlotTotalGrows(activities: seq<Activity>, o: Options, k: nat, t: nat, n: nat)
    requires o.slot > 0.0 && k <= |activities|
    requires forall q :: 0 <= q < k ==> SlotDuration(activities[q], o) > 0.0
    ensures SlotTotal(activities, o, k, t, n + 1) == SlotTotal(activities, o, k, t, n) + SlotPower(activities, o, k, t, n)
  {
    if k > 0 {
      SlotTotalGrows(activities, o, k - 1, t, n);
    }
  }

  lemma {:induction false} NoNodesTotal(activities: seq<Activity>, o: Options, k: nat, t: nat)
    requires o.slot > 0.0 && k <= |activities|
    requires forall q :: 0 <= q < k ==> SlotDuration(activities[q], o) > 0.0
    ensures SlotTotal(activities, o, k, t, 0) == 0.0
  {
    if k > 0 {
      NoNodesTotal(activities, o, k - 1, t);
    }
  }

  lemma {:induction false} SlotTotalIsSum(activities: seq<Activity>, o: Options, t: nat, power: Vec, n: nat)
    requires o.slot > 0.0 && n <= |power|
    requires forall q :: 0 <= q < |activities| ==> SlotDuration(activities[q], o) > 0.0
    requires forall i :: 0 <= i < |power| ==> power[i] == SlotPower(activities, o, |activities|, t, i)
    ensures SumTo(power, n) == SlotTotal(activities, o, |activities|, t, n)
  {
    if n == 0 {
      NoNodesTotal(activities, o, |activities|, t);
    } else {
      SlotTotalIsSum(activities, o, t, power, n - 1);
      SlotTotalGrows(activities, o, |activities|, t, n - 1);
    }
  }

  /** Energy the first `k` activities put into the first `slots` slots. */
  function AppliedBy(activities: seq<Activity>, o: Options, k: nat, slots: nat, n: nat): real
    requires o.slot > 0.0 && k <= |activities|
    requires forall q :: 0 <= q < k ==> SlotDuration(activities[q], o) > 0.0
  {
    if slots == 0 then 0.0
    else AppliedBy(activities, o, k, slots - 1, n) + Times(o.slot, SlotTotal(activities, o, k, slots - 1, n))
  }

  /** Slots of `a` among the first `slots`. */
  function Overlap(a: Activity, o: Options, slots: int): int
    requires o.slot > 0.0
  {
    if slots <= FirstSlot(a, o) then 0 else if slots >= EndSlot(a, o) then EndSlot(a, o) - FirstSlot(a, o)
    else slots - FirstSlot(a, o)
  }

  lemma {:induction false} AppliedByOneMore(activities: seq<Activity>, o: Options, k: nat, slots: nat, n: nat)
    requires o.slot > 0.0 && 0 < k <= |activities|
    requires forall q :: 0 <= q < k ==> SlotDuration(activities[q], o) > 0.0
    requires 0 <= FirstSlot(activities[k - 1], o) < EndSlot(activities[k - 1], o)
    ensures var a := activities[k - 1];
            AppliedBy(activities, o, k, slots, n) == AppliedBy(activities, o, k - 1, slots, n)
            + Times(Overlap(a, o, slots) as real, Times(o.slot, AssignedTotal(a, SlotDuration(a, o), |a.nodeEnergy|, n)))
  {
    hide Times, SlotDuration, AssignedTotal;
    var a := activities[k - 1];
    var total := AssignedTotal(a, SlotDuration(a, o), |a.nodeEnergy|, n);
    if slots == 0 {
      TimesByZero(Times(o.slot, total));
    } else {
      AppliedByOneMore(activities, o, k, slots - 1, n);
      var t := slots - 1;
      TimesSum(o.slot, SlotTotal(activities, o, k - 1, t, n), total);
      if FirstSlot(a, o) <= t < EndSlot(a, o) {
        TimesOneMore(Overlap(a, o, t), Times(o.slot, total));
      }
    }
  }

  lemma TimesOneMore(c: int, v: real)
    ensures Times((c + 1) as real, v) == Times(c as real, v) + v
  {
  }

  lemma WholeActivity(count: int, slot: real, duration: real, total: real)
    requires duration == count as real * slot
    ensures Times(count as real, Times(slot, total)) == Times(duration, total)
  {
  }

  lemma SlotsOfActivity(a: Activity, o: Options)
    requires o.slot > 0.0
    ensures SlotDuration(a, o) == (EndSlot(a, o) - FirstSlot(a, o)) as real * o.slot
  {
  }

  /** Applied energy over all slots is the declared energy. */
  lemma {:induction false} AppliedIsDeclared(activities: seq<Activity>, o: Options, s: Schedule, k: nat, n: nat)
    requires ValidOptions(o) && ValidActivities(activities, n) && AllOnSlots(activities, o, s) && k <= |activities|
    ensures AppliedBy(activities, o, k, s.slotCount, n) == DeclaredEnergy(activities, k)
  {
    hide Times, SlotDuration, FirstSlot, EndSlot;
    if k == 0 {
      NothingApplied(activities, o, s.slotCount, n);
    } else {
      AppliedIsDeclared(activities, o, s, k - 1, n);
      var a := activities[k - 1];
      AllPositive(activities, o, s);
      assert OnSlots(a, o, s) && ActivityOk(a, n);
      AppliedByOneMore(activities, o, k, s.slotCount, n);
      SlotsOfActivity(a, o);
      WholeActivity(Overlap(a, o, s.slotCount), o.slot, SlotDuration(a, o),
                    AssignedTotal(a, SlotDuration(a, o), |a.nodeEnergy|, n));
      AssignedIsEnergy(a, SlotDuration(a, o), |a.nodeEnergy|, n);
    }
  }

  lemma {:induction false} NothingApplied(activities: seq<Activity>, o: Options, slots: nat, n: nat)
    requires o.slot > 0.0
    ensures AppliedBy(activities, o, 0, slots, n) == 0.0
  {
    if slots > 0 {
      NothingApplied(activities, o, slots - 1, n);
      TimesZero(o.slot);
    }
  }

  // ---------------------------------------------------------------- the stepping loop

  /** Temperatures emitted at a sample time. */
  datatype Sample = Sample(time: real, temperature: Vec)

  datatype Receipt = Receipt(declared: real, applied: real, staticInput: real, stored: real, boundaryLoss: real,
                             samples: seq<Sample>)

  datatype Outcome = Rejected | OutOfDomain(completedSteps: nat) | Finished(receipt: Receipt)

  predicate InDomain(o: Options, x: Vec) {
    forall i :: 0 <= i < |x| ==> o.minK <= x[i] <= o.maxK
  }

  /** Some temperature is below the least or above the greatest allowed. */
  ghost predicate Escapes(o: Options, x: Vec) {
    exists i :: 0 <= i < |x| && (x[i] < o.minK || o.maxK < x[i])
  }

  lemma DomainMeans(o: Options, x: Vec)
    ensures InDomain(o, x) <==> !Escapes(o, x)
  {
  }

  /** The samples are the fields after every `stepsPerSample` steps, labelled by their sample time. */
  ghost predicate SamplesOk(o: Options, s: Schedule, trace: seq<Vec>, samples: seq<Sample>, steps: nat) {
    && |trace| == steps + 1 && 0 < |samples|
    && (|samples| - 1) * s.stepsPerSample <= steps < |samples| * s.stepsPerSample
    && forall q :: 0 <= q < |samples| ==> SampleOk(o, s, trace, samples[q], q)
  }

  ghost predicate SampleOk(o: Options, s: Schedule, trace: seq<Vec>, sample: Sample, q: nat) {
    && q * s.stepsPerSample < |trace| && sample.temperature == trace[q * s.stepsPerSample]
    && sample.time == q as real * o.sample
  }

  /** The right-hand side of one step, for theta = T - origin. */
  function ThetaRhs(m: Network, step: real, origin: real, theta: Vec, power: Vec): (rhs: Vec)
    requires step > 0.0 && |theta| == |power| == |m.nodes|
    ensures |rhs| == |theta|
  {
    seq(|theta|, i requires 0 <= i < |theta| =>
      Times(m.nodes[i].capacity / step, theta[i]) + ThetaSource(m.nodes[i], origin) + power[i])
  }

  /** Solving the theta system is one implicit-Euler step of the temperatures. */
  lemma SolveIsStep(m: Network, step: real, origin: real, theta: Vec, power: Vec, solved: Vec)
    requires ValidNetwork(m) && step > 0.0 && |theta| == |power| == |m.nodes|
    requires Solves(MatrixEntries(m, SystemDiagonal(m, step), |m.edges|), solved, ThetaRhs(m, step, origin, theta, power))
    ensures IsStep(m, step, power, Shift(theta, origin), Shift(solved, origin))
  {
    hide Times;
    FitsBySize(m, theta);
    FitsBySize(m, solved);
    forall r | 0 <= r < |theta|
      ensures Fits(m, Shift(theta, origin)) && Fits(m, Shift(solved, origin))
      ensures StepAt(m, step, power, Shift(theta, origin), Shift(solved, origin), r)
    {
      SolvedRow(m, SystemDiagonal(m, step), solved, ThetaRhs(m, step, origin, theta, power), r);
      ThetaIsTemperature(m, step, origin, power, theta, solved, r);
    }
    FitsBySize(m, Shift(theta, origin));
    FitsBySize(m, Shift(solved, origin));
  }

  /** `sum over nodes of step * G * (theta + (origin - boundary))`, added to `loss`. */
  method AddBoundaryLoss(m: Network, step: real, origin: real, theta: Vec, loss: real) returns (r: real)
    requires |theta| == |m.nodes|
    ensures r == loss + Times(step, BoundaryPower(m, Shift(theta, origin), |theta|))
  {
    r := loss;
    var i := 0;
    TimesZero(step);
    while i < |theta|
      invariant 0 <= i <= |theta|
      invariant r == loss + Times(step, BoundaryPower(m, Shift(theta, origin), i))
    {
      var node := m.nodes[i];
      BoundaryTerm(step, node.boundaryG, theta[i], origin, node.boundaryT);
      TimesSum(step, BoundaryPower(m, Shift(theta, origin), i), Times(node.boundaryG, theta[i] + origin - node.boundaryT));
      r := r + step * node.boundaryG * (theta[i] + (origin - node.boundaryT));
      i := i + 1;
    }
  }

  lemma BoundaryTerm(step: real, g: real, theta: real, origin: real, boundary: real)
    ensures step * g * (theta + (origin - boundary)) == Times(step, Times(g, theta + origin - boundary))
  {
  }

  /** Stored energy as the runner sums it, from theta and the initial offsets. */
  method StoredEnergy(m: Network, theta: Vec, origin: real) returns (r: real)
    requires |theta| == |m.nodes|
    ensures r == Stored(m, Shift(theta, origin), |theta|)
  {
    r := 0.0;
    for i := 0 to |theta|
      invariant r == Stored(m, Shift(theta, origin), i)
    {
      var node := m.nodes[i];
      assert theta[i] - (node.initial - origin) == Shift(theta, origin)[i] - node.initial;
      r := r + Times(node.capacity, theta[i] - (node.initial - origin));
    }
  }

  function AddScaled(applied: Vec, power: Vec, step: real): (r: Vec)
    requires |applied| == |power|
    ensures |r| == |applied|
  {
    seq(|applied|, i requires 0 <= i < |applied| => applied[i] + Times(step, power[i]))
  }

  lemma {:induction false} SumOfScaled(applied: Vec, power: Vec, step: real, k: nat)
    requires |applied| == |power| && k <= |applied|
    ensures SumTo(AddScaled(applied, power, step), k) == SumTo(applied, k) + Times(step, SumTo(power, k))
  {
    hide Times;
    if k == 0 {
      TimesZero(step);
    } else {
      SumOfScaled(applied, power, step, k - 1);
      TimesSum(step, SumTo(power, k - 1), power[k - 1]);
    }
  }

  /** Everything the loop knows after a number of steps. */
  datatype Progress = Progress(steps: nat, theta: Vec, applied: Vec, loss: real, samples: seq<Sample>)

  /** Step `local` of slot `t` used the power of slot `t`. */
  ghost predicate PowersUsed(s: Schedule, powers: seq<Vec>, stepPowers: seq<Vec>) {
    forall t: nat, local: nat {:trigger TileIndex(s, t, local)} ::
      local < s.stepsPerSlot && TileIndex(s, t, local) < |stepPowers| ==>
        t < |powers| && stepPowers[TileIndex(s, t, local)] == powers[t]
  }

  function TileIndex(s: Schedule, t: nat, local: nat): nat {
    t * s.stepsPerSlot + local
  }

  ghost predicate AllInDomain(o: Options, trace: seq<Vec>) {
    forall k :: 0 <= k < |trace| ==> !Escapes(o, trace[k])
  }

  /** The fields so far are steps of the network inside the domain. */
  ghost predicate TraceOk(m: Network, o: Options, s: Schedule, powers: seq<Vec>, origin: real,
                          p: Progress, stepPowers: seq<Vec>, trace: seq<Vec>)
    requires o.step > 0.0
  {
    && |p.theta| == |p.applied| == |m.nodes|
    && |stepPowers| == p.steps && IsTrace(m, o.step, stepPowers, trace)
    && trace[p.steps] == Shift(p.theta, origin)
    && PowersUsed(s, powers, stepPowers) && AllInDomain(o, trace)
  }

  /** Stored energy plus boundary loss equals applied activity energy plus static energy so far. */
  ghost predicate Balanced(m: Network, o: Options, origin: real, p: Progress) {
    && |p.theta| == |p.applied| == |m.nodes|
    && Stored(m, Shift(p.theta, origin), |m.nodes|) + p.loss
       == SumTo(p.applied, |m.nodes|) + Times(Elapsed(p.steps, o.step), StaticPower(m, |m.nodes|))
  }

  function Elapsed(steps: nat, step: real): real {
    steps as real * step
  }

  lemma BalanceStep(m: Network, o: Options, origin: real, p: Progress, q: Progress, power: Vec)
    requires o.step > 0.0 && Balanced(m, o, origin, p) && |q.theta| == |m.nodes| == |power|
    requires IsStep(m, o.step, power, Shift(p.theta, origin), Shift(q.theta, origin))
    requires q.steps == p.steps + 1 && q.applied == AddScaled(p.applied, power, o.step)
    requires q.loss == p.loss + Times(o.step, BoundaryPower(m, Shift(q.theta, origin), |m.nodes|))
    ensures Balanced(m, o, origin, q)
  {
    hide Times, Elapsed, StepAt;
    StepEnergy(m, o.step, power, Shift(p.theta, origin), Shift(q.theta, origin));
    SumOfScaled(p.applied, power, o.step, |m.nodes|);
    StaticGrows(p.steps, q.steps, o.step, StaticPower(m, |m.nodes|));
  }

  lemma StaticGrows(k: nat, k': nat, step: real, power: real)
    requires k' == k + 1
    ensures Times(Elapsed(k', step), power) == Times(Elapsed(k, step), power) + Times(step, power)
  {
    assert Elapsed(k', step) == Elapsed(k, step) + step;
  }

  lemma TraceStep(m: Network, o: Options, s: Schedule, powers: seq<Vec>, origin: real, p: Progress, q: Progress,
                  stepPowers: seq<Vec>, trace: seq<Vec>, slot: nat, local: nat)
    requires o.step > 0.0 && TraceOk(m, o, s, powers, origin, p, stepPowers, trace)
    requires slot < |powers| && local < s.stepsPerSlot && p.steps == TileIndex(s, slot, local)
    requires |q.theta| == |q.applied| == |m.nodes| && q.steps == p.steps + 1
    requires IsStep(m, o.step, powers[slot], Shift(p.theta, origin), Shift(q.theta, origin))
    requires InDomain(o, Shift(q.theta, origin))
    ensures TraceOk(m, o, s, powers, origin, q, stepPowers + [powers[slot]], trace + [Shift(q.theta, origin)])
  {
    hide IsStep, InDomain, TileIndex, Escapes;
    DomainMeans(o, Shift(q.theta, origin));
    forall t: nat, l: nat | l < s.stepsPerSlot && TileIndex(s, t, l) == p.steps ensures t == slot {
      TileUnique(s, t, l, slot, local);
    }
    var ps, tr := stepPowers + [powers[slot]], trace + [Shift(q.theta, origin)];
    forall k | 0 <= k < |ps| ensures IsStep(m, o.step, ps[k], tr[k], tr[k + 1]) {
      if k < |stepPowers| {
        assert IsStep(m, o.step, stepPowers[k], trace[k], trace[k + 1]);
      }
    }
  }

  lemma TileUnique(s: Schedule, t: nat, l: nat, u: nat, k: nat)
    requires l < s.stepsPerSlot && k < s.stepsPerSlot && TileIndex(s, t, l) == TileIndex(s, u, k)
    ensures t == u
  {
    if t < u {
      ProductOrder(t + 1, u, s.stepsPerSlot);
    } else if u < t {
      ProductOrder(u + 1, t, s.stepsPerSlot);
    }
  }

  lemma ProductOrder(a: int, b: int, d: nat)
    requires a <= b
    ensures a * d <= b * d
  {
  }

  /** Between two multiples of `d`, the next number is divisible exactly when it is the upper one. */
  lemma NextMultiple(n: nat, c: nat, d: pos)
    requires (c - 1) * d <= n < c * d
    ensures (n + 1) % d == 0 <==> n + 1 == c * d
  {
    var q, r := (n + 1) / d, (n + 1) % d;
    assert n + 1 == q * d + r;
    if q < c {
      ProductOrder(q, c - 1, d);
    } else {
      ProductOrder(c, q, d);
    }
  }

  lemma SampleStep(o: Options, s: Schedule, trace: seq<Vec>, next: Vec, p: Progress, time: real)
    requires ScheduleOk(o, s) && SamplesOk(o, s, trace, p.samples, p.steps)
    requires time == (p.steps + 1) as real * o.step
    ensures var samples := if (p.steps + 1) % s.stepsPerSample == 0 then p.samples + [Sample(time, next)] else p.samples;
            SamplesOk(o, s, trace + [next], samples, p.steps + 1)
  {
    var c, d := |p.samples|, s.stepsPerSample;
    NextMultiple(p.steps, c, d);
    forall q | 0 <= q < c ensures SampleOk(o, s, trace + [next], p.samples[q], q) {
      assert SampleOk(o, s, trace, p.samples[q], q);
    }
    if p.steps + 1 == c * d {
      SampleLabel(c, d, o.step, o.sample);
      assert SampleOk(o, s, trace + [next], Sample(time, next), c);
      assert (c + 1) * d == c * d + d;
    }
  }

  lemma SampleLabel(q: nat, d: pos, step: real, sample: real)
    requires d as real * step == sample
    ensures (q * d) as real * step == q as real * sample
  {
    assert (q * d) as real == q as real * d as real;
    assert q as real * d as real * step == q as real * (d as real * step);
  }

  /** What one pass through the loop body does to the progress. */
  ghost predicate Stepped(m: Network, o: Options, s: Schedule, origin: real, power: Vec, p: Progress, q: Progress, time: real)
    requires o.step > 0.0
  {
    && |p.theta| == |p.applied| == |q.theta| == |m.nodes| == |power| && q.steps == p.steps + 1
    && IsStep(m, o.step, power, Shift(p.theta, origin), Shift(q.theta, origin))
    && InDomain(o, Shift(q.theta, origin))
    && q.applied == AddScaled(p.applied, power, o.step)
    && q.loss == p.loss + Times(o.step, BoundaryPower(m, Shift(q.theta, origin), |m.nodes|))
    && q.samples == if (p.steps + 1) % s.stepsPerSample == 0 then p.samples + [Sample(time, Shift(q.theta, origin))]
                    else p.samples
  }

  lemma SolvedSize(entries: seq<Triplet>, x: Vec, rhs: Vec)
    requires Solves(entries, x, rhs)
    ensures |x| == |rhs|
  {
  }

  /** The loop body; `None` when the trial temperatures leave the domain. */
  method TakeStep(m: Network, o: Options, s: Schedule, origin: real, matrix: seq<Triplet>,
                  solve: Solver, power: Vec, p: Progress, time: real) returns (q: Option<Progress>)
    requires ValidNetwork(m) && o.step > 0.0 && |p.theta| == |p.applied| == |m.nodes| == |power|
    requires matrix == MatrixEntries(m, SystemDiagonal(m, o.step), |m.edges|) && Exact(solve, matrix, |m.nodes|)
    ensures q.Some? ==> Stepped(m, o, s, origin, power, p, q.value, time)
    ensures q.None? ==> LeavesDomain(m, o, power, Shift(p.theta, origin))
  {
    hide InDomain, Escapes, IsStep, MatrixEntries, ValidNetwork, Times, Singular, Solves;
    SystemIsRegular(m, o.step);
    var solved := solve(matrix, ThetaRhs(m, o.step, origin, p.theta, power));
    if solved.None? {
      assert false;
    }
    var trial := solved.value;
    SolvedSize(matrix, trial, ThetaRhs(m, o.step, origin, p.theta, power));
    SolveIsStep(m, o.step, origin, p.theta, power, trial);
    var temperature := Shift(trial, origin);
    DomainMeans(o, temperature);
    if !InDomain(o, temperature) {
      assert IsStep(m, o.step, power, Shift(p.theta, origin), temperature);
      return None;
    }
    var loss := AddBoundaryLoss(m, o.step, origin, trial, p.loss);
    var samples := p.samples;
    if (p.steps + 1) % s.stepsPerSample == 0 {
      samples := samples + [Sample(time, temperature)];
    }
    q := Some(Progress(p.steps + 1, trial, AddScaled(p.applied, power, o.step), loss, samples));
  }

  /** Applied energy after `local` steps of slot `slot`. */
  ghost predicate AppliedOk(activities: seq<Activity>, o: Options, n: nat, slot: nat, local: nat, applied: Vec)
    requires o.slot > 0.0 && forall q :: 0 <= q < |activities| ==> SlotDuration(activities[q], o) > 0.0
  {
    && |applied| == n
    && SumTo(applied, n) == AppliedBy(activities, o, |activities|, slot, n)
                            + Times(Elapsed(local, o.step), SlotTotal(activities, o, |activities|, slot, n))
  }

  lemma AppliedStep(activities: seq<Activity>, o: Options, s: Schedule, n: nat, slot: nat, local: nat,
                    powers: seq<Vec>, applied: Vec)
    requires ValidOptions(o) && AllOnSlots(activities, o, s) && IsSlotPowers(activities, o, s, n, powers) && slot < |powers|
    requires AppliedOk(activities, o, n, slot, local, applied)
    ensures AppliedOk(activities, o, n, slot, local + 1, AddScaled(applied, powers[slot], o.step))
  {
    hide Times, Elapsed, Nearest, SlotDuration, AppliedBy, SlotTotal;
    SumOfScaled(applied, powers[slot], o.step, n);
    assert forall q :: 0 <= q < |activities| ==> OnSlots(activities[q], o, s);
    SlotTotalIsSum(activities, o, slot, powers[slot], n);
    StaticGrows(local, local + 1, o.step, SlotTotal(activities, o, |activities|, slot, n));
  }

  lemma AppliedSlot(activities: seq<Activity>, o: Options, s: Schedule, n: nat, slot: nat, applied: Vec)
    requires ValidOptions(o) && ScheduleOk(o, s)
    requires forall q :: 0 <= q < |activities| ==> SlotDuration(activities[q], o) > 0.0
    requires AppliedOk(activities, o, n, slot, s.stepsPerSlot, applied)
    ensures AppliedOk(activities, o, n, slot + 1, 0, applied)
  {
    hide Times, Nearest, SlotDuration, SlotTotal;
    assert Elapsed(s.stepsPerSlot, o.step) == o.slot && Elapsed(0, o.step) == 0.0;
    TimesByZero(SlotTotal(activities, o, |activities|, slot + 1, n));
  }

  /** All facts the loop keeps. */
  ghost predicate LoopOk(m: Network, activities: seq<Activity>, o: Options, s: Schedule, powers: seq<Vec>, origin: real,
                         p: Progress, stepPowers: seq<Vec>, trace: seq<Vec>, slot: nat, local: nat)
    requires ValidOptions(o) && AllOnSlots(activities, o, s)
  {
    && p.steps == TileIndex(s, slot, local)
    && TraceOk(m, o, s, powers, origin, p, stepPowers, trace)
    && Balanced(m, o, origin, p)
    && SamplesOk(o, s, trace, p.samples, p.steps)
    && AppliedOk(activities, o, |m.nodes|, slot, local, p.applied)
    && LossOk(m, o, p, trace)
  }

  /** The accumulated loss is the boundary loss of the fields so far. */
  ghost predicate LossOk(m: Network, o: Options, p: Progress, trace: seq<Vec>) {
    && |trace| == p.steps + 1 && (forall i :: 0 <= i < |trace| ==> |trace[i]| == |m.nodes|)
    && p.loss == LossTo(m, o.step, trace, p.steps)
  }

  lemma LossStep(m: Network, o: Options, p: Progress, q: Progress, trace: seq<Vec>, field: Vec)
    requires LossOk(m, o, p, trace) && q.steps == p.steps + 1 && |field| == |m.nodes|
    requires q.loss == p.loss + Times(o.step, BoundaryPower(m, field, |m.nodes|))
    ensures LossOk(m, o, q, trace + [field])
  {
    hide Times;
    LossOfPrefix(m, o.step, trace, trace + [field], p.steps);
  }

  lemma LoopStep(m: Network, activities: seq<Activity>, o: Options, s: Schedule, powers: seq<Vec>, origin: real,
                 p: Progress, q: Progress, stepPowers: seq<Vec>, trace: seq<Vec>, slot: nat, local: nat)
    requires ValidOptions(o) && ScheduleOk(o, s) && AllOnSlots(activities, o, s)
    requires IsSlotPowers(activities, o, s, |m.nodes|, powers) && slot < |powers| && local < s.stepsPerSlot
    requires LoopOk(m, activities, o, s, powers, origin, p, stepPowers, trace, slot, local)
    requires Stepped(m, o, s, origin, powers[slot], p, q, StepLabel(o, s, slot, local + 1))
    ensures LoopOk(m, activities, o, s, powers, origin, q, stepPowers + [powers[slot]], trace + [Shift(q.theta, origin)],
                   slot, local + 1)
  {
    hide TraceOk, Balanced, SamplesOk, AppliedOk, LossOk, IsStep, Times, StepLabel, ScheduleOk, InDomain, IsSlotPowers;
    TraceSizes(m, o, s, powers, origin, p, stepPowers, trace);
    TraceStep(m, o, s, powers, origin, p, q, stepPowers, trace, slot, local);
    BalanceStep(m, o, origin, p, q, powers[slot]);
    LossStep(m, o, p, q, trace, Shift(q.theta, origin));
    LabelIsOnGrid(o, s, slot, local + 1);
    SampleStep(o, s, trace, Shift(q.theta, origin), p, StepLabel(o, s, slot, local + 1));
    AppliedStep(activities, o, s, |m.nodes|, slot, local, powers, p.applied);
  }

  lemma TraceSizes(m: Network, o: Options, s: Schedule, powers: seq<Vec>, origin: real,
                   p: Progress, stepPowers: seq<Vec>, trace: seq<Vec>)
    requires o.step > 0.0 && TraceOk(m, o, s, powers, origin, p, stepPowers, trace)
    ensures |p.theta| == |p.applied| == |m.nodes|
  {
  }

  method StaticEnergy(m: Network, end: real) returns (r: real)
    ensures r == Times(end, StaticPower(m, |m.nodes|))
  {
    r := 0.0;
    TimesZero(end);
    for i := 0 to |m.nodes|
      invariant r == Times(end, StaticPower(m, i))
    {
      TimesSum(end, StaticPower(m, i), m.nodes[i].staticPower);
      r := r + m.nodes[i].staticPower * end;
    }
  }

  method Total(v: Vec) returns (r: real)
    ensures r == SumTo(v, |v|)
  {
    r := 0.0;
    for i := 0 to |v|
      invariant r == SumTo(v, i)
    {
      r := r + v[i];
    }
  }

  method DeclaredActivityEnergy(activities: seq<Activity>) returns (r: real)
    ensures r == DeclaredEnergy(activities, |activities|)
  {
    r := 0.0;
    for k := 0 to |activities|
      invariant r == DeclaredEnergy(activities, k)
    {
      ghost var before := r;
      for j := 0 to |activities[k].nodeEnergy|
        invariant r == before + EnergyOf(activities[k], j)
      {
        r := r + activities[k].nodeEnergy[j].energy;
      }
    }
  }

  lemma RunTakesEnd(o: Options, s: Schedule)
    requires ScheduleOk(o, s)
    ensures Elapsed(TileIndex(s, s.slotCount, 0), o.step) == o.end
  {
    SampleLabel(s.slotCount, s.stepsPerSlot, o.step, o.slot);
  }

  /** The receipt balances exactly and describes the whole run. */
  ghost predicate ReceiptOk(m: Network, activities: seq<Activity>, o: Options, s: Schedule,
                            stepPowers: seq<Vec>, trace: seq<Vec>, r: Receipt)
  {
    && r.stored + r.boundaryLoss == r.applied + r.staticInput
    && r.applied == r.declared == DeclaredEnergy(activities, |activities|)
    && r.staticInput == Times(o.end, StaticPower(m, |m.nodes|))
    && |stepPowers| == TileIndex(s, s.slotCount, 0) && |trace| == |stepPowers| + 1
    && (forall i :: 0 <= i < |trace| ==> |trace[i]| == |m.nodes|)
    && r.stored == Stored(m, trace[|trace| - 1], |m.nodes|) && r.boundaryLoss == LossTo(m, o.step, trace, |stepPowers|)
    && SamplesOk(o, s, trace, r.samples, |stepPowers|)
  }

  method Close(m: Network, activities: seq<Activity>, o: Options, s: Schedule, ghost powers: seq<Vec>, origin: real,
               p: Progress, ghost stepPowers: seq<Vec>, ghost trace: seq<Vec>) returns (r: Receipt)
    requires ValidOptions(o) && ScheduleOk(o, s) && ValidActivities(activities, |m.nodes|) && AllOnSlots(activities, o, s)
    requires LoopOk(m, activities, o, s, powers, origin, p, stepPowers, trace, s.slotCount, 0)
    ensures ReceiptOk(m, activities, o, s, stepPowers, trace, r)
  {
    hide Times, Nearest, SamplesOk, PowersUsed, AllInDomain, ActivityOk, OnSlots, IsStep;
    var n := |m.nodes|;
    var declared := DeclaredActivityEnergy(activities);
    var applied := Total(p.applied);
    var staticInput := StaticEnergy(m, o.end);
    var stored := StoredEnergy(m, p.theta, origin);
    RunTakesEnd(o, s);
    AppliedIsDeclared(activities, o, s, |activities|, n);
    assert Elapsed(0, o.step) == 0.0;
    AllPositive(activities, o, s);
    TimesByZero(SlotTotal(activities, o, |activities|, s.slotCount, n));
    r := Receipt(declared, applied, staticInput, stored, p.loss, p.samples);
  }

  lemma AllPositive(activities: seq<Activity>, o: Options, s: Schedule)
    requires o.slot > 0.0 && AllOnSlots(activities, o, s)
    ensures forall q :: 0 <= q < |activities| ==> SlotDuration(activities[q], o) > 0.0
  {
    assert forall q :: 0 <= q < |activities| ==> OnSlots(activities[q], o, s);
  }

  /** The next step from `before` under `power` has a temperature outside the domain. */
  ghost predicate LeavesDomain(m: Network, o: Options, power: Vec, before: Vec)
    requires o.step > 0.0
  {
    exists x :: IsStep(m, o.step, power, before, x) && Escapes(o, x)
  }

  /** The step after the first `steps`, under the power of its slot, leaves the domain. */
  ghost predicate NextLeavesDomain(m: Network, o: Options, s: Schedule, powers: seq<Vec>, steps: nat, field: Vec)
    requires o.step > 0.0
  {
    steps / s.stepsPerSlot < |powers| && LeavesDomain(m, o, powers[steps / s.stepsPerSlot], field)
  }

  lemma SlotOfStep(s: Schedule, slot: nat, local: nat)
    requires local < s.stepsPerSlot
    ensures TileIndex(s, slot, local) / s.stepsPerSlot == slot
  {
    var n, d := TileIndex(s, slot, local), s.stepsPerSlot;
    var q := n / d;
    assert q * d + n % d == n;
    if q < slot {
      ProductOrder(q + 1, slot, d);
    } else if slot < q {
      ProductOrder(slot + 1, q, d);
    }
  }

  /** The steps of one slot; `None` when a step leaves the domain. */
  method RunSlot(m: Network, ghost activities: seq<Activity>, o: Options, s: Schedule, powers: seq<Vec>, origin: real,
                 matrix: seq<Triplet>, solve: Solver, slot: nat,
                 start: Progress, ghost startPowers: seq<Vec>, ghost startTrace: seq<Vec>)
    returns (p: Progress, completed: bool, ghost stepPowers: seq<Vec>, ghost trace: seq<Vec>, ghost local: nat)
    requires ValidNetwork(m) && ValidOptions(o) && ScheduleOk(o, s) && AllOnSlots(activities, o, s)
    requires IsSlotPowers(activities, o, s, |m.nodes|, powers) && slot < |powers|
    requires matrix == MatrixEntries(m, SystemDiagonal(m, o.step), |m.edges|) && Exact(solve, matrix, |m.nodes|)
    requires LoopOk(m, activities, o, s, powers, origin, start, startPowers, startTrace, slot, 0)
    ensures completed ==> LoopOk(m, activities, o, s, powers, origin, p, stepPowers, trace, slot + 1, 0)
    ensures !completed ==> LoopOk(m, activities, o, s, powers, origin, p, stepPowers, trace, slot, local)
    ensures !completed ==> local < s.stepsPerSlot && LeavesDomain(m, o, powers[slot], Shift(p.theta, origin))
  {
    hide TraceOk, Balanced, SamplesOk, AppliedOk, IsStep, Times, StepLabel, ScheduleOk, InDomain, Exact, ValidNetwork;
    hide AllOnSlots, IsSlotPowers, LeavesDomain;
    SlotCount(activities, o, s, |m.nodes|, powers);
    p, stepPowers, trace := start, startPowers, startTrace;
    for step := 0 to s.stepsPerSlot
      invariant LoopOk(m, activities, o, s, powers, origin, p, stepPowers, trace, slot, step)
    {
      TraceSizes(m, o, s, powers, origin, p, stepPowers, trace);
      var q := TakeStep(m, o, s, origin, matrix, solve, powers[slot], p, StepLabel(o, s, slot, step + 1));
      if q.None? {
        return p, false, stepPowers, trace, step;
      }
      LoopStep(m, activities, o, s, powers, origin, p, q.value, stepPowers, trace, slot, step);
      stepPowers, trace := stepPowers + [powers[slot]], trace + [Shift(q.value.theta, origin)];
      p := q.value;
    }
    AllPositive(activities, o, s);
    AppliedSlot(activities, o, s, |m.nodes|, slot, p.applied);
    completed, local := true, 0;
  }

  /**
   The whole run.  Its fields are implicit-Euler steps under the slot powers, inside the
   domain at every step; if it finishes, its receipt balances exactly.
   */
  method Run(m: Network, activities: seq<Activity>, o: Options, s: Schedule, solve: Solver)
    returns (outcome: Outcome, ghost powers: seq<Vec>, ghost stepPowers: seq<Vec>, ghost trace: seq<Vec>)
    requires ValidNetwork(m) && ValidOptions(o) && ScheduleOk(o, s) && InDomain(o, Initial(m))
    requires ValidActivities(activities, |m.nodes|) && AllOnSlots(activities, o, s)
    requires Exact(solve, MatrixEntries(m, SystemDiagonal(m, o.step), |m.edges|), |m.nodes|)
    ensures !outcome.Rejected?
    ensures IsSlotPowers(activities, o, s, |m.nodes|, powers) && PowersUsed(s, powers, stepPowers)
    ensures IsTrace(m, o.step, stepPowers, trace) && BalancedTrace(m, o.step, stepPowers, trace) && AllInDomain(o, trace)
    ensures outcome.Finished? ==> ReceiptOk(m, activities, o, s, stepPowers, trace, outcome.receipt)
    ensures outcome.OutOfDomain? ==>
              && outcome.completedSteps == |stepPowers| < TileIndex(s, s.slotCount, 0)
              && NextLeavesDomain(m, o, s, powers, outcome.completedSteps, trace[|trace| - 1])
  {
    hide LoopOk, IsStep, LeavesDomain, ReceiptOk, IsSlotPowers, AllOnSlots, PowersUsed, IsTrace, AllInDomain, Exact, Times;
    hide SystemRows, MatrixEntries, BalancedTrace;
    var matrix := SystemMatrix(m, o.step);
    var slotPowers := SlotPowers(activities, o, s, |m.nodes|);
    SlotCount(activities, o, s, |m.nodes|, slotPowers);
    var origin := m.nodes[0].initial;
    var p := Start(m, activities, o, s, slotPowers, origin);
    powers, stepPowers, trace := slotPowers, [], [Initial(m)];
    for slot := 0 to s.slotCount
      invariant LoopOk(m, activities, o, s, slotPowers, origin, p, stepPowers, trace, slot, 0)
    {
      var completed;
      ghost var local;
      p, completed, stepPowers, trace, local :=
        RunSlot(m, activities, o, s, slotPowers, origin, matrix, solve, slot, p, stepPowers, trace);
      if !completed {
        LoopFacts(m, activities, o, s, slotPowers, origin, p, stepPowers, trace, slot, local);
        ProductOrder(slot + 1, s.slotCount, s.stepsPerSlot);
        SlotOfStep(s, slot, local);
        TraceIsBalanced(m, o.step, stepPowers, trace);
        return OutOfDomain(p.steps), slotPowers, stepPowers, trace;
      }
    }
    LoopFacts(m, activities, o, s, slotPowers, origin, p, stepPowers, trace, s.slotCount, 0);
    var receipt := Close(m, activities, o, s, slotPowers, origin, p, stepPowers, trace);
    TraceIsBalanced(m, o.step, stepPowers, trace);
    outcome := Finished(receipt);
  }

  lemma SlotCount(activities: seq<Activity>, o: Options, s: Schedule, n: nat, powers: seq<Vec>)
    requires o.slot > 0.0 && AllOnSlots(activities, o, s) && IsSlotPowers(activities, o, s, n, powers)
    ensures |powers| == s.slotCount && forall t :: 0 <= t < |powers| ==> |powers[t]| == n
  {
  }

  lemma LoopFacts(m: Network, activities: seq<Activity>, o: Options, s: Schedule, powers: seq<Vec>, origin: real,
                  p: Progress, stepPowers: seq<Vec>, trace: seq<Vec>, slot: nat, local: nat)
    requires ValidOptions(o) && AllOnSlots(activities, o, s)
    requires LoopOk(m, activities, o, s, powers, origin, p, stepPowers, trace, slot, local)
    ensures PowersUsed(s, powers, stepPowers) && IsTrace(m, o.step, stepPowers, trace) && AllInDomain(o, trace)
    ensures |stepPowers| == p.steps == TileIndex(s, slot, local)
    ensures |trace| > 0 && trace[|trace| - 1] == Shift(p.theta, origin)
  {
  }

  /** The state before the first step. */
  method Start(m: Network, ghost activities: seq<Activity>, o: Options, s: Schedule, ghost powers: seq<Vec>, origin: real)
    returns (p: Progress)
    requires ValidNetwork(m) && ValidOptions(o) && AllOnSlots(activities, o, s) && InDomain(o, Initial(m))
    ensures LoopOk(m, activities, o, s, powers, origin, p, [], [Initial(m)], 0, 0)
  {
    var n := |m.nodes|;
    var theta := Shift(Initial(m), -origin);
    p := Progress(0, theta, seq(n, _ => 0.0), 0.0, [Sample(0.0, Initial(m))]);
    assert Shift(theta, origin) == Initial(m);
    NothingStoredAtFirst(m, n);
    ZeroSum(p.applied, n);
    TimesByZero(StaticPower(m, n));
    TimesByZero(SlotTotal(activities, o, |activities|, 0, n));
    assert SampleOk(o, s, [Initial(m)], p.samples[0], 0);
  }

  /** The program in run mode: refuse bad schedules and activities, then run. */
  method Campaign(m: Network, activities: seq<Activity>, o: Options, solve: Solver)
    returns (outcome: Outcome, ghost powers: seq<Vec>, ghost stepPowers: seq<Vec>, ghost trace: seq<Vec>)
    requires ValidNetwork(m) && ValidOptions(o) && ValidActivities(activities, |m.nodes|)
    requires Exact(solve, MatrixEntries(m, SystemDiagonal(m, o.step), |m.edges|), |m.nodes|)
    ensures outcome.Rejected? <==>
              Escapes(o, Initial(m)) || (forall s :: !ScheduleOk(o, s)) || !Schedulable(activities, o)
    ensures !outcome.Rejected? ==>
              && AllOnSlots(activities, o, ScheduleFor(o).value)
              && IsSlotPowers(activities, o, ScheduleFor(o).value, |m.nodes|, powers)
              && FollowActivities(activities, o, |m.nodes|, powers) && PowersUsed(ScheduleFor(o).value, powers, stepPowers)
              && IsTrace(m, o.step, stepPowers, trace) && BalancedTrace(m, o.step, stepPowers, trace) && AllInDomain(o, trace)
    ensures outcome.Finished? ==> ReceiptOk(m, activities, o, ScheduleFor(o).value, stepPowers, trace, outcome.receipt)
    ensures outcome.OutOfDomain? ==>
              && outcome.completedSteps == |stepPowers| < TileIndex(ScheduleFor(o).value, ScheduleFor(o).value.slotCount, 0)
              && NextLeavesDomain(m, o, ScheduleFor(o).value, powers, outcome.completedSteps, trace[|trace| - 1])
  {
    hide IsTrace, BalancedTrace, AllInDomain, ReceiptOk, NextLeavesDomain, PowersUsed, IsSlotPowers, Exact, ScheduleOk, OnSlots;
    powers, stepPowers, trace := [], [], [];
    DomainMeans(o, Initial(m));
    AcceptedMeans(activities, o);
    hide Escapes, Schedulable, InDomain, FollowActivities;
    var schedule := ScheduleFor(o);
    if !InDomain(o, Initial(m)) || schedule.None? || !AcceptedActivities(activities, o) {
      return Rejected, [], [], [];
    }
    forall i | 0 <= i < |activities| ensures OnSlots(activities[i], o, schedule.value) {
      AcceptedIsOnSlots(activities[i], o, schedule.value, |m.nodes|);
    }
    outcome, powers, stepPowers, trace := Run(m, activities, o, schedule.value, solve);
    SlotPowersFollow(activities, o, schedule.value, |m.nodes|, powers);
  }
}

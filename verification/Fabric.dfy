/**
 The HBF/HBM transfer fabric as a value and its transitions as functions.

 Jobs are numbered by the order in which they were accepted, so `jobs[i]` is the
 job with sequence number `i`; stacks are numbered by their place in the sorted
 configuration.  A running job carries the end time of its stage.  The three
 event heaps are not part of the value: `FabricEngine` keeps them and proves that
 they hold exactly the jobs whose state says so.
 */
module Fabric {
  import opened Wrappers

  const NANOSECONDS_PER_SECOND := 1_000_000_000

  datatype Timing = Timing(latency: nat, bandwidth: pos)
  datatype Pairing = Pairing(hbm: nat, relayLink: Timing)
  datatype HbfRow = HbfRow(pair: Option<Pairing>, capacity: nat, fill: Timing, directLink: Timing)
  datatype HbmRow = HbmRow(capacity: nat, gpuLink: Timing)
  datatype Config = Config(hbf: seq<HbfRow>, hbm: seq<HbmRow>)

  datatype Source = Hbf(k: nat) | Hbm(k: nat)
  datatype Route = Direct | Relay
  datatype StageName = HbfFill | HbfDirect | HbfRelay | HbmGpu

  datatype JobState =
    | WaitReady
    | BackendReserved
    | BackendReadyPending
    | MediaReady
    | ReadyHbf
    | ReadyHbm
    | HbmReady
    | Running(stage: StageName, end: nat)
    | Done

  /** `arrival` is present exactly on jobs created by a source reservation. */
  datatype Job = Job(id: nat, source: Source, route: Route, bytes: pos,
                     ready: Option<nat>, arrival: Option<nat>,
                     state: JobState, hbfBank: Option<nat>, hbmBank: Option<nat>)

  datatype HbfSlots = HbfSlots(banks: seq<Option<nat>>, fill: Option<nat>, direct: Option<nat>, relay: Option<nat>)
  datatype HbmSlots = HbmSlots(banks: seq<Option<nat>>, gpu: Option<nat>)

  datatype Link = FillLink(k: nat) | DirectLink(k: nat) | RelayLink(k: nat) | GpuLink(k: nat)

  datatype Event =
    | Reserve(job: nat, bank: nat, time: nat)
    | Start(stage: StageName, job: nat, link: Link, start: nat, end: nat)
    | Complete(stage: StageName, job: nat, time: nat)
    | BackendReadyAt(job: nat, time: nat)
    | MediaReadyAt(job: nat, time: nat)

  datatype Completion = Completion(job: nat, ready: Option<nat>, time: nat)

  datatype State = State(now: nat, jobs: seq<Job>, hbf: seq<HbfSlots>, hbm: seq<HbmSlots>,
                         events: seq<Event>, completions: seq<Completion>)

  // ---------------------------------------------------------------- durations

  /** latency + ceil(bytes * 1e9 / bandwidth) */
  function Duration(timing: Timing, bytes: pos): (d: nat)
    ensures d >= 1
    ensures (d - timing.latency) * timing.bandwidth >= bytes * NANOSECONDS_PER_SECOND
    ensures (d - timing.latency - 1) * timing.bandwidth < bytes * NANOSECONDS_PER_SECOND
  {
    var n := bytes * NANOSECONDS_PER_SECOND + timing.bandwidth - 1;
    var q := n / timing.bandwidth;
    assert q * timing.bandwidth + n % timing.bandwidth == n;
    CeilingIsPositive(q, timing.bandwidth, bytes * NANOSECONDS_PER_SECOND);
    timing.latency + q
  }

  lemma CeilingIsPositive(q: int, b: pos, n: pos)
    requires q * b >= n
    ensures q >= 1
  {
  }

  // ---------------------------------------------------------------- shape of a job

  /** The source names a configured stack, and a relay route has an HBM partner. */
  predicate SourceOk(c: Config, source: Source, route: Route) {
    match source
    case Hbf(k) => k < |c.hbf| && (route.Relay? ==> c.hbf[k].pair.Some? && c.hbf[k].pair.value.hbm < |c.hbm|)
    case Hbm(k) => k < |c.hbm| && route.Direct?
  }

  /** The HBM stack whose GPU link the job ends on. */
  function HbmOf(c: Config, j: Job): nat
    requires SourceOk(c, j.source, j.route) && (j.source.Hbf? ==> j.route.Relay?)
  {
    if j.source.Hbm? then j.source.k else c.hbf[j.source.k].pair.value.hbm
  }

  /** The lifecycle of each kind of job: which states it can be in. */
  predicate StateOk(j: Job) {
    && (j.ready.Some? <==> !j.state.BackendReserved?)
    && match j.state
       case WaitReady => j.arrival.None?
       case BackendReserved => j.arrival.Some?
       case BackendReadyPending => j.arrival.Some?
       case MediaReady => j.source.Hbf? && j.arrival.None?
       case ReadyHbf => j.source.Hbf?
       case ReadyHbm => j.source.Hbf? && j.route.Relay?
       case HbmReady => j.source.Hbm?
       case Running(stage, _) =>
         (match stage
          case HbfFill => j.source.Hbf? && j.arrival.None?
          case HbfDirect => j.source.Hbf? && j.route.Direct?
          case HbfRelay => j.source.Hbf? && j.route.Relay?
          case HbmGpu => j.source.Hbm? || j.route.Relay?)
       case Done => true
  }

  predicate HoldsHbfBank(j: Job) {
    && j.source.Hbf?
    && (j.state.BackendReserved? || j.state.BackendReadyPending? || j.state.ReadyHbf?
        || (j.state.Running? && j.state.stage != HbmGpu))
  }

  predicate HoldsHbmBank(j: Job) {
    if j.source.Hbf? then
      j.state.ReadyHbm? || (j.state.Running? && (j.state.stage == HbfRelay || j.state.stage == HbmGpu))
    else
      j.arrival.Some? && !j.state.Done?
  }

  /** The next time at which the job is due to change state by itself. */
  function DueTime(j: Job): Option<nat> {
    match j.state
    case WaitReady => j.ready
    case BackendReadyPending => j.ready
    case Running(_, end) => Some(end)
    case _ => None
  }

  // ---------------------------------------------------------------- the ownership invariant

  /** The link a stage of the job occupies. */
  function LinkOf(c: Config, j: Job, stage: StageName): Link
    requires SourceOk(c, j.source, j.route)
    requires stage == HbmGpu ==> j.source.Hbm? || j.route.Relay?
  {
    match stage
    case HbfFill => FillLink(j.source.k)
    case HbfDirect => DirectLink(j.source.k)
    case HbfRelay => RelayLink(j.source.k)
    case HbmGpu => GpuLink(HbmOf(c, j))
  }

  /** Everything that one job can hold at a time: a bank of a stack, or a link. */
  datatype Slot = HbfBank(k: nat, bank: nat) | HbmBank(k: nat, bank: nat) | OnLink(link: Link)

  function BankHolder(banks: seq<Option<nat>>, b: nat): Option<nat> {
    if b < |banks| then banks[b] else None
  }

  /** The job recorded in a slot, if any. */
  function Holder(s: State, slot: Slot): Option<nat> {
    match slot
    case HbfBank(k, b) => if k < |s.hbf| then BankHolder(s.hbf[k].banks, b) else None
    case HbmBank(k, b) => if k < |s.hbm| then BankHolder(s.hbm[k].banks, b) else None
    case OnLink(FillLink(k)) => if k < |s.hbf| then s.hbf[k].fill else None
    case OnLink(DirectLink(k)) => if k < |s.hbf| then s.hbf[k].direct else None
    case OnLink(RelayLink(k)) => if k < |s.hbf| then s.hbf[k].relay else None
    case OnLink(GpuLink(k)) => if k < |s.hbm| then s.hbm[k].gpu else None
  }

  /** A job in a state that can occur, holding banks exactly when that state needs them. */
  predicate JobOk(c: Config, j: Job) {
    && SourceOk(c, j.source, j.route) && StateOk(j)
    && (HoldsHbfBank(j) <==> j.hbfBank.Some?)
    && (HoldsHbmBank(j) <==> j.hbmBank.Some?)
    && (j.hbfBank.Some? ==> j.hbfBank.value < 2)
    && (j.hbmBank.Some? ==> j.hbmBank.value < 2)
  }

  /** The job's own record says that it holds the slot. */
  predicate Claims(c: Config, j: Job, slot: Slot)
    requires JobOk(c, j)
  {
    match slot
    case HbfBank(k, b) => j.source == Hbf(k) && j.hbfBank == Some(b)
    case HbmBank(k, b) => j.hbmBank == Some(b) && HbmOf(c, j) == k
    case OnLink(l) => j.state.Running? && LinkOf(c, j, j.state.stage) == l
  }

  ghost predicate Shape(c: Config, s: State) {
    && |s.hbf| == |c.hbf| && |s.hbm| == |c.hbm|
    && (forall k :: 0 <= k < |s.hbf| ==> |s.hbf[k].banks| == 2)
    && (forall k :: 0 <= k < |s.hbm| ==> |s.hbm[k].banks| == 2)
    && (forall i :: 0 <= i < |s.jobs| ==> JobOk(c, s.jobs[i]))
  }

  /** Bank slots, link slots and job states name each other exactly. */
  ghost predicate Owned(c: Config, s: State) {
    && Shape(c, s)
    && (forall slot {:trigger Holder(s, slot)} :: Holder(s, slot).Some? ==>
          Holder(s, slot).value < |s.jobs| && Claims(c, s.jobs[Holder(s, slot).value], slot))
    && (forall i, slot {:trigger Claims(c, s.jobs[i], slot)} :: 0 <= i < |s.jobs| && Claims(c, s.jobs[i], slot) ==>
          Holder(s, slot) == Some(i))
  }

  // ---------------------------------------------------------------- transitions

  function FreeBank(banks: seq<Option<nat>>): (r: Option<nat>)
    ensures r.Some? ==> r.value < |banks| && banks[r.value].None? && forall b :: 0 <= b < r.value ==> banks[b].Some?
    ensures r.None? ==> forall b :: 0 <= b < |banks| ==> banks[b].Some?
  {
    if banks == [] then None
    else if banks[0].None? then Some(0)
    else
      var rest := FreeBank(banks[1..]);
      assert forall b :: 1 <= b < |banks| ==> banks[b] == banks[1..][b - 1];
      if rest.Some? then Some(rest.value + 1) else None
  }

  function TimingOf(c: Config, j: Job, stage: StageName): Timing
    requires SourceOk(c, j.source, j.route)
    requires stage == HbmGpu ==> j.source.Hbm? || j.route.Relay?
    requires stage != HbmGpu ==> j.source.Hbf?
    requires stage == HbfRelay ==> j.route.Relay?
  {
    match stage
    case HbfFill => c.hbf[j.source.k].fill
    case HbfDirect => c.hbf[j.source.k].directLink
    case HbfRelay => c.hbf[j.source.k].pair.value.relayLink
    case HbmGpu => c.hbm[HbmOf(c, j)].gpuLink
  }

  /** Job `i` occupies the link of `stage` until its duration has passed. */
  function StartStage(c: Config, s: State, i: nat, stage: StageName): State
    requires i < |s.jobs| && SourceOk(c, s.jobs[i].source, s.jobs[i].route)
    requires stage == HbmGpu ==> s.jobs[i].source.Hbm? || s.jobs[i].route.Relay?
    requires stage != HbmGpu ==> s.jobs[i].source.Hbf?
    requires stage == HbfRelay ==> s.jobs[i].route.Relay?
  {
    var j := s.jobs[i];
    var end := s.now + Duration(TimingOf(c, j, stage), j.bytes);
    s.(jobs := s.jobs[i := j.(state := Running(stage, end))],
       events := s.events + [Start(stage, i, LinkOf(c, j, stage), s.now, end)])
  }

  predicate CanFill(s: State, k: nat, i: nat, bank: nat) {
    && k < |s.hbf| && i < |s.jobs| && bank < |s.hbf[k].banks|
    && s.hbf[k].fill.None? && s.hbf[k].banks[bank].None?
    && s.jobs[i].source == Hbf(k) && s.jobs[i].state.MediaReady?
  }

  function StartFill(c: Config, s: State, k: nat, i: nat, bank: nat): State
    requires Shape(c, s) && CanFill(s, k, i, bank)
  {
    var s1 := s.(hbf := s.hbf[k := s.hbf[k].(fill := Some(i), banks := s.hbf[k].banks[bank := Some(i)])],
                 jobs := s.jobs[i := s.jobs[i].(hbfBank := Some(bank))]);
    StartStage(c, s1, i, HbfFill)
  }

  predicate CanDirect(s: State, i: nat) {
    && i < |s.jobs| && s.jobs[i].state.ReadyHbf? && s.jobs[i].source.Hbf? && s.jobs[i].route.Direct?
    && s.jobs[i].source.k < |s.hbf| && s.hbf[s.jobs[i].source.k].direct.None?
  }

  function StartDirect(c: Config, s: State, i: nat): State
    requires Shape(c, s) && CanDirect(s, i)
  {
    var k := s.jobs[i].source.k;
    StartStage(c, s.(hbf := s.hbf[k := s.hbf[k].(direct := Some(i))]), i, HbfDirect)
  }

  predicate CanRelay(c: Config, s: State, i: nat, bank: nat)
  {
    && i < |s.jobs| && s.jobs[i].state.ReadyHbf? && s.jobs[i].source.Hbf? && s.jobs[i].route.Relay?
    && SourceOk(c, s.jobs[i].source, s.jobs[i].route)
    && s.jobs[i].source.k < |s.hbf| && s.hbf[s.jobs[i].source.k].relay.None?
    && HbmOf(c, s.jobs[i]) < |s.hbm| && bank < |s.hbm[HbmOf(c, s.jobs[i])].banks|
    && s.hbm[HbmOf(c, s.jobs[i])].banks[bank].None?
  }

  /** The job keeps its HBF bank and takes an HBM bank as well. */
  function StartRelay(c: Config, s: State, i: nat, bank: nat): State
    requires Shape(c, s) && CanRelay(c, s, i, bank)
  {
    var k := s.jobs[i].source.k;
    var m := HbmOf(c, s.jobs[i]);
    var s1 := s.(hbf := s.hbf[k := s.hbf[k].(relay := Some(i))],
                 hbm := s.hbm[m := s.hbm[m].(banks := s.hbm[m].banks[bank := Some(i)])],
                 jobs := s.jobs[i := s.jobs[i].(hbmBank := Some(bank))]);
    StartStage(c, s1, i, HbfRelay)
  }

  /** A job that waits for the GPU link of HBM stack `k`. */
  predicate IsGpuCandidate(c: Config, j: Job, k: nat) {
    || (j.source == Hbm(k) && j.state.HbmReady?)
    || (j.source.Hbf? && j.state.ReadyHbm? && j.source.k < |c.hbf|
        && c.hbf[j.source.k].pair.Some? && c.hbf[j.source.k].pair.value.hbm == k)
  }

  predicate CanGpu(c: Config, s: State, k: nat, i: nat) {
    k < |s.hbm| && i < |s.jobs| && s.hbm[k].gpu.None? && IsGpuCandidate(c, s.jobs[i], k)
  }

  function StartGpu(c: Config, s: State, k: nat, i: nat): State
    requires Shape(c, s) && CanGpu(c, s, k, i)
  {
    StartStage(c, s.(hbm := s.hbm[k := s.hbm[k].(gpu := Some(i))]), i, HbmGpu)
  }

  predicate IsEnding(s: State, i: nat) {
    i < |s.jobs| && s.jobs[i].state.Running? && s.jobs[i].state.end == s.now
  }

  predicate IsEndingStage(s: State, i: nat, stage: StageName) {
    IsEnding(s, i) && s.jobs[i].state.stage == stage
  }

  /** The filled bank stays with the job. */
  function EndFill(c: Config, s: State, i: nat): State
    requires Shape(c, s) && IsEndingStage(s, i, HbfFill)
  {
    var j := s.jobs[i];
    s.(hbf := s.hbf[j.source.k := s.hbf[j.source.k].(fill := None)],
       jobs := s.jobs[i := j.(state := ReadyHbf)],
       events := s.events + [Complete(HbfFill, i, s.now)])
  }

  function EndDirect(c: Config, s: State, i: nat): State
    requires Shape(c, s) && IsEndingStage(s, i, HbfDirect)
  {
    var j := s.jobs[i];
    var slots := s.hbf[j.source.k];
    s.(hbf := s.hbf[j.source.k := slots.(direct := None, banks := slots.banks[j.hbfBank.value := None])],
       jobs := s.jobs[i := j.(state := Done, hbfBank := None)],
       completions := s.completions + [Completion(i, j.ready, s.now)],
       events := s.events + [Complete(HbfDirect, i, s.now)])
  }

  /** The HBF bank is given back; the HBM bank taken when the relay started is kept. */
  function EndRelay(c: Config, s: State, i: nat): State
    requires Shape(c, s) && IsEndingStage(s, i, HbfRelay)
  {
    var j := s.jobs[i];
    var slots := s.hbf[j.source.k];
    s.(hbf := s.hbf[j.source.k := slots.(relay := None, banks := slots.banks[j.hbfBank.value := None])],
       jobs := s.jobs[i := j.(state := ReadyHbm, hbfBank := None)],
       events := s.events + [Complete(HbfRelay, i, s.now)])
  }

  /** An HBM read that was never reserved holds no bank. */
  function EndGpu(c: Config, s: State, i: nat): State
    requires Shape(c, s) && IsEndingStage(s, i, HbmGpu)
  {
    var j := s.jobs[i];
    var k := HbmOf(c, j);
    var banks := if j.hbmBank.Some? then s.hbm[k].banks[j.hbmBank.value := None] else s.hbm[k].banks;
    s.(hbm := s.hbm[k := HbmSlots(banks, None)],
       jobs := s.jobs[i := j.(state := Done, hbmBank := None)],
       completions := s.completions + [Completion(i, j.ready, s.now)],
       events := s.events + [Complete(HbmGpu, i, s.now)])
  }

  /** Release the link (and the banks the stage gives back) and move the job on. */
  function CompleteStage(c: Config, s: State, i: nat): State
    requires Shape(c, s) && IsEnding(s, i)
  {
    match s.jobs[i].state.stage
    case HbfFill => EndFill(c, s, i)
    case HbfDirect => EndDirect(c, s, i)
    case HbfRelay => EndRelay(c, s, i)
    case HbmGpu => EndGpu(c, s, i)
  }

  predicate IsWaking(s: State, i: nat) {
    i < |s.jobs| && s.jobs[i].state.BackendReadyPending? && s.jobs[i].ready == Some(s.now)
  }

  /** A reserved job's backend data has reached its bank: no fill stage is run. */
  function WakeReserved(s: State, i: nat): State
    requires IsWaking(s, i)
  {
    var j := s.jobs[i];
    s.(jobs := s.jobs[i := j.(state := if j.source.Hbf? then ReadyHbf else HbmReady)],
       events := s.events + [BackendReadyAt(i, s.now)])
  }

  predicate IsArriving(s: State, i: nat) {
    i < |s.jobs| && s.jobs[i].state.WaitReady? && s.jobs[i].ready == Some(s.now)
  }

  function ArriveMedia(s: State, i: nat): State
    requires IsArriving(s, i)
  {
    var j := s.jobs[i];
    s.(jobs := s.jobs[i := j.(state := if j.source.Hbf? then MediaReady else HbmReady)],
       events := s.events + [MediaReadyAt(i, s.now)])
  }
}

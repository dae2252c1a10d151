/** The event loop of the fabric: due events in order, then admission, up to a horizon. */
module FabricRun {
  import opened Wrappers
  import opened Fabric
  import opened FabricHistory

  // ---------------------------------------------------------------- many transitions at one time

  /** A job after any number of transitions at time `now`. */
  predicate Evolved(c: Config, now: nat, a: Job, b: Job)
    requires JobOk(c, a) && JobOk(c, b)
  {
    || a == b
    || (&& SameRequest(a, b) && Rank(b) < Rank(a)
        && Remaining(c, now, b) == Remaining(c, now, a)
        && !a.state.BackendReserved? && !IsPending(b) && DueTime(b) != Some(now))
  }

  ghost predicate Evolves(c: Config, s: State, r: State)
    requires Shape(c, s) && Shape(c, r)
  {
    && r.now == s.now && |r.jobs| == |s.jobs|
    && (forall i :: 0 <= i < |s.jobs| ==> Evolved(c, s.now, s.jobs[i], r.jobs[i]))
    && s.completions <= r.completions
  }

  lemma MoveEvolves(c: Config, s: State, r: State, i: nat)
    requires Shape(c, s) && Shape(c, r) && Moves(c, s, r, i)
    ensures Evolves(c, s, r)
  {
  }

  /** Both states are good and only transitions at the same time lie between them. */
  ghost predicate Ticks(c: Config, s: State, r: State) {
    Good(c, s) && Good(c, r) && |r.jobs| == |s.jobs| && r.now == s.now && Evolves(c, s, r)
  }

  lemma TicksRefl(c: Config, s: State)
    requires Good(c, s)
    ensures Ticks(c, s, s)
  {
  }

  lemma TicksTrans(c: Config, s: State, t: State, r: State)
    requires Ticks(c, s, t) && Ticks(c, t, r)
    ensures Ticks(c, s, r)
  {
    forall i | 0 <= i < |s.jobs| ensures Evolved(c, s.now, s.jobs[i], r.jobs[i]) {
      assert Evolved(c, s.now, s.jobs[i], t.jobs[i]) && Evolved(c, t.now, t.jobs[i], r.jobs[i]);
    }
  }

  lemma MoveTicks(c: Config, s: State, r: State, i: nat)
    requires Good(c, s) && Good(c, r) && Moves(c, s, r, i)
    ensures Ticks(c, s, r)
    ensures !IsEnding(r, i) && !IsWaking(r, i) && !IsArriving(r, i)
  {
    MoveEvolves(c, s, r, i);
  }

  /** A job that is not due, or has just been dealt with, does not become due at the same time. */
  lemma NotDueAgain(c: Config, s: State, r: State, i: nat)
    requires Ticks(c, s, r) && i < |s.jobs|
    ensures !IsEnding(s, i) ==> !IsEnding(r, i)
    ensures !IsWaking(s, i) ==> !IsWaking(r, i)
    ensures !IsArriving(s, i) ==> !IsArriving(r, i)
  {
    assert Evolved(c, s.now, s.jobs[i], r.jobs[i]);
  }

  function CompleteDue(c: Config, s: State, k: nat): (r: State)
    requires Good(c, s) && k <= |s.jobs|
    ensures Ticks(c, s, r)
    ensures forall i :: k <= i < |r.jobs| ==> !IsEnding(r, i)
    decreases |s.jobs| - k
  {
    hide Good, Evolves;
    if k == |s.jobs| then
      TicksRefl(c, s);
      s
    else if IsEnding(s, k) then
      CompleteMoves(c, s, k);
      var t := CompleteStage(c, s, k);
      MoveTicks(c, s, t, k);
      var r := CompleteDue(c, t, k + 1);
      TicksTrans(c, s, t, r);
      NotDueAgain(c, t, r, k);
      r
    else
      var r := CompleteDue(c, s, k + 1);
      NotDueAgain(c, s, r, k);
      r
  }

  function WakeDue(c: Config, s: State, k: nat): (r: State)
    requires Good(c, s) && k <= |s.jobs|
    ensures Ticks(c, s, r)
    ensures forall i :: k <= i < |r.jobs| ==> !IsWaking(r, i)
    decreases |s.jobs| - k
  {
    hide Good, Evolves;
    if k == |s.jobs| then
      TicksRefl(c, s);
      s
    else if IsWaking(s, k) then
      WakeMoves(c, s, k);
      var t := WakeReserved(s, k);
      MoveTicks(c, s, t, k);
      var r := WakeDue(c, t, k + 1);
      TicksTrans(c, s, t, r);
      NotDueAgain(c, t, r, k);
      r
    else
      var r := WakeDue(c, s, k + 1);
      NotDueAgain(c, s, r, k);
      r
  }

  function ArriveDue(c: Config, s: State, k: nat): (r: State)
    requires Good(c, s) && k <= |s.jobs|
    ensures Ticks(c, s, r)
    ensures forall i :: k <= i < |r.jobs| ==> !IsArriving(r, i)
    decreases |s.jobs| - k
  {
    hide Good, Evolves;
    if k == |s.jobs| then
      TicksRefl(c, s);
      s
    else if IsArriving(s, k) then
      ArriveMoves(c, s, k);
      var t := ArriveMedia(s, k);
      MoveTicks(c, s, t, k);
      var r := ArriveDue(c, t, k + 1);
      TicksTrans(c, s, t, r);
      NotDueAgain(c, t, r, k);
      r
    else
      var r := ArriveDue(c, s, k + 1);
      NotDueAgain(c, s, r, k);
      r
  }

  // ---------------------------------------------------------------- admission

  /** Admission only takes free slots and only starts waiting jobs. */
  ghost predicate Grows(s: State, r: State) {
    && (forall slot {:trigger Holder(r, slot)} {:trigger Holder(s, slot)} ::
          Holder(s, slot).Some? ==> Holder(r, slot) == Holder(s, slot))
    && |r.jobs| == |s.jobs| && |r.hbf| == |s.hbf| && |r.hbm| == |s.hbm|
    && (forall i :: 0 <= i < |s.jobs| ==> r.jobs[i] == s.jobs[i] || r.jobs[i].state.Running?)
  }

  ghost predicate Admits(c: Config, s: State, r: State) {
    Ticks(c, s, r) && Grows(s, r) && |r.hbf| == |s.hbf| && |r.hbm| == |s.hbm|
  }

  lemma AdmitsTrans(c: Config, s: State, t: State, r: State)
    requires Admits(c, s, t) && Admits(c, t, r)
    ensures Admits(c, s, r)
  {
    hide Ticks;
    TicksTrans(c, s, t, r);
    GrowsTrans(s, t, r);
  }

  lemma GrowsTrans(s: State, t: State, r: State)
    requires Grows(s, t) && Grows(t, r)
    ensures Grows(s, r)
  {
    forall slot | Holder(s, slot).Some? ensures Holder(r, slot) == Holder(s, slot) {
      assert Holder(t, slot) == Holder(s, slot);
    }
  }

  ghost predicate FillSettled(s: State, k: nat) {
    || Holder(s, OnLink(FillLink(k))).Some?
    || (Holder(s, HbfBank(k, 0)).Some? && Holder(s, HbfBank(k, 1)).Some?)
    || forall i :: 0 <= i < |s.jobs| ==> !(s.jobs[i].source == Hbf(k) && s.jobs[i].state.MediaReady?)
  }

  ghost predicate SendSettled(c: Config, s: State, i: nat)
    requires i < |s.jobs| && JobOk(c, s.jobs[i])
  {
    var j := s.jobs[i];
    j.state.ReadyHbf? ==>
      if j.route.Direct? then Holder(s, OnLink(DirectLink(j.source.k))).Some?
      else Holder(s, OnLink(RelayLink(j.source.k))).Some?
           || (Holder(s, HbmBank(HbmOf(c, j), 0)).Some? && Holder(s, HbmBank(HbmOf(c, j), 1)).Some?)
  }

  ghost predicate GpuSettled(c: Config, s: State, k: nat) {
    || Holder(s, OnLink(GpuLink(k))).Some?
    || forall i :: 0 <= i < |s.jobs| ==> !IsGpuCandidate(c, s.jobs[i], k)
  }

  /** What admission has settled stays settled while it goes on. */
  lemma FillStaysSettled(s: State, r: State, k: nat)
    requires Grows(s, r) && FillSettled(s, k)
    ensures FillSettled(r, k)
  {
    if Holder(s, OnLink(FillLink(k))).None? && !(Holder(s, HbfBank(k, 0)).Some? && Holder(s, HbfBank(k, 1)).Some?) {
      forall i | 0 <= i < |r.jobs| ensures !(r.jobs[i].source == Hbf(k) && r.jobs[i].state.MediaReady?) {
        assert r.jobs[i] == s.jobs[i] || r.jobs[i].state.Running?;
      }
    }
  }

  lemma SendStaysSettled(c: Config, s: State, r: State, i: nat)
    requires Grows(s, r) && i < |s.jobs| && JobOk(c, s.jobs[i]) && JobOk(c, r.jobs[i]) && SendSettled(c, s, i)
    ensures SendSettled(c, r, i)
  {
  }

  lemma GpuStaysSettled(c: Config, s: State, r: State, k: nat)
    requires Grows(s, r) && GpuSettled(c, s, k)
    ensures GpuSettled(c, r, k)
  {
    if Holder(s, OnLink(GpuLink(k))).None? {
      forall i | 0 <= i < |r.jobs| ensures !IsGpuCandidate(c, r.jobs[i], k) {
        assert r.jobs[i] == s.jobs[i] || r.jobs[i].state.Running?;
      }
    }
  }

  /** No stage that could start has been left unstarted. */
  ghost predicate Settled(c: Config, s: State)
    requires Shape(c, s)
  {
    && (forall k :: 0 <= k < |s.hbf| ==> FillSettled(s, k))
    && (forall i :: 0 <= i < |s.jobs| ==> SendSettled(c, s, i))
    && (forall k :: 0 <= k < |s.hbm| ==> GpuSettled(c, s, k))
  }

  /** The first waiting job for the fill link of HBF stack `k`. */
  function FirstMediaReady(jobs: seq<Job>, k: nat, from: nat): (r: Option<nat>)
    requires from <= |jobs|
    ensures r.Some? ==> from <= r.value < |jobs| && jobs[r.value].source == Hbf(k) && jobs[r.value].state.MediaReady?
    ensures forall i :: from <= i < (if r.Some? then r.value else |jobs|) ==>
              !(jobs[i].source == Hbf(k) && jobs[i].state.MediaReady?)
    decreases |jobs| - from
  {
    if from == |jobs| then None
    else if jobs[from].source == Hbf(k) && jobs[from].state.MediaReady? then Some(from)
    else FirstMediaReady(jobs, k, from + 1)
  }

  function FirstGpuCandidate(c: Config, jobs: seq<Job>, k: nat, from: nat): (r: Option<nat>)
    requires from <= |jobs|
    ensures r.Some? ==> from <= r.value < |jobs| && IsGpuCandidate(c, jobs[r.value], k)
    ensures forall i :: from <= i < (if r.Some? then r.value else |jobs|) ==> !IsGpuCandidate(c, jobs[i], k)
    decreases |jobs| - from
  {
    if from == |jobs| then None
    else if IsGpuCandidate(c, jobs[from], k) then Some(from)
    else FirstGpuCandidate(c, jobs, k, from + 1)
  }

  lemma StartAdmits(c: Config, s: State, r: State, i: nat)
    requires Good(c, s) && Good(c, r) && Moves(c, s, r, i) && r.jobs[i].state.Running?
    requires forall slot :: Holder(s, slot).Some? ==> Holder(r, slot) == Holder(s, slot)
    ensures Admits(c, s, r)
  {
    MoveTicks(c, s, r, i);
  }

  lemma FillAdmits(c: Config, s: State, k: nat, i: nat, bank: nat)
    requires Good(c, s) && CanFill(s, k, i, bank)
    ensures Admits(c, s, StartFill(c, s, k, i, bank)) && FillSettled(StartFill(c, s, k, i, bank), k)
  {
    FillMoves(c, s, k, i, bank);
    StartAdmits(c, s, StartFill(c, s, k, i, bank), i);
  }

  lemma FillIdle(c: Config, s: State, k: nat)
    requires Good(c, s) && k < |s.hbf|
    requires s.hbf[k].fill.Some? || FreeBank(s.hbf[k].banks).None? || FirstMediaReady(s.jobs, k, 0).None?
    ensures FillSettled(s, k)
  {
  }

  function FillStack(c: Config, s: State, k: nat): (r: State)
    requires Good(c, s) && k < |s.hbf|
    ensures Admits(c, s, r) && FillSettled(r, k)
  {
    hide Good, Shape, Ticks, Grows, StartFill, FillSettled;
    var bank := FreeBank(s.hbf[k].banks);
    var job := FirstMediaReady(s.jobs, k, 0);
    AdmitsRefl(c, s);
    if s.hbf[k].fill.None? && bank.Some? && job.Some? then
      FillAdmits(c, s, k, job.value, bank.value);
      StartFill(c, s, k, job.value, bank.value)
    else
      FillIdle(c, s, k);
      s
  }

  function FillStacks(c: Config, s: State, k: nat): (r: State)
    requires Good(c, s) && k <= |s.hbf|
    ensures Admits(c, s, r)
    ensures forall m :: k <= m < |r.hbf| ==> FillSettled(r, m)
    decreases |s.hbf| - k
  {
    hide Good, Evolves, Grows, FillSettled, FillStack;
    if k == |s.hbf| then
      AdmitsRefl(c, s);
      s
    else
      var t := FillStack(c, s, k);
      var r := FillStacks(c, t, k + 1);
      FilledOnward(c, s, t, r, k);
      r
  }

  lemma FilledOnward(c: Config, s: State, t: State, r: State, k: nat)
    requires Admits(c, s, t) && Admits(c, t, r) && FillSettled(t, k)
    requires forall m :: k < m < |r.hbf| ==> FillSettled(r, m)
    ensures Admits(c, s, r) && forall m :: k <= m < |r.hbf| ==> FillSettled(r, m)
  {
    hide FillSettled, Grows, Ticks;
    AdmitsTrans(c, s, t, r);
    FillStaysSettled(t, r, k);
  }

  lemma AdmitsRefl(c: Config, s: State)
    requires Good(c, s)
    ensures Shape(c, s) && Admits(c, s, s)
  {
    TicksRefl(c, s);
  }

  lemma DirectAdmits(c: Config, s: State, i: nat)
    requires Good(c, s) && CanDirect(s, i)
    ensures Admits(c, s, StartDirect(c, s, i))
  {
    DirectMoves(c, s, i);
    StartAdmits(c, s, StartDirect(c, s, i), i);
  }

  lemma RelayAdmits(c: Config, s: State, i: nat, bank: nat)
    requires Good(c, s) && CanRelay(c, s, i, bank)
    ensures Admits(c, s, StartRelay(c, s, i, bank))
  {
    RelayMoves(c, s, i, bank);
    StartAdmits(c, s, StartRelay(c, s, i, bank), i);
  }

  /** Send job `i` on if its link (and, for a relay, a bank of the HBM partner) is free. */
  function SendJob(c: Config, s: State, i: nat): (r: State)
    requires Good(c, s) && i < |s.jobs|
    ensures Admits(c, s, r)
  {
    hide Good, Ticks, Grows, StartDirect, StartRelay;
    AdmitsRefl(c, s);
    var j := s.jobs[i];
    if !j.state.ReadyHbf? then s
    else if j.route.Direct? then
      if s.hbf[j.source.k].direct.None? then
        DirectAdmits(c, s, i);
        StartDirect(c, s, i)
      else s
    else
      var bank := FreeBank(s.hbm[HbmOf(c, j)].banks);
      if s.hbf[j.source.k].relay.None? && bank.Some? then
        RelayAdmits(c, s, i, bank.value);
        StartRelay(c, s, i, bank.value)
      else s
  }

  lemma SendJobSettles(c: Config, s: State, i: nat)
    requires Good(c, s) && i < |s.jobs|
    ensures JobOk(c, SendJob(c, s, i).jobs[i]) && SendSettled(c, SendJob(c, s, i), i)
  {
    assert JobOk(c, s.jobs[i]) && JobOk(c, SendJob(c, s, i).jobs[i]);
  }

  function SendJobs(c: Config, s: State, i: nat): (r: State)
    requires Good(c, s) && i <= |s.jobs|
    ensures Admits(c, s, r)
    decreases |s.jobs| - i
  {
    hide Good, Evolves, Grows;
    if i == |s.jobs| then
      AdmitsRefl(c, s);
      s
    else
      var t := SendJob(c, s, i);
      var r := SendJobs(c, t, i + 1);
      AdmitsTrans(c, s, t, r);
      r
  }

  ghost predicate SentFrom(c: Config, s: State, i: nat) {
    forall n :: i <= n < |s.jobs| ==> JobOk(c, s.jobs[n]) && SendSettled(c, s, n)
  }

  lemma SendJobsSettle(c: Config, s: State, i: nat)
    requires Good(c, s) && i <= |s.jobs|
    ensures SentFrom(c, SendJobs(c, s, i), i)
    decreases |s.jobs| - i
  {
    hide Good, Evolves, Grows, JobOk, SendSettled, SendJob;
    if i < |s.jobs| {
      var t := SendJob(c, s, i);
      var r := SendJobs(c, t, i + 1);
      SendJobsSettle(c, t, i + 1);
      SendJobSettles(c, s, i);
      JobIsOk(c, r, i);
      SendStaysSettled(c, t, r, i);
    }
  }

  lemma JobIsOk(c: Config, s: State, i: nat)
    requires Good(c, s) && i < |s.jobs|
    ensures JobOk(c, s.jobs[i])
  {
  }

  lemma GpuAdmits(c: Config, s: State, k: nat, i: nat)
    requires Good(c, s) && CanGpu(c, s, k, i)
    ensures Admits(c, s, StartGpu(c, s, k, i)) && GpuSettled(c, StartGpu(c, s, k, i), k)
  {
    GpuMoves(c, s, k, i);
    var r := StartGpu(c, s, k, i);
    assert r.hbf == s.hbf && r.hbm == s.hbm[k := s.hbm[k].(gpu := Some(i))];
    hide Good, Moves, StartStage, IsGpuCandidate;
    assert forall slot :: Holder(s, slot).Some? ==> Holder(r, slot) == Holder(s, slot);
    StartAdmits(c, s, r, i);
  }

  function GpuStack(c: Config, s: State, k: nat): (r: State)
    requires Good(c, s) && k < |s.hbm|
    ensures Admits(c, s, r) && GpuSettled(c, r, k)
  {
    hide Good, Shape, Evolves, Grows, StartGpu;
    var job := FirstGpuCandidate(c, s.jobs, k, 0);
    AdmitsRefl(c, s);
    if s.hbm[k].gpu.None? && job.Some? then
      GpuAdmits(c, s, k, job.value);
      StartGpu(c, s, k, job.value)
    else s
  }

  function GpuStacks(c: Config, s: State, k: nat): (r: State)
    requires Good(c, s) && k <= |s.hbm|
    ensures Admits(c, s, r)
    ensures forall m :: k <= m < |r.hbm| ==> GpuSettled(c, r, m)
    decreases |s.hbm| - k
  {
    hide Good, Evolves, Grows, GpuSettled, GpuStack;
    if k == |s.hbm| then
      AdmitsRefl(c, s);
      s
    else
      var t := GpuStack(c, s, k);
      var r := GpuStacks(c, t, k + 1);
      DrainedOnward(c, s, t, r, k);
      r
  }

  lemma DrainedOnward(c: Config, s: State, t: State, r: State, k: nat)
    requires Admits(c, s, t) && Admits(c, t, r) && GpuSettled(c, t, k)
    requires forall m :: k < m < |r.hbm| ==> GpuSettled(c, r, m)
    ensures Admits(c, s, r) && forall m :: k <= m < |r.hbm| ==> GpuSettled(c, r, m)
  {
    hide GpuSettled, Grows, Ticks;
    AdmitsTrans(c, s, t, r);
    GpuStaysSettled(c, t, r, k);
  }

  /** Fill free banks, then send filled banks on, then drain to the GPU. */
  function Admit(c: Config, s: State): (r: State)
    requires Good(c, s)
    ensures Admits(c, s, r)
  {
    hide Good, Evolves, Grows;
    var filled := FillStacks(c, s, 0);
    var sent := SendJobs(c, filled, 0);
    var r := GpuStacks(c, sent, 0);
    AdmitsTrans(c, s, filled, sent);
    AdmitsTrans(c, s, sent, r);
    r
  }

  /** One pass of admission leaves nothing startable. */
  lemma AdmitSettles(c: Config, s: State)
    requires Good(c, s)
    ensures Shape(c, Admit(c, s)) && Settled(c, Admit(c, s))
  {
    hide Good, Evolves, Grows, Shape, FillSettled, SendSettled, GpuSettled, JobOk, Settled;
    var filled := FillStacks(c, s, 0);
    var sent := SendJobs(c, filled, 0);
    SendJobsSettle(c, filled, 0);
    SettledAfter(c, filled, sent, GpuStacks(c, sent, 0));
  }

  lemma SettledAfter(c: Config, filled: State, sent: State, r: State)
    requires Admits(c, filled, sent) && Admits(c, sent, r)
    requires forall m :: 0 <= m < |filled.hbf| ==> FillSettled(filled, m)
    requires SentFrom(c, sent, 0)
    requires forall m :: 0 <= m < |r.hbm| ==> GpuSettled(c, r, m)
    ensures Shape(c, r) && Settled(c, r)
  {
    assert Shape(c, r);
    hide Good, Evolves, Grows, FillSettled, SendSettled, GpuSettled, JobOk;
    forall m | 0 <= m < |r.hbf| ensures FillSettled(r, m) {
      FillStaysSettled(filled, sent, m);
      FillStaysSettled(sent, r, m);
    }
    forall n | 0 <= n < |r.jobs| ensures SendSettled(c, r, n) {
      SendStaysSettled(c, sent, r, n);
    }
  }
}

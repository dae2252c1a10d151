/**
 When the run completes.  Past the maximal horizon MQSim is no longer waited for, so a command at
 MQSim must be accompanied by some other event; why there is one, and when there cannot be.
 */
module SystemLiveness {
  import opened Wrappers
  import opened SystemModel
  import opened SystemAdmission
  import opened SystemHorizon
  import opened SystemRound
  import opened SystemTurns
  import Fabric
  import FabricHistory
  import FabricRun
  import FabricAdvance
  import FabricCalls
  import FabricTheorems
  import Hbm
  import HbmRun

  /** Only MQSim is left to wait for, and the time to wait for it is over: the deadlock error. */
  ghost predicate Stuck(y: System) {
    MAX_HORIZON_NS < y.now && NoCandidate(y) && y.mq.pending != map[]
  }

  /** The fabric or a server has an event to come. */
  ghost predicate Stirs(y: System) {
    FabricAdvance.NextEvent(y.fabric).Some? || HbmRun.NextEnd(y.hbm.servers).Some?
  }

  ghost predicate HbfComplete(y: System) {
    forall r :: 0 <= r < |y.records| && y.records[r].source.Hbf? ==> y.records[r].stage.Complete?
  }

  /** Past the maximal horizon something other than MQSim is under way, or nothing needs MQSim any more. */
  ghost predicate Lively(y: System) {
    MAX_HORIZON_NS < y.now ==> Stirs(y) || HbfComplete(y)
  }

  /** The request can reach MQSim before the maximal horizon, or does not go there. */
  predicate InTime(rec: Record) {
    rec.source.Hbf? ==> rec.arrival <= MAX_HORIZON_NS
  }

  ghost predicate Punctual(y: System) {
    forall r :: 0 <= r < |y.records| ==>
      InTime(y.records[r]) && (y.records[r].stage.GateWait? ==> y.records[r].stage.target <= MAX_HORIZON_NS)
  }

  lemma LivelyIsNotStuck(c: Fabric.Config, rows: seq<Hbm.Row>, y: System)
    requires Inv(c, rows, y) && Lively(y)
    ensures !Stuck(y)
  {
    if MAX_HORIZON_NS < y.now {
      if Stirs(y) {
        StirringIsCandidate(y);
      } else {
        NothingAtMqsim(c, rows, y);
      }
    }
  }

  lemma NothingAtMqsim(c: Fabric.Config, rows: seq<Hbm.Row>, y: System)
    requires Inv(c, rows, y) && HbfComplete(y)
    ensures y.mq.pending == map[]
  {
    forall r: nat ensures r !in y.mq.pending {
      if r < |y.records| {
        assert RecordOk(c, y, r);
      }
    }
  }

  lemma StirringIsCandidate(y: System)
    requires Stirs(y)
    ensures !NoCandidate(y)
  {
    var t := if FabricAdvance.NextEvent(y.fabric).Some? then FabricAdvance.NextEvent(y.fabric).value
             else HbmRun.NextEnd(y.hbm.servers).value;
    assert Candidate(y, t);
  }

  // ---------------------------------------------------------------- a system in which nothing stirs

  /** When the servers are idle, no HBM request waits for its server. */
  lemma ServersOweNothing(c: Fabric.Config, rows: seq<Hbm.Row>, y: System)
    requires Inv(c, rows, y) && AtRest(y) && HbmRun.NextEnd(y.hbm.servers).None?
    ensures FabricTheorems.NoHbmReserved(y.fabric)
  {
    hide FabricCalls.Stable, HbmRun.Valid;
    forall i | 0 <= i < |y.fabric.jobs| && y.fabric.jobs[i].state.BackendReserved? ensures y.fabric.jobs[i].source.Hbf? {
      assert JobKnown(y, i);
      var r := y.fabric.jobs[i].id;
      assert RecordOk(c, y, r);
      if r in y.hbm.requests {
        IdleServersReported(rows, y.hbm, r);
      }
    }
  }

  /** Every job is done, or belongs to an HBF request that waits for the gate or for MQSim. */
  lemma QuietJob(c: Fabric.Config, rows: seq<Hbm.Row>, y: System, i: nat)
    requires Inv(c, rows, y) && AtRest(y) && !Stirs(y) && i < |y.fabric.jobs|
    ensures y.fabric.jobs[i].state.Done? || (y.fabric.jobs[i].state.BackendReserved? && y.fabric.jobs[i].source.Hbf?)
    ensures y.fabric.jobs[i].state.Done? ||
            (exists r :: 0 <= r < |y.records| && (y.records[r].stage.GateWait? || r in y.mq.pending))
  {
    hide FabricCalls.Stable, HbmRun.Valid;
    ServersOweNothing(c, rows, y);
    assert JobKnown(y, i);
    var r := y.fabric.jobs[i].id;
    assert RecordOk(c, y, r);
    FabricTheorems.OnlyBackendsOwe(c, y.fabric, i);
  }

  /** A job whose data became ready just now cannot be done yet, so something stirs. */
  lemma DeliveredStirs(c: Fabric.Config, rows: seq<Hbm.Row>, y: System, i: nat)
    requires Inv(c, rows, y) && AtRest(y) && i < |y.fabric.jobs| && y.fabric.jobs[i].ready == Some(y.now)
    ensures Stirs(y)
  {
    ReadyIsNotDone(c, y.fabric, i);
    if !Stirs(y) {
      QuietJob(c, rows, y, i);
    }
  }

  lemma ReadyIsNotDone(c: Fabric.Config, s: Fabric.State, i: nat)
    requires FabricHistory.Good(c, s) && i < |s.jobs| && s.jobs[i].ready == Some(s.now)
    ensures !s.jobs[i].state.Done? && !s.jobs[i].state.BackendReserved?
  {
    assert Fabric.JobOk(c, s.jobs[i]);
    assert s.jobs[i].state.Done? ==> FabricHistory.IsCompleted(s.completions, i);
  }

  // ---------------------------------------------------------------- a round in which MQSim delivers nothing

  predicate Waiting(rec: Record) {
    rec.stage.ExternalWait? || rec.stage.GateWait?
  }

  /** Records wait for a bank or the gate exactly as before. */
  ghost predicate WaitingKept(a: seq<Record>, b: seq<Record>) {
    |a| == |b| && forall r :: 0 <= r < |a| ==> (Waiting(a[r]) || Waiting(b[r]) ==> a[r] == b[r])
  }

  /** Some backends have delivered at time `t`; the fabric is otherwise untouched. */
  ghost predicate MarkedAt(s: Fabric.State, r: Fabric.State, t: nat) {
    && r.(jobs := s.jobs) == s && |r.jobs| == |s.jobs|
    && forall i :: 0 <= i < |s.jobs| ==> JobMarked(s.jobs[i], r.jobs[i], t)
  }

  predicate JobMarked(a: Fabric.Job, b: Fabric.Job, t: nat) {
    b == a || (a.state.BackendReserved? && b == a.(state := Fabric.BackendReadyPending, ready := Some(t)))
  }

  lemma MarkedOnward(s: Fabric.State, m: Fabric.State, r: Fabric.State, t: nat)
    requires MarkedAt(s, m, t) && MarkedAt(m, r, t)
    ensures MarkedAt(s, r, t)
  {
    forall i | 0 <= i < |s.jobs| ensures JobMarked(s.jobs[i], r.jobs[i], t) {
      assert JobMarked(s.jobs[i], m.jobs[i], t) && JobMarked(m.jobs[i], r.jobs[i], t);
    }
  }

  lemma MarkedLeavesNothingDue(s: Fabric.State, r: Fabric.State, t: nat)
    requires MarkedAt(s, r, t) && FabricAdvance.NothingBefore(s, t)
    ensures FabricAdvance.NothingBefore(r, t)
  {
    forall i | 0 <= i < |r.jobs| && Fabric.DueTime(r.jobs[i]).Some? ensures t <= Fabric.DueTime(r.jobs[i]).value {
      assert JobMarked(s.jobs[i], r.jobs[i], t);
    }
  }

  /** The horizon is no later than anything the servers or the fabric have to come. */
  lemma HorizonIsFirst(c: Fabric.Config, rows: seq<Hbm.Row>, y: System, h: nat)
    requires Inv(c, rows, y) && IsHorizon(y, Some(h)) && Candidate(y, h)
    ensures FabricAdvance.NothingBefore(y.fabric, h) && HbmRun.NothingBefore(y.hbm, h)
  {
    hide FabricHistory.Good, HbmRun.Valid, FabricRun.Settled, Linked;
    FabricAdvance.NextIsDue(c, y.fabric);
    HbmRun.NextIsDue(rows, y.hbm);
    var f, e := FabricAdvance.NextEvent(y.fabric), HbmRun.NextEnd(y.hbm.servers);
    assert f.Some? ==> Candidate(y, f.value);
    assert e.Some? ==> Candidate(y, e.value);
  }

  /** `z` is at rest at the horizon `h` that `y` was advanced to, without a delivery from MQSim. */
  ghost predicate PassedTo(c: Fabric.Config, rows: seq<Hbm.Row>, y: System, f: Fabric.State, z: System, h: nat) {
    && Inv(c, rows, y) && AtRest(y) && AdmittedUpTo(y, |y.records|) && IsHorizon(y, Some(h)) && Candidate(y, h) && y.now <= h
    && MarkedAt(y.fabric, f, h) && FabricHistory.Good(c, f) && z.fabric == FabricAdvance.Advance(c, f, h)
    && Inv(c, rows, z) && AtRest(z) && y.mq.pending == z.mq.pending == map[] && WaitingKept(y.records, z.records)
  }

  /** No punctual record still waits for the gate or for its arrival past the maximal horizon. */
  lemma NoWaitPastHorizon(y: System, h: nat, r: nat)
    requires Punctual(y) && IsHorizon(y, Some(h)) && MAX_HORIZON_NS < h && r < |y.records|
    ensures !y.records[r].stage.GateWait? && (y.records[r].source.Hbf? ==> y.records[r].arrival <= y.now)
  {
    AreCandidates(y, r);
  }

  /** Both banks a record waits for cannot have been given up at once, so something stirs. */
  lemma BanksStir(c: Fabric.Config, rows: seq<Hbm.Row>, y: System, f: Fabric.State, z: System, h: nat, k: nat)
    requires PassedTo(c, rows, y, f, z, h) && Punctual(y) && MAX_HORIZON_NS < h && FabricTheorems.BothHeld(y.fabric, k)
    ensures Stirs(z)
  {
    hide Inv, AtRest, FabricHistory.Good, FabricAdvance.Advance, FabricRun.Ticks, AdmittedUpTo, IsHorizon, Punctual;
    HorizonIsFirst(c, rows, y, h);
    MarkedLeavesNothingDue(y.fabric, f, h);
    ClocksOf(y, f, h);
    FabricTheorems.AdvanceIsOneInstant(c, f, h);
    var waited := f.(now := h);
    HeldAfterMarks(y.fabric, f, h, k);
    var i := FabricTheorems.OneBankIsNotDone(c, waited, z.fabric, k);
    if !Stirs(z) {
      QuietJob(c, rows, z, i);
      var r :| 0 <= r < |z.records| && (z.records[r].stage.GateWait? || r in z.mq.pending);
      NoWaitPastHorizon(y, h, r);
    }
  }

  lemma ClocksOf(y: System, f: Fabric.State, h: nat)
    requires AtRest(y) && MarkedAt(y.fabric, f, h)
    ensures f.now == y.now
  {
  }

  lemma HeldAfterMarks(s: Fabric.State, f: Fabric.State, h: nat, k: nat)
    requires MarkedAt(s, f, h) && FabricTheorems.BothHeld(s, k)
    ensures FabricTheorems.BothHeld(f.(now := h), k)
  {
    assert s.hbf == f.hbf;
    forall b | 0 <= b < 2
      ensures Fabric.Holder(f.(now := h), Fabric.HbfBank(k, b)) == Fabric.Holder(s, Fabric.HbfBank(k, b))
    {
    }
  }

  /** Past the maximal horizon a round without a delivery leaves something stirring or no HBF request unfinished. */
  lemma PassedIsLively(c: Fabric.Config, rows: seq<Hbm.Row>, y: System, f: Fabric.State, z: System, h: nat)
    requires PassedTo(c, rows, y, f, z, h) && Punctual(y) && MAX_HORIZON_NS < h
    requires |y.records| == |z.records|
    ensures Stirs(z) || HbfComplete(z)
  {
    hide Inv, AtRest, FabricHistory.Good, FabricAdvance.Advance, IsHorizon, Punctual, MarkedAt, FabricTheorems.BothHeld;
    if !Stirs(z) {
      forall r | 0 <= r < |z.records| && z.records[r].source.Hbf? ensures z.records[r].stage.Complete? {
        NoWaitPastHorizon(y, h, r);
        if z.records[r].stage.ExternalWait? {
          WaitsForBanks(c, rows, y, r);
          BanksStir(c, rows, y, f, z, h, y.records[r].source.k);
        } else if !z.records[r].stage.GateWait? {
          QuietRecord(c, rows, z, r);
        }
      }
    }
  }

  lemma WaitsForBanks(c: Fabric.Config, rows: seq<Hbm.Row>, y: System, r: nat)
    requires Inv(c, rows, y) && r < |y.records| && StillWaits(y, y.records[r])
    requires y.records[r].stage.ExternalWait? && y.records[r].source.Hbf? && y.records[r].arrival <= y.now
    ensures FabricTheorems.BothHeld(y.fabric, y.records[r].source.k)
  {
    var k := y.records[r].source.k;
    forall b | 0 <= b < 2
      ensures Fabric.Holder(y.fabric, Fabric.HbfBank(k, b)).Some?
      ensures Fabric.Holder(y.fabric, Fabric.HbfBank(k, b)).value < |y.fabric.jobs|
    {
    }
  }

  /** An HBF request that no longer waits is complete once nothing stirs and MQSim has nothing. */
  lemma QuietRecord(c: Fabric.Config, rows: seq<Hbm.Row>, y: System, r: nat)
    requires Inv(c, rows, y) && AtRest(y) && !Stirs(y) && y.mq.pending == map[] && r < |y.records|
    requires y.records[r].source.Hbf? && !Waiting(y.records[r])
    ensures y.records[r].stage.Complete?
  {
    assert RecordOk(c, y, r);
    QuietJob(c, rows, y, y.records[r].job.value);
  }

  // ---------------------------------------------------------------- the admission pass

  /** What one turn leaves alone: the clock, and every record but a waiting one. */
  lemma TurnChanges(c: Fabric.Config, rows: seq<Hbm.Row>, d: Device, y: System, z: System, r: nat)
    requires TurnOf(c, rows, d, y, z, r)
    ensures z.now == y.now && r < |z.records| == |y.records|
    ensures forall q :: 0 <= q < |y.records| && (q != r || !Waiting(y.records[r])) ==> z.records[q] == y.records[q]
    ensures SameOrder(y.records[r], z.records[r])
    ensures z.records[r].stage.GateWait? && z.records[r] != y.records[r] ==>
              && r !in y.mq.pending && d.trySubmit(y.mq, r).1 == Deferred(z.records[r].stage.target)
              && y.now < z.records[r].stage.target
    ensures z.records[r] != y.records[r] && y.records[r].source.Hbf? ==>
              && r !in y.mq.pending && y.mq.now == y.now
              && (z.records[r].stage.BackendPending? ==> d.trySubmit(y.mq, r).1.Accepted?)
              && (y.records[r].stage.GateWait? ==> y.records[r].stage.target <= y.now)
              && y.records[r].arrival <= y.now && !z.records[r].stage.ExternalWait?
    ensures Waiting(z.records[r]) || z.records[r].stage.BackendPending? || z.records[r] == y.records[r]
  {
    hide FabricCalls.Stable, HbmRun.Valid, FabricCalls.ReserveSource, HbmAfter;
    assert RecordOk(c, y, r);
  }

  lemma TurnKeepsStirring(c: Fabric.Config, rows: seq<Hbm.Row>, d: Device, y: System, z: System, r: nat)
    requires TurnOf(c, rows, d, y, z, r) && Stirs(y)
    ensures Stirs(z)
  {
    hide FabricCalls.Stable, HbmRun.Valid, HbmAfter, Linked, FabricCalls.ReserveSource;
    var rec := y.records[r];
    if rec.stage.ExternalWait? && rec.arrival <= y.now {
      ReserveAnswers(c, rows, y, r);
      if Reserve(c, y, r).Reserved? {
        if rec.source.Hbm? {
          AdmitHbmIsOk(c, rows, y, r);
          SubmittedStirs(c, rows, z, r);
        } else {
          LongerStirs(y.fabric, z.fabric);
        }
      }
    }
  }

  /** A reservation leaves the events of the fabric where they are. */
  lemma LongerStirs(s: Fabric.State, f: Fabric.State)
    requires |f.jobs| == |s.jobs| + 1 && f.jobs[..|s.jobs|] == s.jobs
    ensures FabricAdvance.NextEvent(s).Some? ==> FabricAdvance.NextEvent(f).Some?
  {
    if FabricAdvance.NextEvent(s).Some? {
      var i :| 0 <= i < |s.jobs| && Fabric.DueTime(s.jobs[i]) == FabricAdvance.NextEvent(s);
      assert f.jobs[i] == f.jobs[..|s.jobs|][i];
    }
  }

  /** A request at a server that has not been reported is being served, or another is before it. */
  lemma SubmittedStirs(c: Fabric.Config, rows: seq<Hbm.Row>, y: System, r: nat)
    requires Inv(c, rows, y) && AtRest(y) && r < |y.records|
    requires y.records[r].source.Hbm? && y.records[r].stage.BackendPending?
    ensures Stirs(y)
  {
    hide FabricCalls.Stable, HbmRun.Valid;
    assert RecordOk(c, y, r);
    if HbmRun.NextEnd(y.hbm.servers).None? {
      IdleServersReported(rows, y.hbm, r);
    }
  }

  lemma TurnKeepsLively(c: Fabric.Config, rows: seq<Hbm.Row>, d: Device, y: System, z: System, r: nat)
    requires TurnOf(c, rows, d, y, z, r)
    ensures Lively(y) ==> Lively(z)
    ensures Prompt(d) && Punctual(y) ==> Punctual(z)
  {
    hide TurnOf, Stirs;
    TurnChanges(c, rows, d, y, z, r);
    if Stirs(y) {
      TurnKeepsStirring(c, rows, d, y, z, r);
    }
    if Prompt(d) && Punctual(y) {
      PromptTurn(c, rows, d, y, z, r);
      forall q | 0 <= q < |z.records|
        ensures InTime(z.records[q]) && (z.records[q].stage.GateWait? ==> z.records[q].stage.target <= MAX_HORIZON_NS)
      {
        assert InTime(y.records[q]);
      }
    }
  }

  lemma PromptTurn(c: Fabric.Config, rows: seq<Hbm.Row>, d: Device, y: System, z: System, r: nat)
    requires TurnOf(c, rows, d, y, z, r) && Prompt(d) && r < |z.records| && Punctual(y)
    ensures z.records[r].stage.GateWait? ==> z.records[r].stage.target <= MAX_HORIZON_NS
  {
    hide Inv, AtRest, AdmitStep;
    TurnChanges(c, rows, d, y, z, r);
  }

  /** The whole pass keeps the system lively and punctual. */
  lemma {:induction false} TurnsKeepLively(c: Fabric.Config, rows: seq<Hbm.Row>, d: Device, turns: seq<System>, n: nat)
    requires Turns(c, rows, d, turns) && n < |turns|
    ensures Lively(turns[0]) ==> Lively(turns[n])
    ensures Prompt(d) && Punctual(turns[0]) ==> Punctual(turns[n])
  {
    hide TurnOf, Lively, Punctual, Prompt;
    if n > 0 {
      TurnsKeepLively(c, rows, d, turns, n - 1);
      assert TurnOf(c, rows, d, turns[n - 1], turns[n - 1 + 1], n - 1);
      TurnKeepsLively(c, rows, d, turns[n - 1], turns[n], n - 1);
    }
  }

  lemma PassKeepsLively(c: Fabric.Config, rows: seq<Hbm.Row>, d: Device, y: System, z: System)
    requires InTurn(c, rows, d, y, z)
    ensures Lively(y) ==> Lively(z)
    ensures Prompt(d) && Punctual(y) ==> Punctual(z)
  {
    hide Turns, Lively, Punctual, Prompt;
    var turns :| |turns| == |y.records| + 1 && turns[0] == y && turns[|y.records|] == z && Turns(c, rows, d, turns);
    TurnsKeepLively(c, rows, d, turns, |y.records|);
  }

  // ---------------------------------------------------------------- a turn that raises

  lemma {:induction false} TurnsKeepOrders(c: Fabric.Config, rows: seq<Hbm.Row>, d: Device, turns: seq<System>, n: nat)
    requires Turns(c, rows, d, turns) && n < |turns|
    ensures SameOrders(turns[0].records, turns[n].records)
  {
    hide TurnOf;
    if n > 0 {
      TurnsKeepOrders(c, rows, d, turns, n - 1);
      assert TurnOf(c, rows, d, turns[n - 1], turns[n - 1 + 1], n - 1);
      TurnChanges(c, rows, d, turns[n - 1], turns[n], n - 1);
    }
  }

  /** Only a request that does not fit, or an HBF request at a gate that is not admitting, raises. */
  predicate Explained(c: Fabric.Config, rec: Record, fault: Fault, admitting: bool) {
    match fault
    case TooLarge => !Fits(c, rec)
    case _ => rec.source.Hbf? && !admitting
  }

  lemma RaisesIsExplained(c: Fabric.Config, rows: seq<Hbm.Row>, d: Device, y: System, halt: Halt)
    requires Raises(c, rows, d, y, halt)
    ensures Explained(c, y.records[halt.r], halt.fault, Admitting(d))
  {
    hide FabricCalls.Stable, HbmRun.Valid, FabricCalls.ReserveSource, Admitting, Fits;
    assert RecordOk(c, y, halt.r);
    var rec := y.records[halt.r];
    if rec.stage.ExternalWait? && rec.arrival <= y.now {
      ReserveAnswers(c, rows, y, halt.r);
    }
    GateIsAsked(d, y.mq, halt.r);
  }

  lemma GateIsAsked(d: Device, m: Mqsim, r: nat)
    ensures Admitting(d) && MqsimOk(m) && r !in m.pending ==> GateFault(d.trySubmit(m, r).1, m.now).None?
  {
  }

  lemma HaltIsExplained(c: Fabric.Config, rows: seq<Hbm.Row>, d: Device, y: System, halt: Halt, records: seq<Record>)
    requires HaltsAt(c, rows, d, y, halt) && SameOrders(y.records, records)
    ensures halt.r < |records| && Explained(c, records[halt.r], halt.fault, Admitting(d))
  {
    hide Turns, Raises, Admitting;
    var turns: seq<System> :| |turns| == halt.r + 1 && turns[0] == y && Turns(c, rows, d, turns)
                                && Raises(c, rows, d, turns[halt.r], halt);
    TurnsKeepOrders(c, rows, d, turns, halt.r);
    InRange(c, rows, d, turns[halt.r], halt);
    RaisesIsExplained(c, rows, d, turns[halt.r], halt);
    assert SameOrder(y.records[halt.r], turns[halt.r].records[halt.r]) && SameOrder(y.records[halt.r], records[halt.r]);
  }

  lemma InRange(c: Fabric.Config, rows: seq<Hbm.Row>, d: Device, y: System, halt: Halt)
    requires Raises(c, rows, d, y, halt)
    ensures halt.r < |y.records|
  {
  }

  // ---------------------------------------------------------------- a request that comes too late

  /**
   The only request is for an HBF stack, is not at MQSim yet, and cannot be there by the maximal horizon: it comes
   after it, it has been put off past it, or the gate will do so.
   */
  ghost predicate Late(d: Device, y: System) {
    && |y.records| == 1 && y.records[0].source.Hbf? && Waiting(y.records[0])
    && (|| y.records[0].arrival > MAX_HORIZON_NS
        || (y.records[0].stage.GateWait? && y.records[0].stage.target > MAX_HORIZON_NS)
        || (y.records[0].stage.ExternalWait? && y.mq.deferrals > 0 && Holds(d)))
  }

  /** Without HBM requests the servers are idle. */
  lemma ServersIdle(c: Fabric.Config, rows: seq<Hbm.Row>, y: System)
    requires Inv(c, rows, y) && forall r :: 0 <= r < |y.records| ==> y.records[r].source.Hbf?
    ensures HbmRun.NextEnd(y.hbm.servers).None?
  {
    hide FabricCalls.Stable;
    forall id: nat ensures id !in y.hbm.requests {
      if id < |y.records| {
        assert RecordOk(c, y, id);
      }
    }
    forall k | 0 <= k < |y.hbm.servers| ensures HbmRun.ActiveEnd(y.hbm.servers[k]).None? {
      assert HbmRun.HistoryOk(rows, y.hbm, k);
      assert |y.hbm.servers[k].history| > 0 ==> HbmRun.EntryKnown(rows, y.hbm, k, y.hbm.servers[k].history[0]);
    }
  }

  /** While every record waits or is at MQSim, the fabric has no event. */
  lemma FabricIdle(c: Fabric.Config, rows: seq<Hbm.Row>, y: System)
    requires Inv(c, rows, y) && forall r :: 0 <= r < |y.records| ==> Waiting(y.records[r]) || y.records[r].stage.BackendPending?
    ensures FabricAdvance.NextEvent(y.fabric).None?
  {
    hide FabricCalls.Stable, HbmRun.Valid;
    forall i | 0 <= i < |y.fabric.jobs| ensures Fabric.DueTime(y.fabric.jobs[i]).None? {
      assert JobKnown(y, i);
      assert RecordOk(c, y, y.fabric.jobs[i].id);
    }
  }

  /** Once MQSim has accepted the late request, only the deadlock error is left. */
  lemma SubmittedLateIsStuck(c: Fabric.Config, rows: seq<Hbm.Row>, y: System)
    requires Inv(c, rows, y) && AtRest(y) && |y.records| == 1 && y.records[0].source.Hbf? && y.records[0].stage.BackendPending?
    requires MAX_HORIZON_NS < y.now
    ensures Stuck(y)
  {
    ServersIdle(c, rows, y);
    FabricIdle(c, rows, y);
    assert RecordOk(c, y, 0);
    assert 0 in y.mq.pending;
  }

  lemma LateIsAlone(c: Fabric.Config, rows: seq<Hbm.Row>, d: Device, y: System)
    requires Inv(c, rows, y) && Late(d, y)
    ensures y.mq.pending == map[] && !AllComplete(y)
  {
    assert RecordOk(c, y, 0);
    forall r: nat ensures r !in y.mq.pending {
    }
    assert !y.records[0].stage.Complete?;
  }

  /** The admission pass leaves the late request waiting or submits it too late. */
  lemma LatePass(c: Fabric.Config, rows: seq<Hbm.Row>, d: Device, y: System, z: System)
    requires InTurn(c, rows, d, y, z) && Late(d, y) && Inv(c, rows, z) && AtRest(z)
    ensures Late(d, z) || Stuck(z)
  {
    hide TurnOf, Inv, AtRest, Stuck;
    var turns: seq<System> :| |turns| == 2 && turns[0] == y && turns[1] == z && Turns(c, rows, d, turns);
    assert TurnOf(c, rows, d, turns[0], turns[0 + 1], 0);
    LateTurn(c, rows, d, y, z);
    if !Late(d, z) {
      SubmittedLateIsStuck(c, rows, z);
    }
  }

  lemma LateTurn(c: Fabric.Config, rows: seq<Hbm.Row>, d: Device, y: System, z: System)
    requires TurnOf(c, rows, d, y, z, 0) && Late(d, y)
    ensures |z.records| == 1 && z.records[0].source.Hbf?
    ensures Late(d, z) || (z.records[0].stage.BackendPending? && MAX_HORIZON_NS < z.now)
  {
    hide AdmitStep, FaultOf, Inv, AtRest;
    TurnChanges(c, rows, d, y, z, 0);
    TurnKeepsMqsim(c, rows, d, y, z);
  }

  lemma TurnKeepsMqsim(c: Fabric.Config, rows: seq<Hbm.Row>, d: Device, y: System, z: System)
    requires TurnOf(c, rows, d, y, z, 0)
    ensures y.records[0].stage.ExternalWait? && z.records[0] == y.records[0] ==> z.mq == y.mq
    ensures MqsimOk(y.mq)
  {
  }
}

/** The coordinator itself, driving the fabric, the HBM servers and MQSim to the end of every request. */
module SystemRun {
  import opened Wrappers
  import opened SystemModel
  import opened SystemAdmission
  import opened SystemHorizon
  import opened SystemRound
  import opened SystemMeasure
  import opened SystemTurns
  import opened SystemLiveness
  import Fabric
  import FabricHistory
  import FabricAdvance
  import FabricRun
  import FabricCalls
  import FabricTheorems
  import Hbm
  import HbmRun

  datatype Step = Went | Stalled | Halted(halt: Halt)

  datatype Outcome = Completed | Deadlocked | Raised(halt: Halt)

  ghost predicate AllFit(c: Fabric.Config, records: seq<Record>) {
    forall r :: 0 <= r < |records| ==> Fits(c, records[r])
  }

  ghost predicate AllInTime(records: seq<Record>) {
    forall r :: 0 <= r < |records| ==> InTime(records[r])
  }

  class BasicSystem {
    const config: Fabric.Config
    const rows: seq<Hbm.Row>
    const mqsim: Device
    var now: nat
    var records: seq<Record>
    var fabric: Fabric.State
    var hbm: Hbm.State
    var mq: Mqsim
    var taken: nat
    var seen: nat

    function Value(): System
      reads this
    {
      System(now, records, fabric, hbm, mq, taken, seen)
    }

    constructor (config: Fabric.Config, rows: seq<Hbm.Row>, mqsim: Device, mq: Mqsim, requests: seq<Record>)
      requires Obeys(mqsim) && mq.pending == map[] && mq.now == 0 && |rows| == |config.hbm|
      requires forall r :: 0 <= r < |requests| ==> Fresh(config, requests[r])
      ensures this.config == config && this.rows == rows && this.mqsim == mqsim && this.mq == mq && records == requests
      ensures Valid() && AtRest(Value()) && now == 0
    {
      this.config := config;
      this.rows := rows;
      this.mqsim := mqsim;
      this.mq := mq;
      now := 0;
      records := requests;
      fabric := FabricCalls.Init(config);
      hbm := HbmRun.Init(rows);
      taken := 0;
      seen := 0;
      new;
      StartIsOk(config, rows, Value());
    }

    ghost predicate Valid()
      reads this
    {
      Obeys(mqsim) && MqsimOk(mq) && Inv(config, rows, Value())
    }

    method TryHbfSubmit(r: nat) returns (d: Decision)
      requires Obeys(mqsim) && MqsimOk(mq) && r !in mq.pending
      modifies `mq
      ensures TryContract(old(mq), r, mq, d) && MqsimOk(mq) && (mq, d) == mqsim.trySubmit(old(mq), r)
    {
      var answer := mqsim.trySubmit(mq, r);
      SubmissionKeepsMqsim(mq, r, answer.0, answer.1);
      mq := answer.0;
      d := answer.1;
    }

    /** Put a retried submission's answer into the record, or raise what the gate's answer calls for. */
    method Retry(r: nat) returns (fault: Option<Fault>)
      requires Valid() && AtRest(Value()) && r < |records| && AdmittedUpTo(Value(), r) && records[r].stage.GateWait?
      modifies `records, `mq
      ensures fault == GateFault(mqsim.trySubmit(old(mq), r).1, now) && (fault.Some? ==> records == old(records))
      ensures fault.None? ==> Valid() && AtRest(Value()) && AdmittedUpTo(Value(), r + 1) && Admits(old(Value()), Value())
      ensures fault.None? ==> Value() == Resubmitted(mqsim, old(Value()), r)
    {
      hide Inv, Obeys, MqsimOk, Measure, AdmittedUpTo;
      ghost var y := Value();
      StageFacts(config, rows, y, r);
      var d := TryHbfSubmit(r);
      fault := GateFault(d, now);
      if fault.Some? {
        return;
      }
      records := records[r := records[r].(stage := StageOf(d))];
      assert Value() == RetryHbf(y, r, mq, d);
      RetryHbfIsOk(config, rows, y, r, mq, d);
      RetryDrops(y, r, mq, d);
      RetryAdmits(y, r, mq, d);
    }

    /** The source bank is reserved; submit to MQSim, or raise what the gate's answer calls for. */
    method SubmitHbf(r: nat, f: Fabric.State) returns (fault: Option<Fault>)
      requires Valid() && AtRest(Value()) && r < |records| && AdmittedUpTo(Value(), r) && Reservable(config, Value(), r, f)
      requires records[r].source.Hbf?
      modifies `records, `fabric, `mq
      ensures fault == GateFault(mqsim.trySubmit(old(mq), r).1, now) && (fault.Some? ==> records == old(records))
      ensures fault.None? ==> Valid() && AtRest(Value()) && AdmittedUpTo(Value(), r + 1) && Admits(old(Value()), Value())
      ensures fault.None? ==> Value() == Submitted(mqsim, old(Value()), r, f)
    {
      hide Inv, Obeys, MqsimOk, Measure, AdmittedUpTo, Reserve;
      ghost var y := Value();
      StageFacts(config, rows, y, r);
      var job := |fabric.jobs|;
      fabric := f;
      var d := TryHbfSubmit(r);
      fault := GateFault(d, now);
      if fault.Some? {
        return;
      }
      records := records[r := records[r].(job := Some(job), stage := StageOf(d))];
      assert Value() == AdmitHbf(y, r, f, mq, d);
      AdmitHbfIsOk(config, rows, y, r, mq, d);
      AdmittedDrops(config, rows, y, r, f, Value());
      AdmittedAdmits(config, rows, y, r, f, Value());
    }

    /** The source bank is reserved; the request arrives at its server and joins the queue. */
    method SubmitHbm(r: nat, f: Fabric.State)
      requires Valid() && AtRest(Value()) && r < |records| && AdmittedUpTo(Value(), r) && Reservable(config, Value(), r, f)
      requires records[r].source.Hbm?
      modifies `records, `fabric, `hbm
      ensures Valid() && AtRest(Value()) && AdmittedUpTo(Value(), r + 1) && Admits(old(Value()), Value())
      ensures HbmRun.Valid(rows, old(hbm)) && HbmAfter(rows, old(Value()), r).Some?
      ensures Value() == AdmitHbm(old(Value()), r, f, HbmAfter(rows, old(Value()), r).value)
    {
      hide Obeys, MqsimOk, Measure, AdmittedUpTo, Reserve, Linked, FabricCalls.Stable, HbmRun.Valid, AtRest;
      ghost var y := Value();
      AdmitHbmIsOk(config, rows, y, r);
      var h := HbmAfter(rows, Value(), r);
      records := records[r := records[r].(job := Some(|fabric.jobs|), stage := BackendPending(now))];
      fabric := f;
      hbm := h.value;
      assert Value() == AdmitHbm(y, r, f, h.value);
      AdmittedDrops(config, rows, y, r, f, Value());
      AdmittedAdmits(config, rows, y, r, f, Value());
    }

    /** A record's turn in the admission loop. */
    method AdmitOne(r: nat) returns (fault: Option<Fault>)
      requires Valid() && AtRest(Value()) && r < |records| && AdmittedUpTo(Value(), r)
      modifies `records, `fabric, `hbm, `mq
      ensures Inv(config, rows, old(Value())) && fault == FaultOf(config, mqsim, old(Value()), r)
      ensures fault.None? ==> Valid() && AtRest(Value()) && AdmittedUpTo(Value(), r + 1) && Admits(old(Value()), Value())
      ensures fault.None? ==> Value() == AdmitStep(config, rows, mqsim, old(Value()), r)
      ensures fault.Some? ==> records == old(records)
    {
      hide Inv, Obeys, MqsimOk, Measure, AdmittedUpTo, Fits;
      ghost var y := Value();
      var rec := records[r];
      AdmitsItself(y);
      ShapeFacts(config, rows, y);
      fault := None;
      if rec.stage.GateWait? {
        if rec.stage.target <= now {
          fault := Retry(r);
        } else {
          WaitingAdmits(y, r);
        }
      } else if !rec.stage.ExternalWait? || now < rec.arrival {
        WaitingAdmits(y, r);
      } else {
        ReserveAnswers(config, rows, y, r);
        var reserved := Reserve(config, Value(), r);
        match reserved
        case Rejected => fault := Some(TooLarge);
        case Full => FullAdmits(config, y, r);
        case Reserved(f) =>
          if rec.source.Hbf? {
            fault := SubmitHbf(r, f);
          } else {
            SubmitHbm(r, f);
          }
      }
    }

    /** Offer every waiting record its bank and its backend, in request order, until a turn raises. */
    method Admit() returns (halt: Option<Halt>)
      requires Valid() && AtRest(Value())
      modifies `records, `fabric, `hbm, `mq
      ensures SameOrders(old(records), records)
      ensures halt.None? ==> Valid() && AtRest(Value()) && AdmittedUpTo(Value(), |records|) && Admits(old(Value()), Value())
      ensures halt.None? ==> InTurn(config, rows, mqsim, old(Value()), Value())
      ensures halt.Some? ==> HaltsAt(config, rows, mqsim, old(Value()), halt.value)
    {
      hide Inv, AtRest, Obeys, MqsimOk, Measure, AdmitStep, FaultOf;
      ghost var turns := [Value()];
      AdmitsItself(Value());
      var r := 0;
      while r < |records|
        invariant r <= |records| == |old(records)| && Valid() && AtRest(Value()) && AdmittedUpTo(Value(), r)
        invariant Admits(old(Value()), Value())
        invariant |turns| == r + 1 && turns[0] == old(Value()) && turns[r] == Value() && Turns(config, rows, mqsim, turns)
        decreases |old(records)| - r
      {
        ghost var y := Value();
        ShapeFacts(config, rows, y);
        var fault := AdmitOne(r);
        if fault.Some? {
          halt := Some(Halt(r, fault.value));
          assert Raises(config, rows, mqsim, turns[halt.value.r], halt.value);
          assert HaltsAt(config, rows, mqsim, old(Value()), halt.value);
          return;
        }
        AdmitsOnward(old(Value()), y, Value());
        TurnTaken(config, rows, mqsim, turns, Value());
        turns := turns + [Value()];
        r := r + 1;
      }
      assert InTurn(config, rows, mqsim, old(Value()), Value());
      halt := None;
    }

    /** The earliest of the arrivals and gate targets to come, the next server end and the next fabric event. */
    method NextHorizon() returns (h: Option<nat>)
      requires Valid()
      ensures IsHorizon(Value(), h)
    {
      hide Inv, Obeys, MqsimOk;
      ghost var y := Value();
      h := Earlier(HbmRun.NextEnd(hbm.servers), FabricAdvance.NextEvent(fabric));
      var r := 0;
      while r < |records|
        invariant r <= |records|
        invariant IsLeast(h, y, r)
      {
        LeastGrows(h, y, r);
        h := Earlier(h, NextOfRecord(records[r], now));
        r := r + 1;
      }
      LeastIsHorizon(h, y);
      if h.None? && mq.pending != map[] {
        h := Some(MAX_HORIZON_NS);
      }
    }

    /** A completion from MQSim is of a command that is outstanding. */
    method AcceptMqsimCompletion(m: Mqsim, done: Option<nat>, ghost h: nat)
      requires Valid() && UntilContract(mq, h, m, done) && fabric.now <= m.now
      modifies `records, `fabric, `mq
      ensures Valid() && mq == m && SameOrders(old(records), records) && WaitingKept(old(records), records)
      ensures MarkedAt(old(fabric), fabric, m.now) && (done.Some? ==> SomeReady(fabric, m.now))
      ensures Measure(Value()) <= old(Measure(Value())) && (done.Some? ==> Measure(Value()) < old(Measure(Value())))
      ensures forall t: nat :: DueBy(old(fabric), t) ==> DueBy(fabric, t)
    {
      hide Inv, Obeys, MqsimOk, Measure, DueBy;
      ghost var y := Value();
      AcceptMqsimIsOk(config, rows, y, h, m, done);
      UntilKeepsMqsim(mq, h, m, done);
      mq := m;
      if done.Some? {
        var r := done.value;
        DeliverFacts(config, rows, y, r, m.now);
        var marked := FabricCalls.MarkSourceReady(fabric, r, m.now);
        if marked.None? {
          assert false;
        }
        fabric := marked.value;
        records := records[r := records[r].(stage := FabricPending(records[r].stage.submit, m.now))];
        MeasureIgnores(Deliver(y, r, m.now), Value());
      } else {
        MeasureIgnores(y, Value());
      }
      assert Value() == AcceptMqsim(y, m, done);
    }

    /** Every media completion not yet taken is of a request that is outstanding. */
    method AcceptHbmCompletions()
      requires Valid() && fabric.now <= hbm.now && HbmRun.ReportedBetween(hbm.log, taken, hbm.now, hbm.now)
      modifies `records, `fabric, `taken
      ensures Valid() && taken == |hbm.log| && SameOrders(old(records), records) && WaitingKept(old(records), records)
      ensures MarkedAt(old(fabric), fabric, hbm.now)
      ensures Measure(Value()) <= old(Measure(Value())) && (old(taken) < taken ==> Measure(Value()) < old(Measure(Value())))
      ensures forall t: nat :: DueBy(old(fabric), t) ==> DueBy(fabric, t)
    {
      hide Obeys, MqsimOk, Measure, DueBy, Linked, FabricCalls.Stable, HbmRun.Valid;
      while taken < |hbm.log|
        invariant Valid() && old(taken) <= taken <= |hbm.log|
        invariant SameOrders(old(records), records) && WaitingKept(old(records), records)
        invariant MarkedAt(old(fabric), fabric, hbm.now)
        invariant Measure(Value()) <= old(Measure(Value())) && (old(taken) < taken ==> Measure(Value()) < old(Measure(Value())))
        invariant forall t: nat :: DueBy(old(fabric), t) ==> DueBy(fabric, t)
        decreases |hbm.log| - taken
      {
        ghost var y := Value();
        AcceptReportIsOk(config, rows, y);
        var d := hbm.log[taken];
        if !records[d.id].stage.BackendPending? {
          assert false;
        }
        DeliverFacts(config, rows, y, d.id, d.time);
        var marked := FabricCalls.MarkSourceReady(fabric, d.id, d.time);
        if marked.None? {
          assert false;
        }
        fabric := marked.value;
        records := records[d.id := records[d.id].(stage := FabricPending(records[d.id].stage.submit, d.time))];
        taken := taken + 1;
        MarkedOnward(old(fabric), y.fabric, fabric, hbm.now);
        assert Value() == AcceptReport(y);
        MeasureIgnores(Deliver(y, d.id, d.time), Value());
      }
    }

    /** Every fabric completion not yet seen is of a request that the fabric holds. */
    method AcceptFabricCompletions()
      requires Valid()
      modifies `records, `seen
      ensures Valid() && seen == |fabric.completions| && SameOrders(old(records), records) && WaitingKept(old(records), records)
      ensures Measure(Value()) <= old(Measure(Value()))
    {
      hide Obeys, MqsimOk, Measure, Linked, FabricCalls.Stable, HbmRun.Valid;
      while seen < |fabric.completions|
        invariant Valid() && old(seen) <= seen <= |fabric.completions|
        invariant SameOrders(old(records), records) && WaitingKept(old(records), records)
        invariant Measure(Value()) <= old(Measure(Value()))
        decreases |fabric.completions| - seen
      {
        ghost var y := Value();
        AcceptCompletionIsOk(config, rows, y);
        var d := fabric.completions[seen];
        var r := fabric.jobs[d.job].id;
        if !records[r].stage.FabricPending? {
          assert false;
        }
        var stage := records[r].stage;
        records := records[r := records[r].(stage :=
          Complete(stage.submit, stage.backend, d.time, Later(stage.backend, d.time)))];
        seen := seen + 1;
        assert Value() == AcceptCompletion(y);
        AcceptCompletionDrops(y);
      }
    }

    /** Time moves to where MQSim stopped, the servers follow, and the backends deliver. */
    method FollowMqsim(m: Mqsim, done: Option<nat>, ghost h: nat)
      requires Valid() && AtRest(Value()) && AdmittedUpTo(Value(), |records|) && UntilContract(mq, h, m, done)
      requires done.None? ==> Candidate(Value(), h) && now < h
      requires HbmRun.NothingBefore(hbm, m.now)
      modifies `now, `records, `fabric, `hbm, `mq, `taken
      ensures now == m.now && mq == m && HbmRun.Valid(rows, old(hbm)) && hbm == HbmRun.Advance(rows, old(hbm), m.now)
      ensures Valid() && BackendsMoved(Value()) && SameOrders(old(records), records) && WaitingKept(old(records), records)
      ensures MarkedAt(old(fabric), fabric, m.now) && (done.Some? ==> SomeReady(fabric, m.now))
      ensures mq.deferrals == old(mq.deferrals) && Measure(Value()) <= old(Measure(Value()))
      ensures Measure(Value()) < old(Measure(Value())) || DueBy(fabric, now)
    {
      hide Obeys, MqsimOk, Measure, DueBy, Linked, FabricCalls.Stable, HbmRun.Valid, AdmittedUpTo, RecordCandidate,
        HbmRun.NothingBefore, FabricAdvance.NothingBefore, Candidate, MarkedAt, SomeReady, WaitingKept, SameOrders;
      ghost var y := Value();
      DueNow(fabric, m.now);
      MoveIsOk(config, rows, y, m.now);
      MoveDropsEnough(config, rows, y, m.now);
      HbmRun.AdvanceReportsNow(rows, hbm, m.now);
      now := m.now;
      hbm := HbmRun.Advance(rows, hbm, m.now);
      assert Value() == MoveBackends(rows, y, m.now);
      AcceptMqsimCompletion(m, done, h);
      ghost var between := Value();
      MarkedClock(y.fabric, fabric, m.now);
      AcceptHbmCompletions();
      OrdersOnward(y.records, between.records, records);
      WaitingOnward(y.records, between.records, records);
      MarkedClock(between.fabric, fabric, m.now);
      MarkedOnward(y.fabric, between.fabric, fabric, m.now);
      ReadyStays(between.fabric, fabric, m.now);
    }

    /** The fabric follows, and its completions are accepted. */
    method FollowFabric()
      requires Valid() && BackendsMoved(Value())
      modifies `records, `fabric, `seen
      ensures FabricHistory.Good(config, old(fabric)) && fabric == FabricAdvance.Advance(config, old(fabric), now)
      ensures Valid() && AtRest(Value()) && SameOrders(old(records), records) && WaitingKept(old(records), records)
      ensures unchanged(`now) && unchanged(`mq) && unchanged(`hbm)
      ensures Measure(Value()) <= old(Measure(Value()))
      ensures old(DueBy(fabric, now)) ==> Measure(Value()) < old(Measure(Value()))
    {
      hide Obeys, MqsimOk, Measure, DueBy, Inv, HbmRun.NothingBefore, FabricAdvance.NothingBefore, FabricHistory.Good,
        FabricAdvance.Advance;
      ghost var z := Value();
      MoveFabricIsOk(config, rows, z, now);
      MoveFabricDrops(config, z, now);
      fabric := FabricAdvance.Advance(config, fabric, now);
      assert Value() == MoveFabric(config, z, now);
      AcceptFabricCompletions();
    }

    /** MQSim runs to the horizon or to a completion before it, and everything else follows. */
    method Follow(h: nat)
      requires Valid() && AtRest(Value()) && AdmittedUpTo(Value(), |records|) && IsHorizon(Value(), Some(h)) && now <= h
      modifies this
      ensures Valid() && AtRest(Value()) && SameOrders(old(records), records) && WaitingKept(old(records), records)
      ensures mq.deferrals == old(mq.deferrals) && Measure(Value()) < old(Measure(Value()))
      ensures old(Punctual(Value())) ==> Punctual(Value()) && Lively(Value())
    {
      hide Inv, Obeys, MqsimOk, Measure, AtRest, AdmittedUpTo, IsHorizon, HbmRun.Valid, HbmRun.Advance, FabricAdvance.Advance,
        FabricHistory.Good, DueBy, BackendsMoved, Candidate, Punctual, Lively, MarkedAt, SomeReady, WaitingKept,
        HbmRun.NothingBefore, FabricAdvance.NothingBefore, UntilContract, FabricCalls.Stable, SameOrders;
      ghost var y := Value();
      ClocksAgree(y);
      var answer := mqsim.until(mq, h);
      Answered(mqsim, mq, h);
      if answer.1.None? {
        UntilOrCandidate(y, h, answer.0, answer.1);
        CandidatesAreLater(y, h);
      }
      NothingEndsBefore(config, rows, y, h, answer.0, answer.1);
      FollowMqsim(answer.0, answer.1, h);
      ghost var moved := Value();
      ResumesFrom(config, rows, y, h, answer.0, answer.1, moved);
      FollowFabric();
      WaitingOnward(y.records, moved.records, records);
      OrdersOnward(y.records, moved.records, records);
      assert Rounded(config, rows, y, h, answer.1, moved.fabric, Value());
      if Punctual(y) {
        RoundedIsPunctual(config, rows, y, h, answer.1, moved.fabric, Value());
        RoundedIsLively(config, rows, y, h, answer.1, moved.fabric, Value());
      }
    }

    /** One round of the run, from the state that the admission pass leaves. */
    method Round() returns (step: Step, ghost admitted: System)
      requires Valid() && AtRest(Value()) && !AllComplete(Value())
      modifies this
      ensures SameOrders(old(records), records)
      ensures step.Halted? ==> HaltsAt(config, rows, mqsim, old(Value()), step.halt)
      ensures !step.Halted? ==> InTurn(config, rows, mqsim, old(Value()), admitted) && (step.Stalled? <==> Stuck(admitted))
      ensures step.Stalled? ==> Value() == admitted
      ensures !step.Halted? ==> Valid() && AtRest(Value())
      ensures step.Went? ==> Drops(Value(), old(Value()))
      ensures Prompt(mqsim) && old(Punctual(Value()) && Lively(Value())) ==>
                !step.Stalled? && (step.Went? ==> Punctual(Value()) && Lively(Value()))
      ensures old(Late(mqsim, Value())) && step.Went? ==> Late(mqsim, Value())
    {
      hide Inv, Obeys, MqsimOk, Measure, AtRest, AdmittedUpTo, IsHorizon, InTurn, HaltsAt, Prompt, Punctual, Lively, Late, Stuck,
        WaitingKept, SameOrders;
      ghost var start := Value();
      var halt := Admit();
      admitted := Value();
      if halt.Some? {
        return Halted(halt.value), admitted;
      }
      PassKeepsLively(config, rows, mqsim, start, admitted);
      if Late(mqsim, start) {
        LatePass(config, rows, mqsim, start, admitted);
      }
      var h := NextHorizon();
      StuckOrLegal(config, rows, admitted, h);
      if Lively(admitted) {
        LivelyIsNotStuck(config, rows, admitted);
      }
      if h.None? || h.value < now {
        return Stalled, admitted;
      }
      Follow(h.value);
      OrdersOnward(start.records, admitted.records, records);
      if Late(mqsim, admitted) {
        LateStays(mqsim, admitted, Value());
      }
      step := Went;
    }

    /**
     Drive every request to completion.  Neither the duplicate, unknown and premature completion errors nor the
     leak check can fire.  With a gate that rejects nothing and puts nothing off past the maximal horizon, and HBF
     requests that come before it, the run completes exactly when every request fits the banks on its way.
     */
    method Run() returns (result: Outcome)
      requires Valid() && AtRest(Value()) && now == 0
      requires forall r :: 0 <= r < |records| ==> records[r].stage.ExternalWait?
      modifies this
      ensures SameOrders(old(records), records)
      ensures result.Completed? ==>
                && Valid() && AtRest(Value()) && AllComplete(Value()) && AllFit(config, records)
                && forall slot :: Fabric.Holder(fabric, slot).None?
      ensures result.Deadlocked? ==> Valid() && AtRest(Value()) && Stuck(Value())
      ensures result.Raised? ==>
                && result.halt.r < |records|
                && Explained(config, records[result.halt.r], result.halt.fault, Admitting(mqsim))
      ensures Prompt(mqsim) && AllInTime(records) ==> !result.Deadlocked?
      ensures |records| == 1 && (!InTime(records[0]) || HeldBack(mqsim, old(mq), records[0])) ==> !result.Completed?
    {
      hide Inv, Obeys, MqsimOk, Measure, AtRest, Prompt, Punctual, Lively, Late, Stuck, InTurn, HaltsAt, Fits;
      StartsLively(mqsim, Value());
      while exists r :: 0 <= r < |records| && !records[r].stage.Complete?
        invariant Valid() && AtRest(Value()) && SameOrders(old(records), records)
        invariant Prompt(mqsim) && AllInTime(old(records)) ==> Punctual(Value()) && Lively(Value())
        invariant |old(records)| == 1 && (!InTime(old(records)[0]) || HeldBack(mqsim, old(mq), old(records)[0])) ==>
                    Late(mqsim, Value())
        decreases mq.deferrals, Measure(Value())
      {
        ghost var y := Value();
        var step, admitted := Round();
        OrdersOnward(old(records), y.records, records);
        match step
        case Went =>
        case Stalled =>
          OrdersKeep(config, old(records), records);
          return Deadlocked;
        case Halted(halt) =>
          OrdersKeep(config, old(records), records);
          HaltIsExplained(config, rows, mqsim, y, halt, records);
          return Outcome.Raised(halt);
      }
      OrdersKeep(config, old(records), records);
      NothingLeaks(config, rows, Value());
      if Late(mqsim, Value()) {
        LateIsAlone(config, rows, mqsim, Value());
      }
      result := Completed;
    }
  }

  /** `f` is the fabric after reserving a bank for the arrived record `r`. */
  ghost predicate Reservable(c: Fabric.Config, y: System, r: nat, f: Fabric.State) {
    && r < |y.records| && y.records[r].stage.ExternalWait? && y.records[r].arrival <= y.now
    && |y.fabric.hbf| == |c.hbf| && |y.fabric.hbm| == |c.hbm| && Reserve(c, y, r) == FabricCalls.Reserved(f)
  }

  lemma AdmittedDrops(c: Fabric.Config, rows: seq<Hbm.Row>, y: System, r: nat, f: Fabric.State, z: System)
    requires Inv(c, rows, y) && AtRest(y) && Reservable(c, y, r, f)
    requires z.fabric == f && z.now == y.now && |z.records| == |y.records| && z.records == y.records[r := z.records[r]]
    requires z.records[r].stage.GateWait? || z.records[r].stage.BackendPending?
    ensures Measure(z) < Measure(y)
  {
    ReserveAnswers(c, rows, y, r);
    AdmissionDrops(y, r, z);
  }

  /** A reservation only fills banks, so records found waiting for one still wait. */
  lemma AdmittedAdmits(c: Fabric.Config, rows: seq<Hbm.Row>, y: System, r: nat, f: Fabric.State, z: System)
    requires Reservable(c, y, r, f) && AdmittedUpTo(y, r)
    requires z.fabric == f && z.now == y.now && |z.records| == |y.records| && z.records == y.records[r := z.records[r]]
    requires z.records[r].stage.GateWait? || z.records[r].stage.BackendPending?
    requires z.records[r].stage.GateWait? ==> y.now < z.records[r].stage.target
    ensures AdmittedUpTo(z, r + 1)
  {
    forall q | 0 <= q < r + 1 && q < |z.records| ensures StillWaits(z, z.records[q]) {
      if q < r {
        assert StillWaits(y, y.records[q]);
        var rec := y.records[q];
        if rec.stage.ExternalWait? && rec.arrival <= y.now {
          StaysFull(c, y, r, f, rec.source);
        }
      }
    }
  }

  lemma StaysFull(c: Fabric.Config, y: System, r: nat, f: Fabric.State, source: Fabric.Source)
    requires Reservable(c, y, r, f)
    requires if source.Hbf? then source.k < |y.fabric.hbf| else source.k < |y.fabric.hbm|
    requires Fabric.FreeBank(FabricCalls.BanksOf(y.fabric, source)).None?
    ensures if source.Hbf? then source.k < |f.hbf| else source.k < |f.hbm|
    ensures Fabric.FreeBank(FabricCalls.BanksOf(f, source)).None?
  {
    assert source != y.records[r].source;
  }

  lemma StageFacts(c: Fabric.Config, rows: seq<Hbm.Row>, y: System, r: nat)
    requires Inv(c, rows, y) && r < |y.records|
    ensures y.records[r].stage.ExternalWait? || y.records[r].stage.GateWait? ==> r !in y.mq.pending
    ensures AtRest(y) ==> y.fabric.now == y.now
  {
    assert RecordOk(c, y, r);
  }

  lemma WaitingAdmits(y: System, r: nat)
    requires r < |y.records| && AdmittedUpTo(y, r) && StillWaits(y, y.records[r])
    ensures AdmittedUpTo(y, r + 1)
  {
  }

  lemma FullAdmits(c: Fabric.Config, y: System, r: nat)
    requires r < |y.records| && AdmittedUpTo(y, r) && y.records[r].stage.ExternalWait?
    requires |y.fabric.hbf| == |c.hbf| && |y.fabric.hbm| == |c.hbm| && Reserve(c, y, r).Full?
    ensures AdmittedUpTo(y, r + 1)
  {
  }

  lemma RetryAdmits(y: System, r: nat, mq: Mqsim, d: Decision)
    requires r < |y.records| && AdmittedUpTo(y, r) && GateFault(d, y.now).None?
    ensures AdmittedUpTo(RetryHbf(y, r, mq, d), r + 1)
  {
    var z := RetryHbf(y, r, mq, d);
    forall q | 0 <= q < r + 1 && q < |z.records| ensures StillWaits(z, z.records[q]) {
      assert q < r ==> StillWaits(y, y.records[q]);
    }
  }

  // ---------------------------------------------------------------- the least candidate

  function Earlier(a: Option<nat>, b: Option<nat>): Option<nat> {
    if a.None? || (b.Some? && b.value < a.value) then b else a
  }

  function NextOfRecord(rec: Record, now: nat): Option<nat> {
    Earlier(if now < rec.arrival then Some(rec.arrival) else None,
            if rec.stage.GateWait? then Some(rec.stage.target) else None)
  }

  ghost predicate CandidateUpTo(y: System, n: nat, t: nat) {
    || (exists r :: 0 <= r < n <= |y.records| && RecordCandidate(y.records[r], y.now, t))
    || HbmRun.NextEnd(y.hbm.servers) == Some(t)
    || FabricAdvance.NextEvent(y.fabric) == Some(t)
  }

  ghost predicate IsLeast(h: Option<nat>, y: System, n: nat) {
    if h.None? then forall t :: !CandidateUpTo(y, n, t)
    else CandidateUpTo(y, n, h.value) && forall t :: CandidateUpTo(y, n, t) ==> h.value <= t
  }

  lemma LeastOfRecord(rec: Record, now: nat, t: nat)
    ensures var n := NextOfRecord(rec, now);
            && (n.Some? ==> RecordCandidate(rec, now, n.value))
            && (RecordCandidate(rec, now, t) ==> n.Some? && n.value <= t)
  {
  }

  lemma LeastGrows(h: Option<nat>, y: System, r: nat)
    requires r < |y.records| && IsLeast(h, y, r)
    ensures IsLeast(Earlier(h, NextOfRecord(y.records[r], y.now)), y, r + 1)
  {
    hide NextOfRecord, RecordCandidate;
    var rec := y.records[r];
    var next := Earlier(h, NextOfRecord(rec, y.now));
    LeastOfRecord(rec, y.now, 0);
    var n := r + 1;
    forall t | CandidateUpTo(y, n, t) ensures next.Some? && next.value <= t {
      LeastOfRecord(rec, y.now, t);
      assert CandidateUpTo(y, r, t) || RecordCandidate(rec, y.now, t);
    }
    if next == h && h.Some? {
      assert CandidateUpTo(y, r, h.value);
    }
  }

  lemma LeastIsHorizon(h: Option<nat>, y: System)
    requires IsLeast(h, y, |y.records|)
    ensures IsHorizon(y, if h.None? && y.mq.pending != map[] then Some(MAX_HORIZON_NS) else h)
  {
    forall t ensures CandidateUpTo(y, |y.records|, t) <==> Candidate(y, t) {
    }
  }

  // ---------------------------------------------------------------- what a round does

  /** The data of some job became ready at time `t`. */
  ghost predicate SomeReady(s: Fabric.State, t: nat) {
    exists i :: 0 <= i < |s.jobs| && s.jobs[i].ready == Some(t)
  }

  lemma ReadyStays(s: Fabric.State, r: Fabric.State, t: nat)
    requires MarkedAt(s, r, t)
    ensures SomeReady(s, t) ==> SomeReady(r, t)
  {
    if SomeReady(s, t) {
      var i :| 0 <= i < |s.jobs| && s.jobs[i].ready == Some(t);
      assert JobMarked(s.jobs[i], r.jobs[i], t);
    }
  }

  lemma MarkedClock(s: Fabric.State, r: Fabric.State, t: nat)
    requires MarkedAt(s, r, t)
    ensures r.now == s.now && r.completions == s.completions
  {
  }

  lemma StuckOrLegal(c: Fabric.Config, rows: seq<Hbm.Row>, y: System, h: Option<nat>)
    requires Inv(c, rows, y) && AtRest(y) && AdmittedUpTo(y, |y.records|) && !AllComplete(y) && IsHorizon(y, h)
    ensures h.Some? && (h.value < y.now <==> Stuck(y))
  {
    HorizonIsLegal(c, rows, y, h);
  }

  lemma NothingEndsBefore(c: Fabric.Config, rows: seq<Hbm.Row>, y: System, h: nat, m: Mqsim, done: Option<nat>)
    requires Inv(c, rows, y) && IsHorizon(y, Some(h)) && UntilContract(y.mq, h, m, done)
    ensures HbmRun.NothingBefore(y.hbm, m.now)
  {
    hide Inv;
    if Candidate(y, h) {
      HorizonIsFirst(c, rows, y, h);
    } else {
      assert HbmRun.NextEnd(y.hbm.servers).None? by {
        var e := HbmRun.NextEnd(y.hbm.servers);
        assert e.Some? ==> Candidate(y, e.value);
      }
    }
  }

  lemma OrdersOnward(a: seq<Record>, b: seq<Record>, d: seq<Record>)
    requires SameOrders(a, b) && SameOrders(b, d)
    ensures SameOrders(a, d)
  {
    forall r | 0 <= r < |a| ensures SameOrder(a[r], d[r]) {
      assert SameOrder(a[r], b[r]) && SameOrder(b[r], d[r]);
    }
  }

  lemma OrdersKeep(c: Fabric.Config, a: seq<Record>, b: seq<Record>)
    requires SameOrders(a, b)
    ensures AllInTime(a) <==> AllInTime(b)
    ensures |a| == 1 ==> (InTime(a[0]) <==> InTime(b[0])) && a[0].source == b[0].source
  {
    forall r | 0 <= r < |a| ensures InTime(a[r]) <==> InTime(b[r]) {
      assert SameOrder(a[r], b[r]);
    }
  }

  /** The gate will put this request off past the maximal horizon. */
  ghost predicate HeldBack(d: Device, m: Mqsim, rec: Record) {
    Holds(d) && m.deferrals > 0 && rec.source.Hbf?
  }

  lemma StartsLively(d: Device, y: System)
    requires y.now == 0 && forall r :: 0 <= r < |y.records| ==> y.records[r].stage.ExternalWait?
    ensures Lively(y) && (AllInTime(y.records) ==> Punctual(y))
    ensures |y.records| == 1 && (!InTime(y.records[0]) || HeldBack(d, y.mq, y.records[0])) ==> Late(d, y)
  {
  }

  lemma LateStays(d: Device, y: System, z: System)
    requires Late(d, y) && WaitingKept(y.records, z.records) && z.mq.deferrals == y.mq.deferrals
    ensures Late(d, z)
  {
  }

  lemma WaitingOnward(a: seq<Record>, b: seq<Record>, d: seq<Record>)
    requires WaitingKept(a, b) && WaitingKept(b, d)
    ensures WaitingKept(a, d)
  {
  }

  /** The system at rest after a round, seen from the admitted system `y` it started from. */
  ghost predicate Rounded(c: Fabric.Config, rows: seq<Hbm.Row>, y: System, h: nat, done: Option<nat>, f: Fabric.State, z: System) {
    && Inv(c, rows, y) && AtRest(y) && AdmittedUpTo(y, |y.records|) && IsHorizon(y, Some(h)) && UntilContract(y.mq, h, z.mq, done)
    && MarkedAt(y.fabric, f, z.now) && (done.Some? ==> SomeReady(f, z.now)) && y.now <= z.now
    && FabricCalls.Stable(c, f) && z.fabric == FabricAdvance.Advance(c, f, z.now)
    && Inv(c, rows, z) && AtRest(z) && SameOrders(y.records, z.records) && WaitingKept(y.records, z.records)
  }

  lemma ResumesFrom(c: Fabric.Config, rows: seq<Hbm.Row>, y: System, h: nat, m: Mqsim, done: Option<nat>, moved: System)
    requires AtRest(y) && UntilContract(y.mq, h, m, done) && Inv(c, rows, moved)
    ensures y.now <= m.now && FabricCalls.Stable(c, moved.fabric)
  {
  }

  lemma RoundedIsPunctual(c: Fabric.Config, rows: seq<Hbm.Row>, y: System, h: nat, done: Option<nat>, f: Fabric.State, z: System)
    requires Rounded(c, rows, y, h, done, f, z) && Punctual(y)
    ensures Punctual(z)
  {
    hide Inv, AtRest, AdmittedUpTo, IsHorizon, MarkedAt, FabricCalls.Stable, FabricAdvance.Advance;
    forall r | 0 <= r < |z.records|
      ensures InTime(z.records[r]) && (z.records[r].stage.GateWait? ==> z.records[r].stage.target <= MAX_HORIZON_NS)
    {
      assert SameOrder(y.records[r], z.records[r]) && InTime(y.records[r]);
    }
  }

  /** A round past the maximal horizon leaves something stirring, or no HBF request unfinished. */
  lemma RoundedIsLively(c: Fabric.Config, rows: seq<Hbm.Row>, y: System, h: nat, done: Option<nat>, f: Fabric.State, z: System)
    requires Rounded(c, rows, y, h, done, f, z) && Punctual(y)
    ensures Lively(z)
  {
    hide Inv, AdmittedUpTo, IsHorizon, MarkedAt, FabricHistory.Good, FabricAdvance.Advance, Punctual, Stirs, HbfComplete,
      SameOrders, Candidate, FabricRun.Settled, FabricCalls.UniqueIds, HbmRun.NothingBefore, FabricAdvance.NothingBefore;
    if MAX_HORIZON_NS < z.now {
      if done.Some? {
        var i :| 0 <= i < |f.jobs| && f.jobs[i].ready == Some(z.now);
        ClocksOf(y, f, z.now);
        FabricCalls.AdvanceIsStable(c, f, z.now);
        assert FabricHistory.SameRequest(f.jobs[i], z.fabric.jobs[i]);
        DeliveredStirs(c, rows, z, i);
      } else {
        UntilOrCandidate(y, h, z.mq, done);
        assert PassedTo(c, rows, y, f, z, h);
        PassedIsLively(c, rows, y, f, z, h);
      }
    }
  }

  lemma ShapeFacts(c: Fabric.Config, rows: seq<Hbm.Row>, y: System)
    requires Inv(c, rows, y)
    ensures |y.fabric.hbf| == |c.hbf| && |y.fabric.hbm| == |c.hbm|
  {
  }

  lemma DeliverFacts(c: Fabric.Config, rows: seq<Hbm.Row>, y: System, r: nat, time: nat)
    requires Inv(c, rows, y) && r < |y.records| && y.records[r].stage.BackendPending? && y.fabric.now <= time
    ensures y.records[r].job.Some? && y.records[r].job.value < |y.fabric.jobs|
    ensures FabricCalls.MarkSourceReady(y.fabric, r, time) == Some(Deliver(y, r, time).fabric)
    ensures Measure(Deliver(y, r, time)) < Measure(y) && MarkedAt(y.fabric, Deliver(y, r, time).fabric, time)
    ensures SomeReady(Deliver(y, r, time).fabric, time)
    ensures forall t: nat :: DueBy(y.fabric, t) ==> DueBy(Deliver(y, r, time).fabric, t)
  {
    hide FabricCalls.Stable, HbmRun.Valid, Measure, DueBy;
    MarkAnswers(c, rows, y, r, time);
    assert RecordOk(c, y, r);
    DeliverDrops(y, r, time);
    forall t: nat | DueBy(y.fabric, t) ensures DueBy(Deliver(y, r, time).fabric, t) {
      MarkKeepsDue(y.fabric, y.records[r].job.value, time, t);
    }
  }

  lemma MeasureIgnores(y: System, z: System)
    requires y.now == z.now && y.records == z.records && y.fabric == z.fabric
    ensures Measure(y) == Measure(z)
  {
  }

  /** The backends have reached the new time and delivered; the fabric is still at the old one. */
  ghost predicate BackendsMoved(y: System) {
    && y.fabric.now <= y.hbm.now == y.mq.now == y.now
    && y.taken == |y.hbm.log| && y.seen == |y.fabric.completions| && HbmRun.NothingBefore(y.hbm, y.now + 1)
  }

  lemma DueNow(s: Fabric.State, h: nat)
    ensures FabricAdvance.NextEvent(s) == Some(h) ==> DueBy(s, h)
  {
  }

  /** Reaching a candidate ends a wait, completes a request at a server, or makes a fabric event due. */
  lemma MoveDropsEnough(c: Fabric.Config, rows: seq<Hbm.Row>, y: System, t: nat)
    requires Inv(c, rows, y) && AtRest(y) && AdmittedUpTo(y, |y.records|) && y.now <= t
    ensures Measure(MoveBackends(rows, y, t)) <= Measure(y)
    ensures Candidate(y, t) && y.now < t ==>
              || Measure(MoveBackends(rows, y, t)) < Measure(y)
              || |MoveBackends(rows, y, t).hbm.log| > |y.hbm.log|
              || FabricAdvance.NextEvent(y.fabric) == Some(t)
  {
    hide FabricCalls.Stable, HbmRun.Valid, Measure, AdmittedUpTo;
    forall r | 0 <= r < |y.records| && y.now < y.records[r].arrival ensures y.records[r].stage.ExternalWait? {
      assert RecordOk(c, y, r);
    }
    assert ArrivalsWait(y);
    MoveDrops(rows, y, t);
    if HbmRun.NextEnd(y.hbm.servers) == Some(t) {
      HbmRun.AdvanceReportsDue(rows, y.hbm, t);
    }
  }

  lemma ClocksAgree(y: System)
    requires AtRest(y)
    ensures y.mq.now == y.fabric.now == y.hbm.now == y.now
  {
  }

  lemma Answered(d: Device, m: Mqsim, h: nat)
    requires Obeys(d) && MqsimOk(m) && m.now <= h
    ensures UntilContract(m, h, d.until(m, h).0, d.until(m, h).1)
  {
  }

  /** Without a candidate the horizon is maximal, and MQSim completes a command before it. */
  lemma UntilOrCandidate(y: System, h: nat, m: Mqsim, done: Option<nat>)
    requires IsHorizon(y, Some(h)) && UntilContract(y.mq, h, m, done) && done.None?
    ensures Candidate(y, h)
  {
  }

  /** When every record is complete, every job is done and no bank or link is held. */
  lemma NothingLeaks(c: Fabric.Config, rows: seq<Hbm.Row>, y: System)
    requires Inv(c, rows, y) && AllComplete(y)
    ensures forall slot :: Fabric.Holder(y.fabric, slot).None?
    ensures AllFit(c, y.records)
  {
    forall r | 0 <= r < |y.records| ensures Fits(c, y.records[r]) {
      assert RecordOk(c, y, r);
    }
    forall i | 0 <= i < |y.fabric.jobs| ensures y.fabric.jobs[i].state.Done? {
      assert JobKnown(y, i);
      assert RecordOk(c, y, y.fabric.jobs[i].id);
      var p :| 0 <= p < y.seen <= |y.fabric.completions| && y.fabric.completions[p].job == i;
      assert FabricHistory.CompletionOk(c, y.fabric, y.fabric.completions[p]);
    }
    forall slot ensures Fabric.Holder(y.fabric, slot).None? {
      FabricTheorems.AllDoneFreesEverything(c, y.fabric, slot);
    }
  }
}

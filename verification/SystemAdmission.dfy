/** Admission: reserving banks, submitting to the backends, and what is left waiting. */
module SystemAdmission {
  import opened Wrappers
  import opened SystemModel
  import Fabric
  import FabricHistory
  import FabricAdvance
  import FabricCalls
  import Hbm
  import HbmRun

  // ---------------------------------------------------------------- MQSim's side of a submission

  /** Commands reach the backend, and complete, by the maximal horizon if there is still time. */
  function Horizon(m: Mqsim): nat {
    if m.now < MAX_HORIZON_NS then MAX_HORIZON_NS else m.now
  }

  ghost predicate MqsimOk(m: Mqsim) {
    forall r :: r in m.pending ==> m.pending[r] <= Horizon(m)
  }

  datatype Decision = Accepted(backendArrival: nat) | Deferred(target: nat) | Blocked

  /** A submission is accepted, put off, or rejected by the gate; it is put off only finitely often. */
  ghost predicate TryContract(m: Mqsim, r: nat, after: Mqsim, d: Decision) {
    && after.now == m.now
    && match d
       case Accepted(at) => m.now <= at <= Horizon(m) && after.pending == m.pending[r := at] && after.deferrals == m.deferrals
       case Deferred(_) => after.pending == m.pending && after.deferrals + 1 == m.deferrals
       case Blocked => after.pending == m.pending && after.deferrals == m.deferrals
  }

  function StageOf(d: Decision): Stage
    requires !d.Blocked?
  {
    match d
    case Accepted(at) => BackendPending(at)
    case Deferred(target) => GateWait(target)
  }

  // ---------------------------------------------------------------- one record

  function AdmitHbf(y: System, r: nat, fabric: Fabric.State, mq: Mqsim, d: Decision): System
    requires r < |y.records| && !d.Blocked?
  {
    Admitted(y, r, fabric, StageOf(d)).(mq := mq)
  }

  /** A record that has just been given a bank agrees with the fabric and with its backend. */
  lemma AdmittedRecord(c: Fabric.Config, y: System, r: nat, z: System)
    requires r < |y.records| && RecordOk(c, y, r) && y.records[r].stage.ExternalWait? && Fits(c, y.records[r])
    requires |z.records| == |y.records| && z.records[r] == y.records[r].(job := Some(|y.fabric.jobs|), stage := z.records[r].stage)
    requires |z.fabric.jobs| == |y.fabric.jobs| + 1 && z.fabric.jobs[|y.fabric.jobs|].state.BackendReserved?
    requires JobMatches(z.fabric.jobs[|y.fabric.jobs|], y.records[r], r) && y.records[r].arrival <= z.fabric.now
    requires z.hbm.log == y.hbm.log && z.taken == y.taken
    requires z.records[r].stage.GateWait? || z.records[r].stage.BackendPending?
    requires z.records[r].stage.GateWait? ==> y.records[r].source.Hbf?
    requires z.records[r].stage.BackendPending? ==> y.records[r].arrival <= z.records[r].stage.submit
    requires z.records[r].stage.BackendPending? && y.records[r].source.Hbm? ==> z.records[r].stage.submit <= z.fabric.now
    requires r in z.mq.pending <==> y.records[r].source.Hbf? && z.records[r].stage.BackendPending?
    requires r in z.mq.pending ==> z.mq.pending[r] == z.records[r].stage.submit
    requires r in z.hbm.requests <==> y.records[r].source.Hbm?
    requires r in z.hbm.requests ==> ServerKnows(z.hbm, r, z.records[r])
    ensures RecordOk(c, z, r)
  {
    assert Taken(z, r) <==> Taken(y, r);
  }

  lemma AdmitHbfIsOk(c: Fabric.Config, rows: seq<Hbm.Row>, y: System, r: nat, mq: Mqsim, d: Decision)
    requires Inv(c, rows, y) && AtRest(y) && r < |y.records| && y.records[r].stage.ExternalWait?
    requires y.records[r].source.Hbf? && y.records[r].arrival <= y.now
    requires |y.fabric.hbf| == |c.hbf| && |y.fabric.hbm| == |c.hbm| && Reserve(c, y, r).Reserved?
    requires TryContract(y.mq, r, mq, d) && !d.Blocked?
    ensures var z := AdmitHbf(y, r, Reserve(c, y, r).state, mq, d);
            Inv(c, rows, z) && AtRest(z)
  {
    hide FabricCalls.ReserveSource;
    ReserveAnswers(c, rows, y, r);
    var rec := y.records[r];
    var z := AdmitHbf(y, r, Reserve(c, y, r).state, mq, d);
    FabricCalls.ReserveIsStable(c, y.fabric, r, rec.source, rec.route, rec.bytes, rec.arrival);
    assert RecordOk(c, y, r);
    AdmittedRecord(c, y, r, z);
    ReservedLinks(c, rows, y, r, z, StageOf(d));
    ReserveLeavesNothingDue(y.fabric, z.fabric, y.now + 1);
  }

  lemma ReserveLeavesNothingDue(s: Fabric.State, f: Fabric.State, t: nat)
    requires FabricAdvance.NothingBefore(s, t) && |f.jobs| == |s.jobs| + 1 && f.jobs[..|s.jobs|] == s.jobs
    requires f.jobs[|s.jobs|].state.BackendReserved?
    ensures FabricAdvance.NothingBefore(f, t)
  {
    forall i | 0 <= i < |f.jobs| && Fabric.DueTime(f.jobs[i]).Some? ensures t <= Fabric.DueTime(f.jobs[i]).value {
      assert i < |s.jobs| ==> f.jobs[i] == f.jobs[..|s.jobs|][i];
    }
  }

  function HbmAfter(rows: seq<Hbm.Row>, y: System, r: nat): Option<Hbm.State>
    requires r < |y.records| && HbmRun.Valid(rows, y.hbm) && y.records[r].source.Hbm?
  {
    var rec := y.records[r];
    var arrived := HbmRun.Arrival(rows, y.hbm, r, rec.source.k, rec.op, rec.bytes, y.now);
    if arrived.None? then None
    else
      HbmRun.ArrivalIsValid(rows, HbmRun.Advance(rows, y.hbm, y.now), r,
                            Hbm.Request(rec.source.k, rec.op, rec.bytes, y.now, false));
      HbmRun.SubmitCall(rows, arrived.value, r, y.now)
  }

  lemma HbmStays(rows: seq<Hbm.Row>, s: Hbm.State)
    requires HbmRun.Valid(rows, s) && HbmRun.NothingBefore(s, s.now + 1)
    ensures HbmRun.Advance(rows, s, s.now) == s
  {
    HbmRun.NextIsDue(rows, s);
    if HbmRun.NextEnd(s.servers).Some? {
      var k :| 0 <= k < |s.servers| && HbmRun.ActiveEnd(s.servers[k]) == HbmRun.NextEnd(s.servers);
    }
    assert s.(now := s.now) == s;
  }

  /** Arrival and submission at the current time are accepted and change nothing but this request and its server. */
  lemma HbmAccepts(rows: seq<Hbm.Row>, y: System, r: nat)
    requires r < |y.records| && HbmRun.Valid(rows, y.hbm) && HbmRun.NothingBefore(y.hbm, y.now + 1) && y.hbm.now == y.now
    requires y.records[r].source.Hbm? && y.records[r].source.k < |rows| && r !in y.hbm.requests
    ensures HbmAfter(rows, y, r).Some?
    ensures var h := HbmAfter(rows, y, r).value;
            && HbmRun.Valid(rows, h) && HbmRun.NothingBefore(h, y.now + 1) && h.now == y.now && h.log == y.hbm.log
            && ServerKnows(h, r, y.records[r].(stage := BackendPending(y.now)))
            && (forall q, t :: q != r && QueuedAt(y.hbm, q, t) ==> QueuedAt(h, q, t))
            && (forall q :: q != r ==> (q in h.requests <==> q in y.hbm.requests))
            && (forall q :: q != r && q in y.hbm.requests ==> q in h.requests && h.requests[q] == y.hbm.requests[q])
  {
    var rec := y.records[r];
    var request := Hbm.Request(rec.source.k, rec.op, rec.bytes, y.now, false);
    HbmStays(rows, y.hbm);
    var a := y.hbm.(requests := y.hbm.requests[r := request]);
    HbmRun.ArrivalIsValid(rows, y.hbm, r, request);
    HbmStays(rows, a);
    HbmRun.JoinIsValid(rows, a, r);
    assert HbmAfter(rows, y, r) == Some(HbmRun.Join(rows, a, r));
    JoinLeavesNothingDue(rows, a, r);
    JoinQueues(rows, a, r);
    forall q, t | q != r && QueuedAt(y.hbm, q, t) ensures QueuedAt(a, q, t) {
    }
  }

  /** A request that joins is queued now, and those before it stay where they are. */
  lemma JoinQueues(rows: seq<Hbm.Row>, s: Hbm.State, r: nat)
    requires r in s.requests && s.requests[r].stack < |s.servers| <= |rows|
    ensures QueuedAt(HbmRun.Join(rows, s, r), r, Some(s.now))
    ensures forall q, t :: QueuedAt(s, q, t) ==> QueuedAt(HbmRun.Join(rows, s, r), q, t)
  {
    var k, h := s.requests[r].stack, HbmRun.Join(rows, s, r);
    var n := |s.servers[k].history|;
    assert h.servers[k].history[n].id == r && h.servers[k].history[n].submit == s.now;
    forall q, t | QueuedAt(s, q, t) ensures QueuedAt(h, q, t) {
      var m := s.requests[q].stack;
      var i :| 0 <= i < |s.servers[m].history| && s.servers[m].history[i].id == q && Some(s.servers[m].history[i].submit) == t;
      assert h.servers[m].history[i].id == q && h.servers[m].history[i].submit == s.servers[m].history[i].submit;
    }
  }

  lemma JoinLeavesNothingDue(rows: seq<Hbm.Row>, s: Hbm.State, r: nat)
    requires r in s.requests && s.requests[r].stack < |s.servers| <= |rows| && HbmRun.NothingBefore(s, s.now + 1)
    ensures HbmRun.NothingBefore(HbmRun.Join(rows, s, r), s.now + 1)
  {
    var k, h := s.requests[r].stack, HbmRun.Join(rows, s, r);
    forall m | 0 <= m < |h.servers| && HbmRun.ActiveEnd(h.servers[m]).Some?
      ensures s.now + 1 <= HbmRun.ActiveEnd(h.servers[m]).value
    {
      if m != k {
        assert HbmRun.ActiveEnd(h.servers[m]) == HbmRun.ActiveEnd(s.servers[m]);
      } else if s.servers[k].busy {
        assert HbmRun.ActiveEnd(s.servers[k]).Some? ==> HbmRun.ActiveEnd(h.servers[k]) == HbmRun.ActiveEnd(s.servers[k]);
      }
    }
  }

  function AdmitHbm(y: System, r: nat, fabric: Fabric.State, hbm: Hbm.State): System
    requires r < |y.records|
  {
    Admitted(y, r, fabric, BackendPending(y.now)).(hbm := hbm)
  }

  lemma AdmitHbmIsOk(c: Fabric.Config, rows: seq<Hbm.Row>, y: System, r: nat)
    requires Inv(c, rows, y) && AtRest(y) && r < |y.records| && y.records[r].stage.ExternalWait?
    requires y.records[r].source.Hbm? && y.records[r].arrival <= y.now
    requires |y.fabric.hbf| == |c.hbf| && |y.fabric.hbm| == |c.hbm| && Reserve(c, y, r).Reserved?
    ensures HbmAfter(rows, y, r).Some?
    ensures var z := AdmitHbm(y, r, Reserve(c, y, r).state, HbmAfter(rows, y, r).value);
            Inv(c, rows, z) && AtRest(z)
  {
    hide FabricCalls.ReserveSource, HbmAfter, HbmRun.Valid, HbmRun.NothingBefore;
    ReserveAnswers(c, rows, y, r);
    var rec := y.records[r];
    assert RecordOk(c, y, r);
    HbmAccepts(rows, y, r);
    var z := AdmitHbm(y, r, Reserve(c, y, r).state, HbmAfter(rows, y, r).value);
    FabricCalls.ReserveIsStable(c, y.fabric, r, rec.source, rec.route, rec.bytes, rec.arrival);
    AdmittedRecord(c, y, r, z);
    ReservedLinks(c, rows, y, r, z, BackendPending(y.now));
    ReserveLeavesNothingDue(y.fabric, z.fabric, y.now + 1);
  }

  function RetryHbf(y: System, r: nat, mq: Mqsim, d: Decision): System
    requires r < |y.records| && !d.Blocked?
  {
    y.(mq := mq, records := y.records[r := y.records[r].(stage := StageOf(d))])
  }

  lemma RetryHbfIsOk(c: Fabric.Config, rows: seq<Hbm.Row>, y: System, r: nat, mq: Mqsim, d: Decision)
    requires Inv(c, rows, y) && AtRest(y) && r < |y.records| && y.records[r].stage.GateWait? && TryContract(y.mq, r, mq, d)
    requires !d.Blocked?
    ensures Inv(c, rows, RetryHbf(y, r, mq, d)) && AtRest(RetryHbf(y, r, mq, d))
  {
    hide FabricCalls.Stable, HbmRun.Valid;
    var z := RetryHbf(y, r, mq, d);
    assert RecordOk(c, y, r);
    assert forall q :: Taken(z, q) <==> Taken(y, q);
    assert forall j :: Seen(z, j) <==> Seen(y, j);
    forall q | 0 <= q < |z.records| ensures RecordOk(c, z, q) {
      if q != r {
        assert RecordOk(c, y, q);
        assert Untouched(y, z, q);
        UntouchedIsOk(c, y, z, q);
      }
    }
    forall i | 0 <= i < |z.fabric.jobs| ensures JobKnown(z, i) {
      assert JobKnown(y, i);
    }
  }
}

/** The next horizon, and why there always is one. */
module SystemHorizon {
  import opened Wrappers
  import opened SystemModel
  import Fabric
  import FabricHistory
  import FabricAdvance
  import FabricCalls
  import FabricTheorems
  import Hbm
  import HbmRun

  /** After admission a record still waits only for the future or for a bank that another request holds. */
  ghost predicate StillWaits(y: System, rec: Record) {
    match rec.stage
    case ExternalWait =>
      rec.arrival <= y.now ==>
        && (if rec.source.Hbf? then rec.source.k < |y.fabric.hbf| else rec.source.k < |y.fabric.hbm|)
        && Fabric.FreeBank(FabricCalls.BanksOf(y.fabric, rec.source)).None?
    case GateWait(target) => y.now < target
    case _ => true
  }

  ghost predicate AdmittedUpTo(y: System, n: nat) {
    forall r :: 0 <= r < n && r < |y.records| ==> StillWaits(y, y.records[r])
  }

  ghost predicate AllComplete(y: System) {
    forall r :: 0 <= r < |y.records| ==> y.records[r].stage.Complete?
  }

  // ---------------------------------------------------------------- candidates

  predicate RecordCandidate(rec: Record, now: nat, t: nat) {
    (now < rec.arrival == t) || (rec.stage.GateWait? && rec.stage.target == t)
  }

  ghost predicate Candidate(y: System, t: nat) {
    || (exists r :: 0 <= r < |y.records| && RecordCandidate(y.records[r], y.now, t))
    || HbmRun.NextEnd(y.hbm.servers) == Some(t)
    || FabricAdvance.NextEvent(y.fabric) == Some(t)
  }

  ghost predicate NoCandidate(y: System) {
    forall t :: !Candidate(y, t)
  }

  /** The earliest known event; failing that, the maximal horizon while MQSim owes a completion. */
  ghost predicate IsHorizon(y: System, h: Option<nat>) {
    if NoCandidate(y) then h == (if y.mq.pending != map[] then Some(MAX_HORIZON_NS) else None)
    else h.Some? && Candidate(y, h.value) && forall t :: Candidate(y, t) ==> h.value <= t
  }

  lemma CandidatesAreLater(y: System, t: nat)
    requires AtRest(y) && AdmittedUpTo(y, |y.records|) && Candidate(y, t)
    ensures y.now < t
  {
    if r :| 0 <= r < |y.records| && RecordCandidate(y.records[r], y.now, t) {
      assert StillWaits(y, y.records[r]);
    } else if HbmRun.NextEnd(y.hbm.servers) == Some(t) {
      var k :| 0 <= k < |y.hbm.servers| && HbmRun.ActiveEnd(y.hbm.servers[k]) == Some(t);
    } else {
      var i :| 0 <= i < |y.fabric.jobs| && Fabric.DueTime(y.fabric.jobs[i]) == Some(t);
    }
  }

  // ---------------------------------------------------------------- a system with no candidate

  /** When all servers are idle, every submitted request has been reported. */
  lemma IdleServersReported(rows: seq<Hbm.Row>, s: Hbm.State, r: nat)
    requires HbmRun.Valid(rows, s) && HbmRun.NextEnd(s.servers).None? && r in s.requests && s.requests[r].submitted
    ensures exists p :: 0 <= p < |s.log| && s.log[p].id == r
  {
    var k := s.requests[r].stack;
    var v := s.servers[k];
    assert HbmRun.InHistory(v, r);
    var i :| 0 <= i < |v.history| && v.history[i].id == r;
    assert Hbm.ServerOk(s.now, v) && HbmRun.ActiveEnd(v).None?;
    assert HbmRun.Reported(s.log, k, i);
    var p :| 0 <= p < |s.log| && s.log[p].stack == k && s.log[p].index == i;
    assert HbmRun.ReportOk(s.servers, s.log[p]);
  }

  lemma AreCandidates(y: System, r: nat)
    requires r < |y.records|
    ensures y.records[r].stage.GateWait? ==> Candidate(y, y.records[r].stage.target)
    ensures y.now < y.records[r].arrival ==> Candidate(y, y.records[r].arrival)
    ensures HbmRun.NextEnd(y.hbm.servers).Some? ==> Candidate(y, HbmRun.NextEnd(y.hbm.servers).value)
    ensures FabricAdvance.NextEvent(y.fabric).Some? ==> Candidate(y, FabricAdvance.NextEvent(y.fabric).value)
  {
    var rec := y.records[r];
    assert rec.stage.GateWait? ==> RecordCandidate(rec, y.now, rec.stage.target);
    assert y.now < rec.arrival ==> RecordCandidate(rec, y.now, rec.arrival);
  }

  /** Without candidates and without commands at MQSim, no backend owes anything. */
  lemma NothingOutstanding(c: Fabric.Config, rows: seq<Hbm.Row>, y: System, r: nat)
    requires Inv(c, rows, y) && AtRest(y) && NoCandidate(y) && y.mq.pending == map[] && r < |y.records|
    ensures !y.records[r].stage.GateWait? && !y.records[r].stage.BackendPending? && y.records[r].arrival <= y.now
  {
    hide FabricCalls.Stable, HbmRun.Valid;
    var rec := y.records[r];
    assert RecordOk(c, y, r);
    AreCandidates(y, r);
    if rec.stage.BackendPending? {
      IdleServersReported(rows, y.hbm, r);
    }
  }

  lemma NoCandidateMeansDone(c: Fabric.Config, rows: seq<Hbm.Row>, y: System)
    requires Inv(c, rows, y) && AtRest(y) && NoCandidate(y) && y.mq.pending == map[]
    ensures FabricTheorems.AllDone(y.fabric)
  {
    hide FabricCalls.Stable, HbmRun.Valid;
    forall i | 0 <= i < |y.fabric.jobs| ensures !y.fabric.jobs[i].state.BackendReserved? {
      assert JobKnown(y, i);
      assert RecordOk(c, y, y.fabric.jobs[i].id);
      NothingOutstanding(c, rows, y, y.fabric.jobs[i].id);
    }
    assert FabricAdvance.NextEvent(y.fabric).None? by {
      var t := FabricAdvance.NextEvent(y.fabric);
      assert t.Some? ==> Candidate(y, t.value);
    }
    FabricTheorems.DeadlockFree(c, y.fabric);
  }

  lemma DoneIsComplete(c: Fabric.Config, rows: seq<Hbm.Row>, y: System, r: nat)
    requires Inv(c, rows, y) && AtRest(y) && NoCandidate(y) && y.mq.pending == map[] && AdmittedUpTo(y, |y.records|)
    requires FabricTheorems.AllDone(y.fabric) && r < |y.records|
    ensures y.records[r].stage.Complete?
  {
    var rec := y.records[r];
    NothingOutstanding(c, rows, y, r);
    assert RecordOk(c, y, r) && StillWaits(y, rec);
    if rec.stage.ExternalWait? {
      AllBanksFree(c, y.fabric, rec.source);
    }
  }

  lemma AllBanksFree(c: Fabric.Config, s: Fabric.State, source: Fabric.Source)
    requires Fabric.Owned(c, s) && FabricTheorems.AllDone(s)
    requires if source.Hbf? then source.k < |s.hbf| else source.k < |s.hbm|
    ensures Fabric.FreeBank(FabricCalls.BanksOf(s, source)).Some?
  {
    FabricTheorems.AllDoneFreesEverything(c, s, if source.Hbf? then Fabric.HbfBank(source.k, 0) else Fabric.HbmBank(source.k, 0));
  }

  /**
   While a record is unfinished the horizon exists and lies in the future; the one exception is
   a system past the maximal horizon that has nothing left to wait for but MQSim.
   */
  lemma HorizonIsLegal(c: Fabric.Config, rows: seq<Hbm.Row>, y: System, h: Option<nat>)
    requires Inv(c, rows, y) && AtRest(y) && AdmittedUpTo(y, |y.records|) && !AllComplete(y) && IsHorizon(y, h)
    ensures h.Some?
    ensures h.value < y.now <==> NoCandidate(y) && MAX_HORIZON_NS < y.now
    ensures !NoCandidate(y) ==> y.now < h.value
    ensures NoCandidate(y) ==> y.mq.pending != map[] && h.value == MAX_HORIZON_NS
  {
    hide Inv, AtRest;
    if NoCandidate(y) && y.mq.pending == map[] {
      NoCandidateMeansDone(c, rows, y);
      var r :| 0 <= r < |y.records| && !y.records[r].stage.Complete?;
      DoneIsComplete(c, rows, y, r);
    }
    if !NoCandidate(y) {
      CandidatesAreLater(y, h.value);
    }
  }
}

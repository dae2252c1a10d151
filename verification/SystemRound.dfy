/** One round after admission: MQSim moves, the servers and the fabric follow, completions are accepted. */
module SystemRound {
  import opened Wrappers
  import opened SystemModel
  import Fabric
  import FabricHistory
  import FabricAdvance
  import FabricCalls
  import FabricProgress
  import Hbm
  import HbmRun

  /**
   `until(h)` returns one completion at its new time, at most `h`, of a command that had reached
   the backend by then; or it moves to `h`.  Every accepted command completes before the maximal horizon.
   */
  ghost predicate UntilContract(m: Mqsim, h: nat, after: Mqsim, done: Option<nat>) {
    && m.now <= after.now <= h && after.deferrals == m.deferrals
    && match done
       case None => after.now == h && after.pending == m.pending && (m.pending != map[] ==> h < MAX_HORIZON_NS)
       case Some(r) => r in m.pending && m.pending[r] <= after.now && after.pending == m.pending - {r}
  }

  // ---------------------------------------------------------------- the backends move

  function MoveBackends(rows: seq<Hbm.Row>, y: System, t: nat): System
    requires HbmRun.Valid(rows, y.hbm) && y.hbm.now <= t
  {
    y.(now := t, hbm := HbmRun.Advance(rows, y.hbm, t))
  }

  lemma TakenPrefix(y: System, z: System, r: nat)
    requires y.taken == z.taken && y.hbm.log <= z.hbm.log && y.taken <= |y.hbm.log|
    ensures Taken(z, r) <==> Taken(y, r)
  {
    assert forall p :: 0 <= p < |y.hbm.log| ==> z.hbm.log[p] == y.hbm.log[p];
  }

  lemma QueuesKept(a: Hbm.State, b: Hbm.State, r: nat, t: Option<nat>)
    requires b.requests == a.requests && HbmRun.SameHistories(a.servers, b.servers) && QueuedAt(a, r, t)
    ensures QueuedAt(b, r, t)
  {
    var k := a.requests[r].stack;
    var i :| 0 <= i < |a.servers[k].history| && a.servers[k].history[i].id == r && Some(a.servers[k].history[i].submit) == t;
    assert HbmRun.SameEntries(a.servers[k], b.servers[k]);
    assert HbmRun.SameEntry(a.servers[k].history[i], b.servers[k].history[i]);
  }

  lemma SeenPrefix(y: System, z: System, j: nat)
    requires y.seen == z.seen && y.fabric.completions <= z.fabric.completions && y.seen <= |y.fabric.completions|
    ensures Seen(z, j) <==> Seen(y, j)
  {
    assert forall p :: 0 <= p < |y.fabric.completions| ==> z.fabric.completions[p] == y.fabric.completions[p];
  }

  lemma MoveIsOk(c: Fabric.Config, rows: seq<Hbm.Row>, y: System, t: nat)
    requires Inv(c, rows, y) && y.hbm.now <= t && y.fabric.now <= t
    ensures Inv(c, rows, MoveBackends(rows, y, t))
  {
    hide FabricCalls.Stable, HbmRun.Valid, HbmRun.NothingBefore;
    var z := MoveBackends(rows, y, t);
    HbmRun.AdvanceKeepsHistories(rows, y.hbm, t);
    forall q | 0 <= q < |z.records| ensures RecordOk(c, z, q) {
      assert RecordOk(c, y, q);
      TakenPrefix(y, z, q);
      if QueuedAt(y.hbm, q, SubmitOf(y.records[q].stage)) {
        QueuesKept(y.hbm, z.hbm, q, SubmitOf(y.records[q].stage));
      }
      if y.records[q].job.Some? {
        SeenPrefix(y, z, y.records[q].job.value);
      }
      assert Untouched(y, z, q);
      UntouchedIsOk(c, y, z, q);
    }
    forall i | 0 <= i < |z.fabric.jobs| ensures JobKnown(z, i) {
      assert JobKnown(y, i);
    }
  }

  // ---------------------------------------------------------------- a backend has delivered

  /** The record's data is in its bank at `time`; the fabric takes over. */
  function Deliver(y: System, r: nat, time: nat): System
    requires r < |y.records| && y.records[r].job.Some? && y.records[r].job.value < |y.fabric.jobs|
    requires y.records[r].stage.BackendPending?
  {
    y.(fabric := FabricCalls.MarkReady(y.fabric, y.records[r].job.value, time),
       records := y.records[r := y.records[r].(stage := FabricPending(y.records[r].stage.submit, time))])
  }

  /** Looking the job up by request id finds the record's job, and the fabric accepts the call. */
  lemma MarkAnswers(c: Fabric.Config, rows: seq<Hbm.Row>, y: System, r: nat, time: nat)
    requires Inv(c, rows, y) && r < |y.records| && y.records[r].stage.BackendPending? && y.fabric.now <= time
    ensures y.records[r].job.Some? && y.records[r].job.value < |y.fabric.jobs|
    ensures FabricCalls.MarkSourceReady(y.fabric, r, time) == Some(Deliver(y, r, time).fabric)
  {
    hide FabricCalls.Stable, HbmRun.Valid;
    assert RecordOk(c, y, r);
    var i := FabricCalls.IndexOf(y.fabric.jobs, r);
    assert i.Some?;
    assert JobKnown(y, i.value);
  }

  lemma ReservedIsUnseen(c: Fabric.Config, rows: seq<Hbm.Row>, y: System, i: nat)
    requires Parts(c, rows, y) && i < |y.fabric.jobs| && y.fabric.jobs[i].state.BackendReserved?
    ensures !Seen(y, i)
  {
    hide HbmRun.Valid;
  }

  /** Delivery keeps every link except the backend's own memory of the request, given by `z`. */
  lemma DeliverIsOk(c: Fabric.Config, rows: seq<Hbm.Row>, y: System, r: nat, time: nat, z: System)
    requires Inv(c, rows, y) && r < |y.records| && y.records[r].stage.BackendPending? && y.fabric.now <= time
    requires y.records[r].stage.submit <= time
    requires y.records[r].job.Some? && y.records[r].job.value < |y.fabric.jobs|
    requires z.records == Deliver(y, r, time).records && z.fabric == Deliver(y, r, time).fabric && z.seen == y.seen
    requires z.hbm == y.hbm && z.taken <= |z.hbm.log|
    requires forall q :: q != r ==> (q in y.mq.pending <==> q in z.mq.pending)
    requires forall q :: q != r && q in y.mq.pending && q in z.mq.pending ==> z.mq.pending[q] == y.mq.pending[q]
    requires forall q :: q != r ==> (Taken(y, q) <==> Taken(z, q))
    requires forall q, t :: q != r && TakenAt(y, q, t) ==> TakenAt(z, q, t)
    requires r !in z.mq.pending && (Taken(z, r) <==> y.records[r].source.Hbm?)
    requires y.records[r].source.Hbm? ==> TakenAt(z, r, time)
    ensures Inv(c, rows, z)
  {
    hide FabricCalls.Stable, HbmRun.Valid;
    var i := y.records[r].job.value;
    assert RecordOk(c, y, r);
    FabricCalls.MarkIsStable(c, y.fabric, i, time);
    ReservedIsUnseen(c, rows, y, i);
    forall j, t ensures (Seen(z, j) <==> Seen(y, j)) && (SeenAt(y, j, t) ==> SeenAt(z, j, t)) {
    }
    forall q | 0 <= q < |z.records| ensures RecordOk(c, z, q) {
      assert RecordOk(c, y, q);
      if q != r {
        assert y.records[q].job != Some(i);
        assert Untouched(y, z, q);
        UntouchedIsOk(c, y, z, q);
      }
    }
    forall n | 0 <= n < |z.fabric.jobs| ensures JobKnown(z, n) {
      assert JobKnown(y, n);
    }
  }

  function AcceptMqsim(y: System, mq: Mqsim, done: Option<nat>): System
    requires done.Some? ==> done.value < |y.records| && y.records[done.value].stage.BackendPending?
    requires done.Some? ==> y.records[done.value].job.Some? && y.records[done.value].job.value < |y.fabric.jobs|
  {
    if done.None? then y.(mq := mq) else Deliver(y, done.value, mq.now).(mq := mq)
  }

  /** A completion MQSim returns belongs to a pending record: the duplicate/unknown error cannot occur. */
  lemma AcceptMqsimIsOk(c: Fabric.Config, rows: seq<Hbm.Row>, y: System, h: nat, mq: Mqsim, done: Option<nat>)
    requires Inv(c, rows, y) && UntilContract(y.mq, h, mq, done) && y.fabric.now <= mq.now
    ensures done.Some? ==>
              && done.value < |y.records| && y.records[done.value].stage.BackendPending?
              && y.records[done.value].job.Some? && y.records[done.value].job.value < |y.fabric.jobs|
    ensures Inv(c, rows, AcceptMqsim(y, mq, done))
  {
    hide FabricCalls.Stable, HbmRun.Valid;
    if done.Some? {
      var r := done.value;
      assert RecordOk(c, y, r);
      var z := Deliver(y, r, mq.now).(mq := mq);
      assert forall q :: Taken(y, q) <==> Taken(z, q);
      assert forall q, t :: TakenAt(y, q, t) ==> TakenAt(z, q, t);
      DeliverIsOk(c, rows, y, r, mq.now, z);
    } else {
      var z := y.(mq := mq);
      forall q | 0 <= q < |z.records| ensures RecordOk(c, z, q) {
        assert RecordOk(c, y, q);
        assert Untouched(y, z, q);
        UntouchedIsOk(c, y, z, q);
      }
      forall n | 0 <= n < |z.fabric.jobs| ensures JobKnown(z, n) {
        assert JobKnown(y, n);
      }
    }
  }

  // ---------------------------------------------------------------- HBM completions

  /** The record that the next media completion belongs to is pending: the duplicate/unknown error cannot occur. */
  lemma NextReportIsPending(c: Fabric.Config, rows: seq<Hbm.Row>, y: System)
    requires Inv(c, rows, y) && y.taken < |y.hbm.log|
    ensures var r := y.hbm.log[y.taken].id;
            && r < |y.records| && y.records[r].source.Hbm? && y.records[r].stage.BackendPending?
            && y.records[r].job.Some? && y.records[r].job.value < |y.fabric.jobs| && !Taken(y, r)
  {
    hide FabricCalls.Stable;
    var d := y.hbm.log[y.taken];
    assert HbmRun.ReportOk(y.hbm.servers, d);
    assert HbmRun.HistoryOk(rows, y.hbm, d.stack);
    assert HbmRun.EntryKnown(rows, y.hbm, d.stack, y.hbm.servers[d.stack].history[d.index]);
    if Taken(y, d.id) {
      var p :| 0 <= p < y.taken <= |y.hbm.log| && y.hbm.log[p].id == d.id;
      HbmRun.ReportsAreUnique(rows, y.hbm, p, y.taken);
    }
    assert RecordOk(c, y, d.id);
  }

  function AcceptReport(y: System): System
    requires y.taken < |y.hbm.log| && y.hbm.log[y.taken].id < |y.records|
    requires y.records[y.hbm.log[y.taken].id].stage.BackendPending? && y.records[y.hbm.log[y.taken].id].job.Some?
    requires y.records[y.hbm.log[y.taken].id].job.value < |y.fabric.jobs|
  {
    Deliver(y, y.hbm.log[y.taken].id, y.hbm.log[y.taken].time).(taken := y.taken + 1)
  }

  lemma TakenNext(y: System, z: System, q: nat)
    requires y.taken < |y.hbm.log| && z.hbm == y.hbm && z.taken == y.taken + 1
    ensures Taken(z, q) <==> Taken(y, q) || q == y.hbm.log[y.taken].id
    ensures forall t :: TakenAt(y, q, t) ==> TakenAt(z, q, t)
    ensures q == y.hbm.log[y.taken].id ==> TakenAt(z, q, y.hbm.log[y.taken].time)
  {
    if Taken(y, q) {
      var p :| 0 <= p < y.taken <= |y.hbm.log| && y.hbm.log[p].id == q;
      assert z.hbm.log[p].id == q;
    }
    if q == y.hbm.log[y.taken].id {
      assert z.hbm.log[y.taken].id == q;
    }
  }

  lemma AcceptReportIsOk(c: Fabric.Config, rows: seq<Hbm.Row>, y: System)
    requires Inv(c, rows, y) && y.taken < |y.hbm.log| && y.fabric.now <= y.hbm.log[y.taken].time
    ensures y.hbm.log[y.taken].id < |y.records| && y.records[y.hbm.log[y.taken].id].stage.BackendPending?
    ensures y.records[y.hbm.log[y.taken].id].job.Some? && y.records[y.hbm.log[y.taken].id].job.value < |y.fabric.jobs|
    ensures Inv(c, rows, AcceptReport(y))
  {
    hide FabricCalls.Stable, HbmRun.Valid;
    NextReportIsPending(c, rows, y);
    var d := y.hbm.log[y.taken];
    var z := AcceptReport(y);
    assert RecordOk(c, y, d.id);
    forall q
      ensures Taken(z, q) <==> Taken(y, q) || q == d.id
      ensures forall t :: TakenAt(y, q, t) ==> TakenAt(z, q, t)
    {
      TakenNext(y, z, q);
    }
    TakenNext(y, z, d.id);
    DeliverIsOk(c, rows, y, d.id, d.time, z);
  }

  // ---------------------------------------------------------------- the fabric follows

  function MoveFabric(c: Fabric.Config, y: System, t: nat): System
    requires FabricHistory.Good(c, y.fabric) && y.fabric.now <= t
  {
    y.(fabric := FabricAdvance.Advance(c, y.fabric, t))
  }

  /** Any later stable fabric still agrees with every record. */
  lemma LaterFabricIsOk(c: Fabric.Config, rows: seq<Hbm.Row>, y: System, f: Fabric.State)
    requires Inv(c, rows, y) && FabricCalls.Stable(c, f) && y.fabric.now <= f.now && FabricProgress.Later(y.fabric, f)
    ensures Inv(c, rows, y.(fabric := f))
  {
    hide FabricCalls.Stable, HbmRun.Valid, Timeline, ValidRequest, Fits;
    var z := y.(fabric := f);
    forall q | 0 <= q < |z.records| ensures RecordOk(c, z, q) {
      assert RecordOk(c, y, q);
      if y.records[q].job.Some? {
        var i := y.records[q].job.value;
        assert FabricProgress.Progressed(y.fabric.jobs[i], f.jobs[i]);
        SeenPrefix(y, z, i);
      }
      assert Untouched(y, z, q);
      UntouchedIsOk(c, y, z, q);
    }
    forall n | 0 <= n < |z.fabric.jobs| ensures JobKnown(z, n) {
      assert JobKnown(y, n) && FabricProgress.Progressed(y.fabric.jobs[n], f.jobs[n]);
    }
  }

  lemma MoveFabricIsOk(c: Fabric.Config, rows: seq<Hbm.Row>, y: System, t: nat)
    requires Inv(c, rows, y) && y.fabric.now <= t
    ensures FabricHistory.Good(c, y.fabric) && Inv(c, rows, MoveFabric(c, y, t))
    ensures MoveFabric(c, y, t).fabric.now == t && FabricAdvance.NothingBefore(MoveFabric(c, y, t).fabric, t + 1)
  {
    hide Linked, FabricProgress.Later, FabricHistory.Good, HbmRun.Valid, FabricAdvance.NothingBefore;
    FabricCalls.AdvanceIsStable(c, y.fabric, t);
    FabricProgress.AdvanceProgress(c, y.fabric, t);
    LaterFabricIsOk(c, rows, y, FabricAdvance.Advance(c, y.fabric, t));
  }

  // ---------------------------------------------------------------- fabric completions

  /** The next fabric completion belongs to a record that waits for it: the premature/duplicate error cannot occur. */
  lemma NextCompletionIsPending(c: Fabric.Config, rows: seq<Hbm.Row>, y: System)
    requires Inv(c, rows, y) && y.seen < |y.fabric.completions|
    ensures var d := y.fabric.completions[y.seen];
            && d.job < |y.fabric.jobs| && y.fabric.jobs[d.job].id < |y.records|
            && y.records[y.fabric.jobs[d.job].id].stage.FabricPending?
            && y.records[y.fabric.jobs[d.job].id].job == Some(d.job)
            && y.records[y.fabric.jobs[d.job].id].stage.backend <= d.time
            && !Seen(y, d.job)
  {
    hide HbmRun.Valid;
    var d := y.fabric.completions[y.seen];
    assert FabricHistory.CompletionOk(c, y.fabric, d);
    assert JobKnown(y, d.job);
    assert RecordOk(c, y, y.fabric.jobs[d.job].id);
  }

  function Later(a: nat, b: nat): nat {
    if a < b then b else a
  }

  function AcceptCompletion(y: System): System
    requires y.seen < |y.fabric.completions| && y.fabric.completions[y.seen].job < |y.fabric.jobs|
    requires y.fabric.jobs[y.fabric.completions[y.seen].job].id < |y.records|
    requires y.records[y.fabric.jobs[y.fabric.completions[y.seen].job].id].stage.FabricPending?
  {
    var d := y.fabric.completions[y.seen];
    var r := y.fabric.jobs[d.job].id;
    var stage := y.records[r].stage;
    y.(seen := y.seen + 1,
       records := y.records[r := y.records[r].(stage :=
         Complete(stage.submit, stage.backend, d.time, Later(stage.backend, d.time)))])
  }

  lemma SeenNext(y: System, z: System, j: nat)
    requires y.seen < |y.fabric.completions| && z.fabric == y.fabric && z.seen == y.seen + 1
    ensures Seen(z, j) <==> Seen(y, j) || j == y.fabric.completions[y.seen].job
  {
    if Seen(y, j) {
      var p :| 0 <= p < y.seen <= |y.fabric.completions| && y.fabric.completions[p].job == j;
      assert z.fabric.completions[p].job == j;
    }
    if j == y.fabric.completions[y.seen].job {
      assert z.fabric.completions[y.seen].job == j;
    }
  }

  lemma AcceptCompletionIsOk(c: Fabric.Config, rows: seq<Hbm.Row>, y: System)
    requires Inv(c, rows, y) && y.seen < |y.fabric.completions|
    ensures y.fabric.completions[y.seen].job < |y.fabric.jobs|
    ensures y.fabric.jobs[y.fabric.completions[y.seen].job].id < |y.records|
    ensures y.records[y.fabric.jobs[y.fabric.completions[y.seen].job].id].stage.FabricPending?
    ensures Inv(c, rows, AcceptCompletion(y))
  {
    hide FabricCalls.Stable, HbmRun.Valid;
    NextCompletionIsPending(c, rows, y);
    var d, z := y.fabric.completions[y.seen], AcceptCompletion(y);
    var r := y.fabric.jobs[d.job].id;
    forall j ensures Seen(z, j) <==> Seen(y, j) || j == d.job {
      SeenNext(y, z, j);
    }
    forall q ensures Taken(z, q) <==> Taken(y, q) {
    }
    forall q | 0 <= q < |z.records| ensures RecordOk(c, z, q) {
      assert RecordOk(c, y, q);
      if q != r {
        assert y.records[q].job != Some(d.job);
        assert Untouched(y, z, q);
        UntouchedIsOk(c, y, z, q);
      }
    }
    forall n | 0 <= n < |z.fabric.jobs| ensures JobKnown(z, n) {
      assert JobKnown(y, n);
    }
  }
}

/** What holds in every state of the coordinated system: backpressure, timelines, and one completion per request. */
module SystemTheorems {
  import opened Wrappers
  import opened SystemModel
  import opened SystemAdmission
  import opened SystemHorizon
  import opened SystemRound
  import opened SystemTurns
  import opened SystemLiveness
  import opened SystemRun
  import Fabric
  import FabricHistory
  import FabricTheorems
  import FabricCalls
  import Hbm
  import HbmRun

  // ---------------------------------------------------------------- backpressure

  /** Requests that each hold a different one of some slots are no more than the slots. */
  lemma {:induction false} NoMoreThanSlots(requests: set<nat>, slotOf: map<nat, Fabric.Slot>, slots: set<Fabric.Slot>)
    requires forall r :: r in requests ==> r in slotOf && slotOf[r] in slots
    requires forall r, q :: r in requests && q in requests && r != q ==> slotOf[r] != slotOf[q]
    ensures |requests| <= |slots|
    decreases requests
  {
    if requests != {} {
      var r :| r in requests;
      NoMoreThanSlots(requests - {r}, slotOf, slots - {slotOf[r]});
    }
  }

  /** The bank that an unfinished reserved job holds: its HBF bank, else its HBM bank. */
  function BankOf(c: Fabric.Config, j: Fabric.Job): Fabric.Slot
    requires Fabric.JobOk(c, j) && j.arrival.Some? && !j.state.Done?
  {
    if j.hbfBank.Some? then Fabric.HbfBank(j.source.k, j.hbfBank.value)
    else Fabric.HbmBank(Fabric.HbmOf(c, j), j.hbmBank.value)
  }

  lemma HoldsItsBank(c: Fabric.Config, rows: seq<Hbm.Row>, y: System, r: nat)
    requires Inv(c, rows, y) && r < |y.records| && y.records[r].job.Some?
    requires y.records[r].job.value < |y.fabric.jobs| && !y.fabric.jobs[y.records[r].job.value].state.Done?
    ensures var j := y.fabric.jobs[y.records[r].job.value];
            && Fabric.JobOk(c, j) && j.arrival.Some? && j.source == y.records[r].source
            && Fabric.Holder(y.fabric, BankOf(c, j)) == y.records[r].job
  {
    hide HbmRun.Valid;
    assert RecordOk(c, y, r);
    var i := y.records[r].job.value;
    assert Fabric.JobOk(c, y.fabric.jobs[i]);
    assert Fabric.Claims(c, y.fabric.jobs[i], BankOf(c, y.fabric.jobs[i]));
  }

  /** The request has a fabric job that is not done. */
  ghost predicate InFlight(y: System, r: nat) {
    && r < |y.records| && y.records[r].job.Some? && y.records[r].job.value < |y.fabric.jobs|
    && !y.fabric.jobs[y.records[r].job.value].state.Done?
  }

  /** Between rounds the requests in flight are those admitted and not complete. */
  lemma InFlightAtRest(c: Fabric.Config, rows: seq<Hbm.Row>, y: System, r: nat)
    requires Inv(c, rows, y) && AtRest(y) && r < |y.records|
    ensures InFlight(y, r) <==> !y.records[r].stage.ExternalWait? && !y.records[r].stage.Complete?
  {
    hide HbmRun.Valid;
    assert RecordOk(c, y, r);
    if y.records[r].stage.Complete? {
      var i := y.records[r].job.value;
      var p :| 0 <= p < y.seen <= |y.fabric.completions| && y.fabric.completions[p].job == i;
      assert FabricHistory.CompletionOk(c, y.fabric, y.fabric.completions[p]);
    }
  }

  /** Requests in flight whose banks are among `slots` are no more than the slots. */
  lemma BankBound(c: Fabric.Config, rows: seq<Hbm.Row>, y: System, requests: set<nat>, slots: set<Fabric.Slot>)
    requires Inv(c, rows, y)
    requires forall r :: r in requests ==> InFlight(y, r) && HeldIn(c, y, r, slots)
    ensures |requests| <= |slots|
  {
    hide Inv;
    var slotOf := map r | r in requests && InFlight(y, r) && HeldIn(c, y, r, slots) ::
      BankOf(c, y.fabric.jobs[y.records[r].job.value]);
    forall r, q | r in requests && q in requests && r != q ensures slotOf[r] != slotOf[q] {
      assert InFlight(y, r) && InFlight(y, q) && HeldIn(c, y, r, slots) && HeldIn(c, y, q, slots);
      HoldsItsBank(c, rows, y, r);
      HoldsItsBank(c, rows, y, q);
      OneRecordPerJob(c, rows, y, r, q);
    }
    NoMoreThanSlots(requests, slotOf, slots);
  }

  ghost predicate HeldIn(c: Fabric.Config, y: System, r: nat, slots: set<Fabric.Slot>)
    requires InFlight(y, r)
  {
    var j := y.fabric.jobs[y.records[r].job.value];
    Fabric.JobOk(c, j) && j.arrival.Some? && BankOf(c, j) in slots
  }

  lemma OneRecordPerJob(c: Fabric.Config, rows: seq<Hbm.Row>, y: System, r: nat, q: nat)
    requires Inv(c, rows, y) && r < |y.records| && q < |y.records| && r != q
    ensures y.records[r].job.None? || y.records[r].job != y.records[q].job
  {
    assert RecordOk(c, y, r) && RecordOk(c, y, q);
  }

  /** At most two commands of one HBF stack are outstanding at MQSim. */
  lemma HbfBackpressure(c: Fabric.Config, rows: seq<Hbm.Row>, y: System, k: nat, requests: set<nat>)
    requires Inv(c, rows, y)
    requires forall r :: r in requests ==> r < |y.records| && r in y.mq.pending && y.records[r].source == Fabric.Hbf(k)
    ensures |requests| <= 2
  {
    hide FabricCalls.Stable, HbmRun.Valid;
    var slots := {Fabric.HbfBank(k, 0), Fabric.HbfBank(k, 1)};
    forall r | r in requests ensures InFlight(y, r) && HeldIn(c, y, r, slots) {
      assert RecordOk(c, y, r);
      HoldsItsBank(c, rows, y, r);
    }
    BankBound(c, rows, y, requests, slots);
  }

  /** At most four requests from an HBF stack and its paired HBM stack are in flight. */
  lemma PairBackpressure(c: Fabric.Config, rows: seq<Hbm.Row>, y: System, k: nat, requests: set<nat>)
    requires Inv(c, rows, y) && k < |c.hbf| && c.hbf[k].pair.Some?
    requires forall r :: r in requests ==> InFlight(y, r)
    requires forall r :: r in requests && r < |y.records| ==>
               y.records[r].source == Fabric.Hbf(k) || y.records[r].source == Fabric.Hbm(c.hbf[k].pair.value.hbm)
    ensures |requests| <= 4
  {
    hide FabricCalls.Stable, HbmRun.Valid;
    var h := c.hbf[k].pair.value.hbm;
    var slots := {Fabric.HbfBank(k, 0), Fabric.HbfBank(k, 1), Fabric.HbmBank(h, 0), Fabric.HbmBank(h, 1)};
    forall r | r in requests ensures InFlight(y, r) && HeldIn(c, y, r, slots) {
      HoldsItsBank(c, rows, y, r);
    }
    BankBound(c, rows, y, requests, slots);
  }

  // ---------------------------------------------------------------- completion

  /** A complete record's times are in order, its fabric time is the logged one, and no other completion is its. */
  lemma CompletesOnce(c: Fabric.Config, rows: seq<Hbm.Row>, y: System, r: nat) returns (p: nat)
    requires Inv(c, rows, y) && r < |y.records| && y.records[r].stage.Complete?
    ensures p < |y.fabric.completions| && y.fabric.completions[p].job < |y.fabric.jobs|
    ensures y.fabric.jobs[y.fabric.completions[p].job].id == r
    ensures forall q :: 0 <= q < |y.fabric.completions| && q != p ==> y.fabric.completions[q].job != y.fabric.completions[p].job
    ensures var rec := y.records[r];
            && rec.arrival <= rec.stage.submit <= rec.stage.backend <= rec.stage.fabric == rec.stage.final
            && rec.stage.fabric == y.fabric.completions[p].time
            && y.fabric.jobs[y.fabric.completions[p].job].ready == Some(rec.stage.backend)
            && ValidRequest(c, rec)
            && rec.stage.backend + FabricTheorems.RouteTime(c, rec.source, rec.route, rec.bytes, true) <= rec.stage.fabric
            && (rec.source.Hbm? ==> TakenAt(y, r, rec.stage.backend))
  {
    hide HbmRun.Valid;
    assert RecordOk(c, y, r);
    var rec := y.records[r];
    p :| 0 <= p < y.seen <= |y.fabric.completions| && y.fabric.completions[p].job == rec.job.value
         && y.fabric.completions[p].time == rec.stage.fabric;
    assert FabricHistory.CompletedOnce(y.fabric.completions);
    assert FabricHistory.CompletionOk(c, y.fabric, y.fabric.completions[p]);
    FabricTheorems.RouteTimeIsWork(c, y.fabric.jobs[rec.job.value]);
  }

  // ---------------------------------------------------------------- media times

  /** The media time of a record's own operation and size on the row of its stack. */
  function OwnMediaTime(row: Hbm.Row, rec: Record): nat {
    Hbm.MediaTime(row, rec.op, rec.bytes)
  }

  /** When the server of a stack is free for the `i`-th request it was given. */
  function FreeAt(records: seq<Record>, order: seq<nat>, i: nat): nat
    requires i < |order| && forall n :: 0 <= n < |order| ==> order[n] < |records| && records[order[n]].stage.Complete?
  {
    if i == 0 then 0 else records[order[i - 1]].stage.backend
  }

  /** Entry `i` of `order` is served from its submit time or the end of the entry before it, whichever is later. */
  ghost predicate ServedNext(row: Hbm.Row, records: seq<Record>, order: seq<nat>, i: nat)
    requires i < |order| && forall n :: 0 <= n < |order| ==> order[n] < |records| && records[order[n]].stage.Complete?
  {
    var rec, free := records[order[i]], FreeAt(records, order, i);
    && (i > 0 ==> records[order[i - 1]].stage.submit <= rec.stage.submit)
    && rec.stage.backend == (if rec.stage.submit < free then free else rec.stage.submit) + OwnMediaTime(row, rec)
  }

  /** `order` lists the requests of HBM stack `k`, each once, as its server took them, and their times are a FIFO server's. */
  ghost predicate ServedInOrder(row: Hbm.Row, records: seq<Record>, k: nat, order: seq<nat>) {
    && (forall i :: 0 <= i < |order| ==> order[i] < |records| && records[order[i]].stage.Complete?)
    && (forall i :: 0 <= i < |order| ==> records[order[i]].source == Fabric.Hbm(k))
    && (forall i, j :: 0 <= i < j < |order| ==> order[i] != order[j])
    && (forall r :: 0 <= r < |records| && records[r].source == Fabric.Hbm(k) ==> r in order)
    && forall i :: 0 <= i < |order| ==> ServedNext(row, records, order, i)
  }

  ghost predicate IsFifoServer(row: Hbm.Row, records: seq<Record>, k: nat) {
    exists order :: ServedInOrder(row, records, k, order)
  }

  /** The entry and the report of one request at one server agree. */
  lemma ReportOfEntry(rows: seq<Hbm.Row>, h: Hbm.State, k: nat, i: nat, p: nat)
    requires HbmRun.Valid(rows, h) && k < |h.servers| && i < |h.servers[k].history| && p < |h.log|
    requires h.log[p].id == h.servers[k].history[i].id
    ensures h.servers[k].history[i].start.Some? && Hbm.End(h.servers[k].history[i]) == h.log[p].time
  {
    var d := h.log[p];
    assert HbmRun.ReportOk(h.servers, d) && HbmRun.HistoryOk(rows, h, d.stack) && HbmRun.HistoryOk(rows, h, k);
    assert HbmRun.EntryKnown(rows, h, k, h.servers[k].history[i]);
    assert HbmRun.EntryKnown(rows, h, d.stack, h.servers[d.stack].history[d.index]);
  }

  lemma EntryIsQueued(rows: seq<Hbm.Row>, h: Hbm.State, k: nat, i: nat, t: nat)
    requires HbmRun.Valid(rows, h) && k < |h.servers| && i < |h.servers[k].history|
    ensures k < |rows| && HbmRun.EntryKnown(rows, h, k, h.servers[k].history[i])
    ensures QueuedAt(h, h.servers[k].history[i].id, Some(t)) ==> h.servers[k].history[i].submit == t
  {
    assert HbmRun.HistoryOk(rows, h, k);
    assert HbmRun.EntryKnown(rows, h, k, h.servers[k].history[i]);
  }

  /** The history entry of a complete HBM record carries its submit time, its media time and its backend time. */
  lemma EntryOfRecord(c: Fabric.Config, rows: seq<Hbm.Row>, y: System, k: nat, i: nat)
    requires Inv(c, rows, y) && k < |y.hbm.servers| && i < |y.hbm.servers[k].history| && AllComplete(y)
    ensures k < |rows|
    ensures var e := y.hbm.servers[k].history[i];
            && e.id < |y.records| && y.records[e.id].source == Fabric.Hbm(k) && y.records[e.id].stage.Complete?
            && e.submit == y.records[e.id].stage.submit && e.duration == OwnMediaTime(rows[k], y.records[e.id])
            && e.start.Some? && Hbm.End(e) == y.records[e.id].stage.backend
  {
    hide FabricCalls.Stable, HbmRun.Valid, QueuedAt;
    var r := y.hbm.servers[k].history[i].id;
    EntryIsQueued(rows, y.hbm, k, i, 0);
    assert RecordOk(c, y, r) && y.records[r].stage.Complete? && ServerKnows(y.hbm, r, y.records[r]);
    EntryIsQueued(rows, y.hbm, k, i, y.records[r].stage.submit);
    var p :| 0 <= p < y.taken <= |y.hbm.log| && y.hbm.log[p].id == r && y.hbm.log[p].time == y.records[r].stage.backend;
    ReportOfEntry(rows, y.hbm, k, i, p);
  }

  /** When all records are complete, every HBM stack has served its requests as a FIFO server of their own media times. */
  lemma MediaTimes(c: Fabric.Config, rows: seq<Hbm.Row>, y: System, k: nat)
    requires Inv(c, rows, y) && AllComplete(y) && k < |rows|
    ensures IsFifoServer(rows[k], y.records, k)
  {
    hide FabricCalls.Stable, OwnMediaTime;
    assert |y.hbm.servers| == |rows| && Hbm.ServerOk(y.hbm.now, y.hbm.servers[k]);
    var history := y.hbm.servers[k].history;
    var order := seq(|history|, i requires 0 <= i < |history| => history[i].id);
    forall i | 0 <= i < |order|
      ensures order[i] < |y.records| && y.records[order[i]].source == Fabric.Hbm(k) && y.records[order[i]].stage.Complete?
    {
      EntryOfRecord(c, rows, y, k, i);
    }
    assert HbmRun.HistoryOk(rows, y.hbm, k);
    forall i | 0 <= i < |order| ensures ServedNext(rows[k], y.records, order, i) {
      ServedByRecurrence(c, rows, y, k, order, i);
    }
    forall r | 0 <= r < |y.records| && y.records[r].source == Fabric.Hbm(k) ensures r in order {
      RecordIsListed(c, rows, y, k, r);
      var i :| 0 <= i < |history| && history[i].id == r;
      assert order[i] == r;
    }
    assert ServedInOrder(rows[k], y.records, k, order);
  }

  lemma RecordIsListed(c: Fabric.Config, rows: seq<Hbm.Row>, y: System, k: nat, r: nat)
    requires Inv(c, rows, y) && AllComplete(y) && r < |y.records| && y.records[r].source == Fabric.Hbm(k)
    ensures k < |y.hbm.servers| && HbmRun.InHistory(y.hbm.servers[k], r)
  {
    hide FabricCalls.Stable;
    assert RecordOk(c, y, r) && y.records[r].stage.Complete?;
    assert ServerKnows(y.hbm, r, y.records[r]);
  }

  lemma ServedByRecurrence(c: Fabric.Config, rows: seq<Hbm.Row>, y: System, k: nat, order: seq<nat>, i: nat)
    requires Inv(c, rows, y) && AllComplete(y) && k < |rows| == |y.hbm.servers| && i < |order| == |y.hbm.servers[k].history|
    requires forall n :: 0 <= n < |order| ==> order[n] == y.hbm.servers[k].history[n].id
    requires forall n :: 0 <= n < |order| ==> order[n] < |y.records| && y.records[order[n]].stage.Complete?
    ensures ServedNext(rows[k], y.records, order, i)
  {
    hide FabricCalls.Stable, OwnMediaTime, Linked;
    var v := y.hbm.servers[k];
    assert Hbm.ServerOk(y.hbm.now, v);
    EntryOfRecord(c, rows, y, k, i);
    assert Hbm.EntryOk(y.hbm.now, v.history, v.done, Hbm.StartedCount(v), i);
    if i > 0 {
      EntryOfRecord(c, rows, y, k, i - 1);
      assert Hbm.EntryOk(y.hbm.now, v.history, v.done, Hbm.StartedCount(v), i - 1);
    }
  }

  // ---------------------------------------------------------------- whole runs

  /** The record of a finished request: times in order, and time enough in the fabric for the stages of its route. */
  predicate Finished(c: Fabric.Config, request: Record, rec: Record) {
    && SameOrder(request, rec) && rec.stage.Complete? && ValidRequest(c, rec)
    && rec.arrival <= rec.stage.submit <= rec.stage.backend
    && rec.stage.backend + FabricTheorems.RouteTime(c, rec.source, rec.route, rec.bytes, true) <= rec.stage.fabric == rec.stage.final
  }

  /**
   A run from its requests to its completions.  At a gate that rejects nothing and puts nothing off past the maximal
   horizon, requests that are in time all complete exactly when each fits the banks on its way; a single request
   completes exactly when it fits and is in time.  One that fits but comes too late for MQSim, or is held back too
   long by the gate, is the deadlock error; requests for HBM alone never are.
   */
  method Simulate(config: Fabric.Config, rows: seq<Hbm.Row>, mqsim: Device, mq: Mqsim, requests: seq<Record>)
    returns (result: Outcome, completions: seq<Record>)
    requires Obeys(mqsim) && mq.pending == map[] && mq.now == 0 && |rows| == |config.hbm|
    requires forall r :: 0 <= r < |requests| ==> Fresh(config, requests[r])
    ensures Prompt(mqsim) && Admitting(mqsim) && AllInTime(requests) ==> (result.Completed? <==> AllFit(config, requests))
    ensures Prompt(mqsim) && Admitting(mqsim) && |requests| == 1 ==>
              (result.Completed? <==> Fits(config, requests[0]) && InTime(requests[0]))
    ensures (&& Admitting(mqsim) && |requests| == 1 && Fits(config, requests[0])
             && (!InTime(requests[0]) || HeldBack(mqsim, mq, requests[0]))) ==> result.Deadlocked?
    ensures (forall r :: 0 <= r < |requests| ==> requests[r].source.Hbm?) ==> (result.Completed? <==> AllFit(config, requests))
    ensures result.Raised? ==>
              && result.halt.r < |requests|
              && Explained(config, requests[result.halt.r], result.halt.fault, Admitting(mqsim))
    ensures result.Completed? ==>
              |completions| == |requests| && forall r :: 0 <= r < |requests| ==> Finished(config, requests[r], completions[r])
    ensures result.Completed? ==> forall k :: 0 <= k < |rows| ==> IsFifoServer(rows[k], completions, k)
  {
    hide Obeys, Inv, AtRest, Stuck, Prompt, Admitting, Fits, Holds, IsFifoServer;
    var system := new BasicSystem(config, rows, mqsim, mq, requests);
    result := system.Run();
    completions := system.records;
    OrdersFit(config, requests, completions);
    OrdersKeep(config, requests, completions);
    if result.Completed? {
      forall r | 0 <= r < |requests| ensures Finished(config, requests[r], completions[r]) {
        assert completions[r].stage.Complete?;
        var p := CompletesOnce(config, rows, system.Value(), r);
      }
      forall k | 0 <= k < |rows| ensures IsFifoServer(rows[k], completions, k) {
        MediaTimes(config, rows, system.Value(), k);
      }
    } else if result.Deadlocked? {
      StuckNeedsHbf(config, rows, system.Value());
    } else {
      var r := result.halt.r;
      assert SameOrder(requests[r], completions[r]);
    }
  }

  lemma OrdersFit(c: Fabric.Config, a: seq<Record>, b: seq<Record>)
    requires SameOrders(a, b)
    ensures AllFit(c, a) <==> AllFit(c, b)
    ensures forall r :: 0 <= r < |a| ==> (Fits(c, a[r]) <==> Fits(c, b[r]))
    ensures forall r :: 0 <= r < |a| ==> a[r].source == b[r].source
  {
    forall r | 0 <= r < |a| ensures (Fits(c, a[r]) <==> Fits(c, b[r])) && a[r].source == b[r].source {
      assert SameOrder(a[r], b[r]);
    }
  }

  /** Without HBF requests nothing is ever outstanding at MQSim. */
  lemma StuckNeedsHbf(c: Fabric.Config, rows: seq<Hbm.Row>, y: System)
    requires Inv(c, rows, y) && Stuck(y)
    ensures exists r :: 0 <= r < |y.records| && y.records[r].source.Hbf?
  {
    var r :| r in y.mq.pending;
    assert RecordOk(c, y, r);
  }

  // ---------------------------------------------------------------- the contract can be met

  /** A device that accepts at once and completes its commands when asked to run to the maximal horizon. */
  ghost function Lazy(): Device {
    Device((m: Mqsim, r: nat) => (m.(pending := m.pending[r := m.now]), Accepted(m.now)),
           (m: Mqsim, h: nat) =>
             if h < MAX_HORIZON_NS || !(exists r :: r in m.pending) then (m.(now := h), None)
             else (m.(now := h, pending := m.pending - {Pick(m.pending)}), Some(Pick(m.pending))))
  }

  ghost function Pick(pending: map<nat, nat>): (r: nat)
    requires exists r :: r in pending
    ensures r in pending
  {
    var r :| r in pending;
    r
  }

  /** The same device behind a gate that puts everything off past the maximal horizon while it may. */
  ghost function Tardy(): Device {
    Device((m: Mqsim, r: nat) =>
             if m.now <= MAX_HORIZON_NS && m.deferrals > 0
             then (m.(deferrals := m.deferrals - 1), Deferred(MAX_HORIZON_NS + 1))
             else (m.(pending := m.pending[r := m.now]), Accepted(m.now)),
           Lazy().until)
  }

  /** So even a request that arrives at time zero can end in the deadlock error. */
  lemma GateCanHoldBack()
    ensures Obeys(Tardy()) && Admitting(Tardy()) && Holds(Tardy())
  {
    ContractCanBeMet();
    var d := Tardy();
    forall m: Mqsim, h: nat | MqsimOk(m) && m.now <= h ensures UntilContract(m, h, d.until(m, h).0, d.until(m, h).1) {
      assert d.until(m, h) == Lazy().until(m, h);
    }
  }

  lemma ContractCanBeMet()
    ensures Obeys(Lazy()) && Prompt(Lazy()) && Admitting(Lazy())
  {
    var d := Lazy();
    forall m: Mqsim, h: nat | MqsimOk(m) && m.now <= h ensures UntilContract(m, h, d.until(m, h).0, d.until(m, h).1) {
      assert (exists r :: r in m.pending) <==> m.pending != map[];
      if MAX_HORIZON_NS <= h && m.pending != map[] {
        var r := Pick(m.pending);
        assert d.until(m, h).1 == Some(r) && m.pending[r] <= Horizon(m);
      }
    }
  }
}

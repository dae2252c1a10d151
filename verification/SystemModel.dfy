/**
 The basic system as a value: request records, the fabric, the HBM servers and the part
 of MQSim the coordinator can see.  Request ids are positions in the request list.
 */
module SystemModel {
  import opened Wrappers
  import Fabric
  import FabricHistory
  import FabricRun
  import FabricAdvance
  import FabricCalls
  import FabricProgress
  import Hbm
  import HbmRun

  const MAX_HORIZON_NS: nat := 0xffff_ffff_ffff_ffff

  datatype Stage =
    | ExternalWait
    | GateWait(target: nat)
    | BackendPending(submit: nat)
    | FabricPending(submit: nat, backend: nat)
    | Complete(submit: nat, backend: nat, fabric: nat, final: nat)

  /** `job` is the number of the fabric job that the reservation created. */
  datatype Record = Record(source: Fabric.Source, route: Fabric.Route, bytes: pos, arrival: nat, op: Hbm.Op,
                           job: Option<nat>, stage: Stage)

  /**
   What can be said about MQSim: its clock, the commands it has accepted and not completed with
   their backend arrival, how often it may still defer, and an internal state nobody looks at.
   */
  datatype Mqsim = Mqsim(now: nat, pending: map<nat, nat>, deferrals: nat, hidden: nat)

  datatype System = System(now: nat, records: seq<Record>, fabric: Fabric.State, hbm: Hbm.State, mq: Mqsim,
                           taken: nat, seen: nat)

  // ---------------------------------------------------------------- invariant

  /** The completion of job `j` has been accepted by the coordinator. */
  ghost predicate Seen(y: System, j: nat) {
    exists p :: 0 <= p < y.seen <= |y.fabric.completions| && y.fabric.completions[p].job == j
  }

  /** The media completion of request `r` has been accepted by the coordinator. */
  ghost predicate Taken(y: System, r: nat) {
    exists p :: 0 <= p < y.taken <= |y.hbm.log| && y.hbm.log[p].id == r
  }

  /** That completion was logged at time `t`. */
  ghost predicate SeenAt(y: System, j: nat, t: nat) {
    exists p :: 0 <= p < y.seen <= |y.fabric.completions| && y.fabric.completions[p].job == j && y.fabric.completions[p].time == t
  }

  ghost predicate TakenAt(y: System, r: nat, t: nat) {
    exists p :: 0 <= p < y.taken <= |y.hbm.log| && y.hbm.log[p].id == r && y.hbm.log[p].time == t
  }

  predicate JobMatches(j: Fabric.Job, rec: Record, r: nat) {
    j.id == r && j.source == rec.source && j.route == rec.route && j.bytes == rec.bytes && j.arrival == Some(rec.arrival)
  }

  /** The record's stage says what the fabric job says. */
  ghost predicate StageMatches(y: System, rec: Record)
    requires rec.job.Some? && rec.job.value < |y.fabric.jobs|
  {
    var j := y.fabric.jobs[rec.job.value];
    match rec.stage
    case ExternalWait => false
    case GateWait(_) => rec.source.Hbf? && j.state.BackendReserved?
    case BackendPending(_) => j.state.BackendReserved?
    case FabricPending(_, backend) => !j.state.BackendReserved? && !Seen(y, rec.job.value) && j.ready == Some(backend)
    case Complete(_, backend, fabric, _) =>
      !j.state.BackendReserved? && Seen(y, rec.job.value) && SeenAt(y, rec.job.value, fabric) && j.ready == Some(backend)
  }

  /** arrival <= backend submit <= backend completion <= fabric completion = final completion */
  ghost predicate Timeline(y: System, rec: Record) {
    match rec.stage
    case ExternalWait => true
    case GateWait(_) => true
    case BackendPending(submit) => rec.arrival <= submit && (rec.source.Hbm? ==> submit <= y.fabric.now)
    case FabricPending(submit, backend) => rec.arrival <= submit <= backend
    case Complete(submit, backend, fabric, final) => rec.arrival <= submit <= backend <= fabric == final
  }

  /** The request passes validation: its stack is configured and has the route. */
  predicate ValidRequest(c: Fabric.Config, rec: Record) {
    Fabric.SourceOk(c, rec.source, rec.route)
  }

  /** The request is no larger than the banks on its way; nothing checks this before it is admitted. */
  predicate Fits(c: Fabric.Config, rec: Record) {
    ValidRequest(c, rec) && FabricCalls.FitsBanks(c, rec.source, rec.route, rec.bytes)
  }

  predicate HasData(rec: Record) {
    rec.stage.FabricPending? || rec.stage.Complete?
  }

  /** When the record was submitted to its backend. */
  function SubmitOf(stage: Stage): Option<nat> {
    match stage
    case ExternalWait => None
    case GateWait(_) => None
    case BackendPending(submit) => Some(submit)
    case FabricPending(submit, _) => Some(submit)
    case Complete(submit, _, _, _) => Some(submit)
  }

  /** The server of request `r` took it into its queue at time `t`. */
  ghost predicate QueuedAt(h: Hbm.State, r: nat, t: Option<nat>) {
    && r in h.requests && h.requests[r].stack < |h.servers|
    && exists i :: 0 <= i < |h.servers[h.requests[r].stack].history|
                   && h.servers[h.requests[r].stack].history[i].id == r
                   && Some(h.servers[h.requests[r].stack].history[i].submit) == t
  }

  /** The server was given the record's own stack, operation and size, at the record's submit time. */
  ghost predicate ServerKnows(h: Hbm.State, r: nat, rec: Record) {
    && r in h.requests && h.requests[r].submitted && rec.source == Fabric.Hbm(h.requests[r].stack)
    && h.requests[r].op == rec.op && h.requests[r].bytes == rec.bytes && QueuedAt(h, r, SubmitOf(rec.stage))
  }

  ghost predicate BackendsMatch(y: System, r: nat)
    requires r < |y.records|
  {
    var rec := y.records[r];
    && (r in y.mq.pending <==> rec.source.Hbf? && rec.stage.BackendPending?)
    && (r in y.mq.pending ==> y.mq.pending[r] == rec.stage.submit)
    && (r in y.hbm.requests <==> rec.source.Hbm? && rec.job.Some?)
    && (r in y.hbm.requests ==> ServerKnows(y.hbm, r, rec))
    && (Taken(y, r) <==> rec.source.Hbm? && HasData(rec))
    && (rec.source.Hbm? && HasData(rec) ==> TakenAt(y, r, rec.stage.backend))
  }

  ghost predicate RecordOk(c: Fabric.Config, y: System, r: nat)
    requires r < |y.records|
  {
    var rec := y.records[r];
    && ValidRequest(c, rec)
    && (rec.job.None? <==> rec.stage.ExternalWait?)
    && (rec.job.Some? ==>
          && rec.job.value < |y.fabric.jobs| && JobMatches(y.fabric.jobs[rec.job.value], rec, r)
          && rec.arrival <= y.fabric.now && StageMatches(y, rec) && Fits(c, rec))
    && BackendsMatch(y, r) && Timeline(y, rec)
  }

  ghost predicate JobKnown(y: System, i: nat)
    requires i < |y.fabric.jobs|
  {
    y.fabric.jobs[i].id < |y.records| && y.records[y.fabric.jobs[i].id].job == Some(i)
  }

  ghost predicate Parts(c: Fabric.Config, rows: seq<Hbm.Row>, y: System) {
    && |rows| == |c.hbm| && FabricCalls.Stable(c, y.fabric) && HbmRun.Valid(rows, y.hbm)
    && y.taken <= |y.hbm.log| && y.seen <= |y.fabric.completions|
  }

  ghost predicate Linked(c: Fabric.Config, y: System) {
    && (forall r :: 0 <= r < |y.records| ==> RecordOk(c, y, r))
    && (forall i :: 0 <= i < |y.fabric.jobs| ==> JobKnown(y, i))
    && (forall r :: r in y.mq.pending ==> r < |y.records|)
    && (forall r :: r in y.hbm.requests ==> r < |y.records|)
  }

  /** Holds throughout the run. */
  ghost predicate Inv(c: Fabric.Config, rows: seq<Hbm.Row>, y: System) {
    Parts(c, rows, y) && Linked(c, y)
  }

  /** Holds between rounds: one clock, every completion accepted, nothing left to do at this time. */
  ghost predicate AtRest(y: System) {
    && y.fabric.now == y.hbm.now == y.mq.now == y.now
    && y.taken == |y.hbm.log| && y.seen == |y.fabric.completions|
    && FabricAdvance.NothingBefore(y.fabric, y.now + 1) && HbmRun.NothingBefore(y.hbm, y.now + 1)
  }

  // ---------------------------------------------------------------- records that are not touched

  /** Nothing that record `q` depends on has changed. */
  ghost predicate Untouched(y: System, z: System, q: nat)
    requires q < |y.records|
  {
    var rec := y.records[q];
    && q < |z.records| && z.records[q] == rec && y.fabric.now <= z.fabric.now
    && (rec.job.Some? && rec.job.value < |y.fabric.jobs| ==>
          && rec.job.value < |z.fabric.jobs|
          && FabricHistory.SameRequest(y.fabric.jobs[rec.job.value], z.fabric.jobs[rec.job.value])
          && (y.fabric.jobs[rec.job.value].state.BackendReserved? <==> z.fabric.jobs[rec.job.value].state.BackendReserved?)
          && (Seen(y, rec.job.value) <==> Seen(z, rec.job.value))
          && (rec.stage.Complete? && SeenAt(y, rec.job.value, rec.stage.fabric) ==> SeenAt(z, rec.job.value, rec.stage.fabric)))
    && (q in y.mq.pending <==> q in z.mq.pending) && (q in y.mq.pending ==> z.mq.pending[q] == y.mq.pending[q])
    && (q in y.hbm.requests <==> q in z.hbm.requests) && (q in y.hbm.requests ==> z.hbm.requests[q] == y.hbm.requests[q])
    && (QueuedAt(y.hbm, q, SubmitOf(rec.stage)) ==> QueuedAt(z.hbm, q, SubmitOf(rec.stage)))
    && (Taken(y, q) <==> Taken(z, q))
    && (HasData(rec) && TakenAt(y, q, rec.stage.backend) ==> TakenAt(z, q, rec.stage.backend))
  }

  lemma UntouchedIsOk(c: Fabric.Config, y: System, z: System, q: nat)
    requires q < |y.records| && RecordOk(c, y, q) && Untouched(y, z, q)
    ensures RecordOk(c, z, q)
  {
  }

  // ---------------------------------------------------------------- admission

  /** The source bank is taken and the record moves on to `stage`. */
  function Admitted(y: System, r: nat, fabric: Fabric.State, stage: Stage): System
    requires r < |y.records|
  {
    y.(fabric := fabric,
       records := y.records[r := y.records[r].(job := Some(|y.fabric.jobs|), stage := stage)])
  }

  function Reserve(c: Fabric.Config, y: System, r: nat): FabricCalls.ReserveResult
    requires r < |y.records| && |y.fabric.hbf| == |c.hbf| && |y.fabric.hbm| == |c.hbm|
  {
    var rec := y.records[r];
    FabricCalls.ReserveSource(c, y.fabric, r, rec.source, rec.route, rec.bytes, rec.arrival)
  }

  /** A waiting, arrived request gets a bank, or all are taken, or it is too large for the banks. */
  lemma ReserveAnswers(c: Fabric.Config, rows: seq<Hbm.Row>, y: System, r: nat)
    requires Inv(c, rows, y) && r < |y.records| && y.records[r].stage.ExternalWait?
    requires y.records[r].arrival <= y.fabric.now
    ensures |y.fabric.hbf| == |c.hbf| && |y.fabric.hbm| == |c.hbm|
    ensures Reserve(c, y, r).Rejected? <==> !Fits(c, y.records[r])
    ensures Reserve(c, y, r).Reserved? ==>
              var f := Reserve(c, y, r).state;
              && |f.jobs| == |y.fabric.jobs| + 1 && f.jobs[..|y.fabric.jobs|] == y.fabric.jobs
              && JobMatches(f.jobs[|y.fabric.jobs|], y.records[r], r) && f.jobs[|y.fabric.jobs|].state.BackendReserved?
              && f.now == y.fabric.now && f.completions == y.fabric.completions
  {
    var rec := y.records[r];
    assert RecordOk(c, y, r);
    assert FabricCalls.IndexOf(y.fabric.jobs, r).None? by {
      var i := FabricCalls.IndexOf(y.fabric.jobs, r);
      assert i.Some? ==> JobKnown(y, i.value);
    }
    if Reserve(c, y, r).Reserved? {
      var f := Reserve(c, y, r).state;
      assert f.jobs[..|y.fabric.jobs|] == y.fabric.jobs;
    }
  }

  /** What a reservation for record `r` leaves as it was. */
  lemma ReservedLinks(c: Fabric.Config, rows: seq<Hbm.Row>, y: System, r: nat, z: System, stage: Stage)
    requires Inv(c, rows, y) && r < |y.records| && y.records[r].stage.ExternalWait? && y.records[r].arrival <= y.fabric.now
    requires |y.fabric.hbf| == |c.hbf| && |y.fabric.hbm| == |c.hbm| && Reserve(c, y, r).Reserved?
    requires z.records == Admitted(y, r, Reserve(c, y, r).state, stage).records
    requires z.fabric == Reserve(c, y, r).state && z.seen == y.seen && z.taken == y.taken && z.hbm.log == y.hbm.log
    requires forall q :: q != r ==> (q in y.mq.pending <==> q in z.mq.pending)
    requires forall q :: q != r && q in y.mq.pending && q in z.mq.pending ==> z.mq.pending[q] == y.mq.pending[q]
    requires forall q :: q != r ==> (q in y.hbm.requests <==> q in z.hbm.requests)
    requires forall q :: q != r && q in y.hbm.requests && q in z.hbm.requests ==> z.hbm.requests[q] == y.hbm.requests[q]
    requires forall q, t :: q != r && QueuedAt(y.hbm, q, t) ==> QueuedAt(z.hbm, q, t)
    requires RecordOk(c, z, r)
    ensures Linked(c, z)
  {
    hide FabricCalls.Stable, HbmRun.Valid, FabricCalls.ReserveSource, ValidRequest, Fits, Timeline, QueuedAt;
    ReserveAnswers(c, rows, y, r);
    var n := |y.fabric.jobs|;
    assert forall i :: 0 <= i < n ==> z.fabric.jobs[i] == z.fabric.jobs[..n][i];
    forall q | 0 <= q < |z.records| ensures RecordOk(c, z, q) {
      if q != r {
        assert RecordOk(c, y, q);
        assert Untouched(y, z, q);
        UntouchedIsOk(c, y, z, q);
      }
    }
    forall i | 0 <= i < |z.fabric.jobs| ensures JobKnown(z, i) {
      if i < n {
        assert JobKnown(y, i);
        assert RecordOk(c, y, y.fabric.jobs[i].id);
      }
    }
    forall q | q in z.mq.pending ensures q < |z.records| {
    }
    forall q | q in z.hbm.requests ensures q < |z.records| {
    }
  }
}

/** The device behind the coordinator, and the admission pass that gives every record its turn. */
module SystemTurns {
  import opened Wrappers
  import opened SystemModel
  import opened SystemAdmission
  import opened SystemHorizon
  import opened SystemRound
  import opened SystemMeasure
  import Fabric
  import FabricHistory
  import FabricAdvance
  import FabricCalls
  import FabricTheorems
  import Hbm
  import HbmRun

  /** MQSim as the coordinator sees it: two calls, whose answers may depend on a hidden state. */
  datatype Device = Device(trySubmit: (Mqsim, nat) -> (Mqsim, Decision), until: (Mqsim, nat) -> (Mqsim, Option<nat>))

  ghost predicate Obeys(d: Device) {
    && (forall m: Mqsim, r: nat {:trigger d.trySubmit(m, r)} :: MqsimOk(m) && r !in m.pending ==>
          TryContract(m, r, d.trySubmit(m, r).0, d.trySubmit(m, r).1))
    && (forall m: Mqsim, h: nat {:trigger d.until(m, h)} :: MqsimOk(m) && m.now <= h ==>
          UntilContract(m, h, d.until(m, h).0, d.until(m, h).1))
  }

  /** The gate never rejects a submission and puts it off only to a time to come. */
  ghost predicate Admitting(d: Device) {
    forall m: Mqsim, r: nat {:trigger d.trySubmit(m, r)} :: MqsimOk(m) && r !in m.pending ==>
      GateFault(d.trySubmit(m, r).1, m.now).None?
  }

  /** Submissions are not put off past the maximal horizon; a target of 64 bits cannot be. */
  ghost predicate Prompt(d: Device) {
    forall m: Mqsim, r: nat {:trigger d.trySubmit(m, r)} :: MqsimOk(m) && r !in m.pending && d.trySubmit(m, r).1.Deferred? ==>
      d.trySubmit(m, r).1.target <= MAX_HORIZON_NS
  }

  /** As long as it may, the gate puts submissions off past the maximal horizon. */
  ghost predicate Holds(d: Device) {
    forall m: Mqsim, r: nat {:trigger d.trySubmit(m, r)} ::
      MqsimOk(m) && r !in m.pending && m.now <= MAX_HORIZON_NS && m.deferrals > 0 ==>
        d.trySubmit(m, r).1.Deferred? && d.trySubmit(m, r).1.target > MAX_HORIZON_NS
  }

  lemma SubmissionKeepsMqsim(m: Mqsim, r: nat, after: Mqsim, d: Decision)
    requires MqsimOk(m) && TryContract(m, r, after, d)
    ensures MqsimOk(after)
  {
  }

  lemma UntilKeepsMqsim(m: Mqsim, h: nat, after: Mqsim, done: Option<nat>)
    requires MqsimOk(m) && UntilContract(m, h, after, done)
    ensures MqsimOk(after)
  {
  }

  /** The record is of the same request. */
  predicate SameOrder(a: Record, b: Record) {
    a.source == b.source && a.route == b.route && a.bytes == b.bytes && a.arrival == b.arrival && a.op == b.op
  }

  ghost predicate SameOrders(a: seq<Record>, b: seq<Record>) {
    |a| == |b| && forall r :: 0 <= r < |a| ==> SameOrder(a[r], b[r])
  }

  /** No record starts or stops being complete. */
  ghost predicate SameComplete(a: seq<Record>, b: seq<Record>) {
    |a| == |b| && forall r :: 0 <= r < |a| ==> (a[r].stage.Complete? <==> b[r].stage.Complete?)
  }

  /** `(d, m)` is lexicographically below `(e, n)`, or equal to it. */
  predicate NotAbove(d: nat, m: nat, e: nat, n: nat) {
    d < e || (d == e && m <= n)
  }

  /** What admission does to the measure and the records, seen from outside. */
  ghost predicate Admits(y: System, z: System) {
    && SameOrders(y.records, z.records) && SameComplete(y.records, z.records)
    && NotAbove(z.mq.deferrals, Measure(z), y.mq.deferrals, Measure(y))
  }

  /** The termination measure of the run is lower in `z`. */
  ghost predicate Drops(z: System, y: System) {
    z.mq.deferrals < y.mq.deferrals || (z.mq.deferrals == y.mq.deferrals && Measure(z) < Measure(y))
  }

  lemma AdmitsItself(y: System)
    ensures Admits(y, y)
  {
  }

  lemma AdmitsOnward(y: System, t: System, z: System)
    requires Admits(y, t) && Admits(t, z)
    ensures Admits(y, z) && |y.records| == |t.records| == |z.records|
  {
  }

  // ---------------------------------------------------------------- the admission pass

  /** Why a record's turn raises: larger than a bank, rejected by the gate, or put off to a time that is not to come. */
  datatype Fault = TooLarge | GateRejects | PastTarget

  function GateFault(d: Decision, now: nat): Option<Fault> {
    match d
    case Accepted(_) => None
    case Deferred(target) => if now < target then None else Some(PastTarget)
    case Blocked => Some(GateRejects)
  }

  function FaultOf(c: Fabric.Config, d: Device, y: System, r: nat): Option<Fault>
    requires r < |y.records| && |y.fabric.hbf| == |c.hbf| && |y.fabric.hbm| == |c.hbm|
  {
    var rec := y.records[r];
    if rec.stage.GateWait? then
      if rec.stage.target <= y.now then GateFault(d.trySubmit(y.mq, r).1, y.now) else None
    else if !rec.stage.ExternalWait? || y.now < rec.arrival then None
    else
      match Reserve(c, y, r)
      case Rejected => Some(TooLarge)
      case Full => None
      case Reserved(_) => if rec.source.Hbf? then GateFault(d.trySubmit(y.mq, r).1, y.now) else None
  }

  /** The record's submission to MQSim, first or repeated, and the answer. */
  function Resubmitted(d: Device, y: System, r: nat): System
    requires r < |y.records| && !d.trySubmit(y.mq, r).1.Blocked?
  {
    var answer := d.trySubmit(y.mq, r);
    RetryHbf(y, r, answer.0, answer.1)
  }

  function Submitted(d: Device, y: System, r: nat, f: Fabric.State): System
    requires r < |y.records| && !d.trySubmit(y.mq, r).1.Blocked?
  {
    var answer := d.trySubmit(y.mq, r);
    AdmitHbf(y, r, f, answer.0, answer.1)
  }

  /** One record's turn: a due retry, a bank and a submission if one is free, or nothing. */
  function AdmitStep(c: Fabric.Config, rows: seq<Hbm.Row>, d: Device, y: System, r: nat): System
    requires Inv(c, rows, y) && AtRest(y) && r < |y.records| && FaultOf(c, d, y, r).None?
  {
    var rec := y.records[r];
    if rec.stage.GateWait? then
      if rec.stage.target <= y.now then Resubmitted(d, y, r) else y
    else if !rec.stage.ExternalWait? || y.now < rec.arrival then y
    else
      ReserveAnswers(c, rows, y, r);
      var reserved := Reserve(c, y, r);
      if !reserved.Reserved? then y
      else if rec.source.Hbf? then Submitted(d, y, r, reserved.state)
      else
        AdmitHbmIsOk(c, rows, y, r);
        AdmitHbm(y, r, reserved.state, HbmAfter(rows, y, r).value)
  }

  /** Each state is the previous one after the turn of the next record. */
  ghost predicate Turns(c: Fabric.Config, rows: seq<Hbm.Row>, d: Device, turns: seq<System>) {
    forall r :: 0 <= r < |turns| - 1 ==> TurnOf(c, rows, d, turns[r], turns[r + 1], r)
  }

  ghost predicate TurnOf(c: Fabric.Config, rows: seq<Hbm.Row>, d: Device, y: System, z: System, r: nat) {
    && Inv(c, rows, y) && AtRest(y) && MqsimOk(y.mq) && r < |y.records|
    && FaultOf(c, d, y, r).None? && z == AdmitStep(c, rows, d, y, r)
  }

  /** `z` is `y` after every record has had its turn, in request order. */
  ghost predicate InTurn(c: Fabric.Config, rows: seq<Hbm.Row>, d: Device, y: System, z: System) {
    exists turns :: |turns| == |y.records| + 1 && turns[0] == y && turns[|y.records|] == z && Turns(c, rows, d, turns)
  }

  datatype Halt = Halt(r: nat, fault: Fault)

  /** Starting from `y` the records before `halt.r` had their turns, and the turn of `halt.r` raises. */
  ghost predicate HaltsAt(c: Fabric.Config, rows: seq<Hbm.Row>, d: Device, y: System, halt: Halt) {
    exists turns :: |turns| == halt.r + 1 && turns[0] == y && Turns(c, rows, d, turns) && Raises(c, rows, d, turns[halt.r], halt)
  }

  ghost predicate Raises(c: Fabric.Config, rows: seq<Hbm.Row>, d: Device, y: System, halt: Halt) {
    Inv(c, rows, y) && AtRest(y) && MqsimOk(y.mq) && halt.r < |y.records| && FaultOf(c, d, y, halt.r) == Some(halt.fault)
  }

  lemma TurnTaken(c: Fabric.Config, rows: seq<Hbm.Row>, d: Device, turns: seq<System>, z: System)
    requires turns != [] && Turns(c, rows, d, turns) && TurnOf(c, rows, d, turns[|turns| - 1], z, |turns| - 1)
    ensures Turns(c, rows, d, turns + [z])
  {
    hide TurnOf;
    var more := turns + [z];
    forall r | 0 <= r < |more| - 1 ensures TurnOf(c, rows, d, more[r], more[r + 1], r) {
      assert r < |turns| - 1 ==> TurnOf(c, rows, d, turns[r], turns[r + 1], r);
    }
  }

  /** A request as it enters the run. */
  ghost predicate Fresh(c: Fabric.Config, rec: Record) {
    ValidRequest(c, rec) && rec.stage.ExternalWait? && rec.job.None?
  }

  lemma StartIsOk(c: Fabric.Config, rows: seq<Hbm.Row>, y: System)
    requires y.fabric == FabricCalls.Init(c) && y.hbm == HbmRun.Init(rows) && y.mq.pending == map[] && |rows| == |c.hbm|
    requires y.now == y.mq.now == y.taken == y.seen == 0
    requires forall r :: 0 <= r < |y.records| ==> Fresh(c, y.records[r])
    ensures Inv(c, rows, y) && AtRest(y)
  {
    FabricCalls.InitIsStable(c);
    forall r | 0 <= r < |y.records| ensures RecordOk(c, y, r) {
      assert Fresh(c, y.records[r]);
    }
  }
}

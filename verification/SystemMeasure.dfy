/** Why the run ends: every round lowers the deferrals MQSim has left or the work left in the records and jobs. */
module SystemMeasure {
  import opened Wrappers
  import opened SystemModel
  import opened SystemAdmission
  import opened SystemHorizon
  import opened SystemRound
  import Fabric
  import FabricHistory
  import FabricAdvance
  import FabricCalls
  import FabricProgress
  import Hbm
  import HbmRun

  function StageRank(rec: Record, now: nat): nat {
    match rec.stage
    case ExternalWait => if now < rec.arrival then 41 else 40
    case GateWait(target) => if now < target then 21 else 20
    case BackendPending(_) => 10
    case FabricPending(_, _) => 1
    case Complete(_, _, _, _) => 0
  }

  function RecordsRank(records: seq<Record>, now: nat): nat {
    if records == [] then 0 else StageRank(records[0], now) + RecordsRank(records[1..], now)
  }

  function Measure(y: System): nat {
    RecordsRank(y.records, y.now) + FabricAdvance.TotalRank(y.fabric.jobs)
  }

  // ---------------------------------------------------------------- sums

  lemma {:induction false} UpdateRank(records: seq<Record>, r: nat, rec: Record, now: nat)
    requires r < |records|
    ensures RecordsRank(records[r := rec], now) + StageRank(records[r], now) == RecordsRank(records, now) + StageRank(rec, now)
  {
    if r == 0 {
      assert records[0 := rec][1..] == records[1..];
    } else {
      UpdateRank(records[1..], r - 1, rec, now);
      assert records[r := rec][1..] == records[1..][r - 1 := rec];
    }
  }

  lemma {:induction false} WaitingRank(records: seq<Record>, now: nat, later: nat)
    requires now <= later
    ensures RecordsRank(records, later) <= RecordsRank(records, now)
    ensures (exists r :: 0 <= r < |records| && StageRank(records[r], later) < StageRank(records[r], now)) ==>
              RecordsRank(records, later) < RecordsRank(records, now)
  {
    if records != [] {
      WaitingRank(records[1..], now, later);
      if r :| 1 <= r < |records| && StageRank(records[r], later) < StageRank(records[r], now) {
        assert StageRank(records[1..][r - 1], later) < StageRank(records[1..][r - 1], now);
      }
    }
  }

  lemma {:induction false} AppendRank(jobs: seq<Fabric.Job>, j: Fabric.Job)
    ensures FabricAdvance.TotalRank(jobs + [j]) == FabricAdvance.TotalRank(jobs) + FabricHistory.Rank(j)
  {
    if jobs == [] {
      assert ([j])[1..] == [];
    } else {
      AppendRank(jobs[1..], j);
      assert (jobs + [j])[1..] == jobs[1..] + [j];
    }
  }

  lemma RankStays(jobs: seq<Fabric.Job>, i: nat, j: Fabric.Job)
    requires i < |jobs| && FabricHistory.Rank(j) <= FabricHistory.Rank(jobs[i])
    ensures FabricAdvance.TotalRank(jobs[i := j]) <= FabricAdvance.TotalRank(jobs)
  {
    FabricAdvance.RankDrops(jobs, jobs[i := j]);
  }

  // ---------------------------------------------------------------- each step of a round

  /** Admission turns a waiting record into one with a job; together they weigh less. */
  lemma AdmissionDrops(y: System, r: nat, z: System)
    requires r < |y.records| && y.records[r].stage.ExternalWait? && z.now == y.now
    requires |z.records| == |y.records| && z.records == y.records[r := z.records[r]]
    requires z.records[r].stage.GateWait? || z.records[r].stage.BackendPending?
    requires |z.fabric.jobs| == |y.fabric.jobs| + 1 && z.fabric.jobs[..|y.fabric.jobs|] == y.fabric.jobs
    requires z.fabric.jobs[|y.fabric.jobs|].state.BackendReserved?
    ensures Measure(z) < Measure(y)
  {
    UpdateRank(y.records, r, z.records[r], y.now);
    AppendRank(y.fabric.jobs, z.fabric.jobs[|y.fabric.jobs|]);
    assert z.fabric.jobs == y.fabric.jobs + [z.fabric.jobs[|y.fabric.jobs|]];
  }

  lemma RetryDrops(y: System, r: nat, mq: Mqsim, d: Decision)
    requires r < |y.records| && y.records[r].stage.GateWait? && TryContract(y.mq, r, mq, d) && !d.Blocked?
    ensures mq.deferrals < y.mq.deferrals || (mq.deferrals == y.mq.deferrals && Measure(RetryHbf(y, r, mq, d)) < Measure(y))
  {
    UpdateRank(y.records, r, y.records[r].(stage := StageOf(d)), y.now);
  }

  /** A request that has not arrived has not been admitted. */
  ghost predicate ArrivalsWait(y: System) {
    forall r :: 0 <= r < |y.records| && y.now < y.records[r].arrival ==> y.records[r].stage.ExternalWait?
  }

  /** Some record waits for exactly time `t`. */
  ghost predicate WaitEnds(y: System, t: nat) {
    exists r :: 0 <= r < |y.records| && RecordCandidate(y.records[r], y.now, t)
  }

  lemma MoveDrops(rows: seq<Hbm.Row>, y: System, t: nat)
    requires HbmRun.Valid(rows, y.hbm) && y.hbm.now <= t && y.now <= t
    ensures Measure(MoveBackends(rows, y, t)) <= Measure(y)
    ensures AdmittedUpTo(y, |y.records|) && ArrivalsWait(y) && WaitEnds(y, t) && y.now < t ==>
              Measure(MoveBackends(rows, y, t)) < Measure(y)
  {
    WaitingRank(y.records, y.now, t);
    if r :| AdmittedUpTo(y, |y.records|) && 0 <= r < |y.records| && RecordCandidate(y.records[r], y.now, t) {
      assert StillWaits(y, y.records[r]);
    }
  }

  lemma DeliverDrops(y: System, r: nat, time: nat)
    requires r < |y.records| && y.records[r].job.Some? && y.records[r].job.value < |y.fabric.jobs|
    requires y.records[r].stage.BackendPending? && y.fabric.jobs[y.records[r].job.value].state.BackendReserved?
    ensures Measure(Deliver(y, r, time)) < Measure(y)
  {
    var z := Deliver(y, r, time);
    UpdateRank(y.records, r, z.records[r], y.now);
    RankStays(y.fabric.jobs, y.records[r].job.value, z.fabric.jobs[y.records[r].job.value]);
  }

  lemma LaterDrops(a: Fabric.State, b: Fabric.State)
    requires FabricProgress.Later(a, b)
    ensures FabricAdvance.TotalRank(b.jobs) <= FabricAdvance.TotalRank(a.jobs)
    ensures FabricProgress.SomeDropped(a.jobs, b.jobs) ==> FabricAdvance.TotalRank(b.jobs) < FabricAdvance.TotalRank(a.jobs)
  {
    forall i | 0 <= i < |a.jobs| ensures FabricHistory.Rank(b.jobs[i]) <= FabricHistory.Rank(a.jobs[i]) {
      assert FabricProgress.Progressed(a.jobs[i], b.jobs[i]);
    }
    FabricAdvance.RankDrops(a.jobs, b.jobs);
  }

  lemma MoveFabricDrops(c: Fabric.Config, y: System, t: nat)
    requires FabricHistory.Good(c, y.fabric) && y.fabric.now <= t
    ensures Measure(MoveFabric(c, y, t)) <= Measure(y)
    ensures DueBy(y.fabric, t) ==> Measure(MoveFabric(c, y, t)) < Measure(y)
  {
    hide FabricHistory.Good, FabricProgress.Later, FabricProgress.SomeDropped, FabricAdvance.Advance, FabricAdvance.TotalRank;
    FabricProgress.AdvanceProgress(c, y.fabric, t);
    LaterDrops(y.fabric, FabricAdvance.Advance(c, y.fabric, t));
  }

  lemma AcceptCompletionDrops(y: System)
    requires y.seen < |y.fabric.completions| && y.fabric.completions[y.seen].job < |y.fabric.jobs|
    requires y.fabric.jobs[y.fabric.completions[y.seen].job].id < |y.records|
    requires y.records[y.fabric.jobs[y.fabric.completions[y.seen].job].id].stage.FabricPending?
    ensures Measure(AcceptCompletion(y)) < Measure(y)
  {
    var r := y.fabric.jobs[y.fabric.completions[y.seen].job].id;
    UpdateRank(y.records, r, AcceptCompletion(y).records[r], y.now);
  }

  // ---------------------------------------------------------------- an event that is due stays due

  ghost predicate DueBy(s: Fabric.State, t: nat) {
    FabricAdvance.NextEvent(s).Some? && FabricAdvance.NextEvent(s).value <= t
  }

  lemma MarkKeepsDue(s: Fabric.State, i: nat, time: nat, t: nat)
    requires i < |s.jobs| && s.jobs[i].state.BackendReserved? && DueBy(s, t)
    ensures DueBy(FabricCalls.MarkReady(s, i, time), t)
  {
    var r := FabricCalls.MarkReady(s, i, time);
    var n :| 0 <= n < |s.jobs| && Fabric.DueTime(s.jobs[n]) == FabricAdvance.NextEvent(s);
    assert r.jobs[n] == s.jobs[n];
  }
}

/**
 What a single transition does to one job, seen from outside: the work it still
 has to do, its rank in the lifecycle, and the log it leaves behind.
 */
module FabricHistory {
  import opened Wrappers
  import opened Fabric
  import opened FabricOwnership

  // ---------------------------------------------------------------- work and rank

  /** Stage durations from a filled HBF bank to the GPU. */
  function OnwardWork(c: Config, j: Job): nat
    requires SourceOk(c, j.source, j.route) && j.source.Hbf?
  {
    if j.route.Direct? then Duration(TimingOf(c, j, HbfDirect), j.bytes)
    else Duration(TimingOf(c, j, HbfRelay), j.bytes) + Duration(TimingOf(c, j, HbmGpu), j.bytes)
  }

  /** The sum of the stage durations of the job's own route; a reserved source is not filled again. */
  function RouteWork(c: Config, j: Job): nat
    requires SourceOk(c, j.source, j.route)
  {
    if j.source.Hbm? then Duration(TimingOf(c, j, HbmGpu), j.bytes)
    else (if j.arrival.None? then Duration(TimingOf(c, j, HbfFill), j.bytes) else 0) + OnwardWork(c, j)
  }

  /** Durations of the stages that have not started yet. */
  function UnstartedWork(c: Config, j: Job): nat
    requires SourceOk(c, j.source, j.route) && StateOk(j)
  {
    match j.state
    case WaitReady => RouteWork(c, j)
    case BackendReserved => RouteWork(c, j)
    case BackendReadyPending => RouteWork(c, j)
    case MediaReady => RouteWork(c, j)
    case ReadyHbf => OnwardWork(c, j)
    case ReadyHbm => Duration(TimingOf(c, j, HbmGpu), j.bytes)
    case HbmReady => RouteWork(c, j)
    case Running(HbfFill, _) => OnwardWork(c, j)
    case Running(HbfRelay, _) => Duration(TimingOf(c, j, HbmGpu), j.bytes)
    case Running(_, _) => 0
    case Done => 0
  }

  /** Nanoseconds of stage time the job still needs, counting the rest of a running stage. */
  function Remaining(c: Config, now: nat, j: Job): int
    requires SourceOk(c, j.source, j.route) && StateOk(j)
  {
    UnstartedWork(c, j) + if j.state.Running? then j.state.end - now else 0
  }

  /** Position in the lifecycle; every transition lowers it. */
  function Rank(j: Job): nat {
    match j.state
    case BackendReserved => 9
    case BackendReadyPending => 8
    case WaitReady => 8
    case MediaReady => 7
    case Running(HbfFill, _) => 6
    case ReadyHbf => 5
    case Running(HbfRelay, _) => 4
    case ReadyHbm => 3
    case HbmReady => 3
    case Running(_, _) => 1
    case Done => 0
  }

  // ---------------------------------------------------------------- invariants over time and log

  predicate IsPending(j: Job) {
    j.state.WaitReady? || j.state.BackendReadyPending?
  }

  /** No event lies in the past, and no job is ahead of its ready time plus its route's work. */
  ghost predicate OnTime(c: Config, now: nat, j: Job)
    requires JobOk(c, j)
  {
    && (DueTime(j).Some? ==> now <= DueTime(j).value)
    && (j.ready.Some? && !IsPending(j) ==> j.ready.value + RouteWork(c, j) <= now + Remaining(c, now, j))
  }

  predicate StageFits(j: Job, stage: StageName) {
    && (stage == HbmGpu ==> j.source.Hbm? || j.route.Relay?)
    && (stage != HbmGpu ==> j.source.Hbf?)
    && (stage == HbfRelay ==> j.route.Relay?)
  }

  /** A logged start names the link and duration of its stage; it is over, or still running. */
  ghost predicate StartOk(c: Config, s: State, e: Event)
    requires Shape(c, s) && e.Start?
  {
    && e.job < |s.jobs| && StageFits(s.jobs[e.job], e.stage)
    && e.link == LinkOf(c, s.jobs[e.job], e.stage)
    && e.end == e.start + Duration(TimingOf(c, s.jobs[e.job], e.stage), s.jobs[e.job].bytes)
    && e.start <= s.now
    && (e.end <= s.now || s.jobs[e.job].state == Running(e.stage, e.end))
  }

  /** Intervals started on one link never overlap. */
  ghost predicate Exclusive(events: seq<Event>) {
    forall p, q :: 0 <= p < q < |events| && events[p].Start? && events[q].Start? && events[p].link == events[q].link
      ==> events[p].end <= events[q].start
  }

  ghost predicate CompletionOk(c: Config, s: State, d: Completion)
    requires Shape(c, s)
  {
    && d.job < |s.jobs| && s.jobs[d.job].state.Done? && d.ready == s.jobs[d.job].ready
    && d.time <= s.now && d.ready.value + RouteWork(c, s.jobs[d.job]) <= d.time
  }

  ghost predicate CompletedOnce(completions: seq<Completion>) {
    forall p, q :: 0 <= p < q < |completions| ==> completions[p].job != completions[q].job
  }

  ghost predicate IsCompleted(completions: seq<Completion>, i: nat) {
    exists p :: 0 <= p < |completions| && completions[p].job == i
  }

  ghost predicate StartsOk(c: Config, s: State)
    requires Shape(c, s)
  {
    && (forall p :: 0 <= p < |s.events| && s.events[p].Start? ==> StartOk(c, s, s.events[p]))
    && Exclusive(s.events)
  }

  /** Each finished job has exactly one completion, no earlier than its route allows. */
  ghost predicate CompletionsOk(c: Config, s: State)
    requires Shape(c, s)
  {
    && (forall p :: 0 <= p < |s.completions| ==> CompletionOk(c, s, s.completions[p]))
    && CompletedOnce(s.completions)
    && (forall i :: 0 <= i < |s.jobs| && s.jobs[i].state.Done? ==> IsCompleted(s.completions, i))
  }

  /** The invariant of every reachable state. */
  ghost predicate Good(c: Config, s: State) {
    && Owned(c, s)
    && (forall i :: 0 <= i < |s.jobs| ==> OnTime(c, s.now, s.jobs[i]))
    && StartsOk(c, s) && CompletionsOk(c, s)
  }

  // ---------------------------------------------------------------- one transition

  predicate SameRequest(a: Job, b: Job) {
    && a.id == b.id && a.source == b.source && a.route == b.route && a.bytes == b.bytes
    && a.ready == b.ready && a.arrival == b.arrival
  }

  /** How one job looks after a transition that moved it at time `now`. */
  predicate Stepped(c: Config, now: nat, a: Job, b: Job)
    requires JobOk(c, a) && JobOk(c, b)
  {
    && SameRequest(a, b) && Rank(b) < Rank(a)
    && Remaining(c, now, b) == Remaining(c, now, a)
    && !a.state.Done? && a.ready.Some?
    && (a.state.Running? ==> a.state.end == now)
    && (IsPending(a) ==> a.ready == Some(now))
    && !IsPending(b)
    && (b.state.Running? ==>
          && b.state.end > now && StageFits(b, b.state.stage)
          && b.state.end == now + Duration(TimingOf(c, b, b.state.stage), b.bytes))
  }

  /** What the transition appends to the log. */
  predicate Logged(c: Config, s: State, r: State, i: nat)
    requires i < |r.jobs| && i < |s.jobs| && JobOk(c, r.jobs[i])
  {
    && |r.events| == |s.events| + 1 && r.events[..|s.events|] == s.events
    && (r.events[|s.events|].Start? <==> r.jobs[i].state.Running?)
    && (r.jobs[i].state.Running? ==>
          && r.events[|s.events|] == Start(r.jobs[i].state.stage, i, LinkOf(c, r.jobs[i], r.jobs[i].state.stage),
                                           s.now, r.jobs[i].state.end)
          && Holder(s, OnLink(LinkOf(c, r.jobs[i], r.jobs[i].state.stage))).None?)
    && (!r.jobs[i].state.Running? && s.jobs[i].state.Running? ==>
          r.events[|s.events|] == Complete(s.jobs[i].state.stage, i, s.now))
    && (s.jobs[i].state.BackendReadyPending? ==> r.events[|s.events|] == BackendReadyAt(i, s.now))
    && (s.jobs[i].state.WaitReady? ==> r.events[|s.events|] == MediaReadyAt(i, s.now))
    && r.completions == if r.jobs[i].state.Done? then s.completions + [Completion(i, r.jobs[i].ready, s.now)]
                        else s.completions
  }

  /** Exactly one job moved. */
  ghost predicate Moves(c: Config, s: State, r: State, i: nat)
    requires Shape(c, s) && Shape(c, r)
  {
    && r.now == s.now && i < |s.jobs| == |r.jobs|
    && (forall n :: 0 <= n < |s.jobs| && n != i ==> r.jobs[n] == s.jobs[n])
    && Stepped(c, s.now, s.jobs[i], r.jobs[i])
    && Logged(c, s, r, i)
  }

  lemma MoveKeepsStarts(c: Config, s: State, r: State, i: nat)
    requires Good(c, s) && Shape(c, r) && Moves(c, s, r, i)
    ensures StartsOk(c, r)
  {
    forall p | 0 <= p < |r.events| && r.events[p].Start? ensures StartOk(c, r, r.events[p]) {
      if p < |s.events| {
        assert r.events[p] == r.events[..|s.events|][p] == s.events[p];
        assert StartOk(c, s, s.events[p]);
      }
    }
    MoveKeepsExclusive(c, s, r, i);
  }

  lemma MoveKeepsExclusive(c: Config, s: State, r: State, i: nat)
    requires Good(c, s) && Shape(c, r) && Moves(c, s, r, i)
    ensures Exclusive(r.events)
  {
    NewestEvent(c, s, r, i);
    hide Moves, Shape;
    var last := |s.events|;
    forall p, q | 0 <= p < q < |r.events| && r.events[p].Start? && r.events[q].Start? && r.events[p].link == r.events[q].link
      ensures r.events[p].end <= r.events[q].start
    {
      assert r.events[p] == r.events[..last][p] == s.events[p];
      if q < last {
        assert r.events[q] == r.events[..last][q] == s.events[q];
      } else {
        EarlierUseIsOver(c, s, p);
      }
    }
  }

  /** A transition appends one event; if that is a start, the link was free and it starts now. */
  lemma NewestEvent(c: Config, s: State, r: State, i: nat)
    requires Shape(c, s) && Shape(c, r) && Moves(c, s, r, i)
    ensures |r.events| == |s.events| + 1 && r.events[..|s.events|] == s.events
    ensures var e := r.events[|s.events|];
            e.Start? ==> e.start == s.now && Holder(s, OnLink(e.link)).None?
  {
  }

  lemma CompletionKept(c: Config, s: State, r: State, i: nat, d: Completion)
    requires Shape(c, s) && Shape(c, r) && Moves(c, s, r, i) && CompletionOk(c, s, d)
    ensures d.job != i && CompletionOk(c, r, d)
  {
    hide RouteWork, Remaining;
  }

  lemma NewCompletion(c: Config, s: State, r: State, i: nat)
    requires Shape(c, s) && Shape(c, r) && Moves(c, s, r, i) && OnTime(c, s.now, s.jobs[i]) && r.jobs[i].state.Done?
    ensures CompletionOk(c, r, Completion(i, r.jobs[i].ready, s.now))
    ensures r.completions == s.completions + [Completion(i, r.jobs[i].ready, s.now)]
  {
  }

  lemma MoveKeepsCompletions(c: Config, s: State, r: State, i: nat)
    requires Shape(c, s) && Shape(c, r) && Moves(c, s, r, i)
    requires CompletionsOk(c, s) && OnTime(c, s.now, s.jobs[i])
    ensures CompletionsOk(c, r)
  {
    hide Shape, CompletionOk, OnTime;
    forall p | 0 <= p < |s.completions|
      ensures s.completions[p].job != i && CompletionOk(c, r, s.completions[p])
    {
      CompletionKept(c, s, r, i, s.completions[p]);
    }
    if r.jobs[i].state.Done? {
      NewCompletion(c, s, r, i);
    }
    forall n | 0 <= n < |r.jobs| && r.jobs[n].state.Done? ensures IsCompleted(r.completions, n) {
      if n == i {
        assert r.completions[|s.completions|].job == i;
      } else {
        assert IsCompleted(s.completions, n);
        var p :| 0 <= p < |s.completions| && s.completions[p].job == n;
        assert r.completions[p].job == n;
      }
    }
  }

  /** If a link is free, every logged use of it has ended. */
  lemma EarlierUseIsOver(c: Config, s: State, p: nat)
    requires Good(c, s) && p < |s.events| && s.events[p].Start?
    ensures Holder(s, OnLink(s.events[p].link)).None? ==> s.events[p].end <= s.now
  {
    var e := s.events[p];
    assert StartOk(c, s, e);
    if e.end > s.now {
      assert Claims(c, s.jobs[e.job], OnLink(e.link));
    }
  }

  lemma MoveKeepsGood(c: Config, s: State, r: State, i: nat)
    requires Good(c, s) && Owned(c, r) && Moves(c, s, r, i)
    ensures Good(c, r)
  {
    MoveKeepsStarts(c, s, r, i);
    MoveKeepsCompletions(c, s, r, i);
    forall n | 0 <= n < |r.jobs| ensures OnTime(c, r.now, r.jobs[n]) {
      assert OnTime(c, s.now, s.jobs[n]);
    }
  }

  // ---------------------------------------------------------------- every transition is such a move

  lemma FillMoves(c: Config, s: State, k: nat, i: nat, bank: nat)
    requires Good(c, s) && CanFill(s, k, i, bank)
    ensures Good(c, StartFill(c, s, k, i, bank)) && Moves(c, s, StartFill(c, s, k, i, bank), i)
  {
    FillKeepsOwned(c, s, k, i, bank);
    var r := StartFill(c, s, k, i, bank);
    assert r.events[..|s.events|] == s.events;
    MoveKeepsGood(c, s, r, i);
  }

  lemma DirectMoves(c: Config, s: State, i: nat)
    requires Good(c, s) && CanDirect(s, i)
    ensures Good(c, StartDirect(c, s, i)) && Moves(c, s, StartDirect(c, s, i), i)
  {
    DirectKeepsOwned(c, s, i);
    var r := StartDirect(c, s, i);
    assert r.events[..|s.events|] == s.events;
    MoveKeepsGood(c, s, r, i);
  }

  lemma RelayMoves(c: Config, s: State, i: nat, bank: nat)
    requires Good(c, s) && CanRelay(c, s, i, bank)
    ensures Good(c, StartRelay(c, s, i, bank)) && Moves(c, s, StartRelay(c, s, i, bank), i)
  {
    RelayKeepsOwned(c, s, i, bank);
    var r := StartRelay(c, s, i, bank);
    assert r.events[..|s.events|] == s.events;
    MoveKeepsGood(c, s, r, i);
  }

  lemma GpuMoves(c: Config, s: State, k: nat, i: nat)
    requires Good(c, s) && CanGpu(c, s, k, i)
    ensures Good(c, StartGpu(c, s, k, i)) && Moves(c, s, StartGpu(c, s, k, i), i)
  {
    GpuKeepsOwned(c, s, k, i);
    var r := StartGpu(c, s, k, i);
    assert r.events[..|s.events|] == s.events;
    MoveKeepsGood(c, s, r, i);
  }

  lemma CompleteMoves(c: Config, s: State, i: nat)
    requires Good(c, s) && IsEnding(s, i)
    ensures Good(c, CompleteStage(c, s, i)) && Moves(c, s, CompleteStage(c, s, i), i)
  {
    CompleteKeepsOwned(c, s, i);
    var r := CompleteStage(c, s, i);
    assert r.events[..|s.events|] == s.events;
    MoveKeepsGood(c, s, r, i);
  }

  lemma WakeMoves(c: Config, s: State, i: nat)
    requires Good(c, s) && IsWaking(s, i)
    ensures Good(c, WakeReserved(s, i)) && Moves(c, s, WakeReserved(s, i), i)
  {
    WakeKeepsOwned(c, s, i);
    var r := WakeReserved(s, i);
    assert r.events[..|s.events|] == s.events;
    MoveKeepsGood(c, s, r, i);
  }

  lemma ArriveMoves(c: Config, s: State, i: nat)
    requires Good(c, s) && IsArriving(s, i)
    ensures Good(c, ArriveMedia(s, i)) && Moves(c, s, ArriveMedia(s, i), i)
  {
    ArriveKeepsOwned(c, s, i);
    var r := ArriveMedia(s, i);
    assert r.events[..|s.events|] == s.events;
    MoveKeepsGood(c, s, r, i);
  }
}

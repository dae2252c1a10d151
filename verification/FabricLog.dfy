/** The order of the completion log: by time, and at one time by sequence number. */
module FabricLog {
  import opened Wrappers
  import opened Fabric
  import opened FabricHistory
  import opened FabricRun
  import opened FabricAdvance
  import opened FabricCalls
  import opened FabricTheorems

  predicate Before(a: Completion, b: Completion) {
    a.time < b.time || (a.time == b.time && a.job < b.job)
  }

  ghost predicate InOrder(log: seq<Completion>) {
    forall p, q :: 0 <= p < q < |log| ==> Before(log[p], log[q])
  }

  /** Everything logged lies before job `k` at time `now`. */
  ghost predicate UpTo(log: seq<Completion>, now: nat, k: nat) {
    forall p :: 0 <= p < |log| ==> log[p].time < now || (log[p].time == now && log[p].job < k)
  }

  ghost predicate NoneEnding(s: State) {
    forall i :: 0 <= i < |s.jobs| && s.jobs[i].state.Running? ==> s.now < s.jobs[i].state.end
  }

  /** Holds between calls. */
  ghost predicate Tidy(s: State) {
    InOrder(s.completions) && NoneEnding(s) && forall p :: 0 <= p < |s.completions| ==> s.completions[p].time <= s.now
  }

  // ---------------------------------------------------------------- completing what is due

  lemma CompletedLog(c: Config, s: State, k: nat)
    requires Shape(c, s) && IsEnding(s, k)
    ensures var t := CompleteStage(c, s, k);
            && t.now == s.now && |t.jobs| == |s.jobs|
            && (t.completions == s.completions || t.completions == s.completions + [Completion(k, s.jobs[k].ready, s.now)])
  {
  }

  lemma AppendInOrder(log: seq<Completion>, d: Completion, k: nat)
    requires InOrder(log) && UpTo(log, d.time, k) && d.job == k
    ensures InOrder(log + [d]) && UpTo(log + [d], d.time, k + 1)
  {
  }

  lemma CompleteAppends(c: Config, s: State, k: nat)
    requires Good(c, s) && IsEnding(s, k) && InOrder(s.completions) && UpTo(s.completions, s.now, k)
    ensures Shape(c, s)
    ensures var t := CompleteStage(c, s, k);
            && InOrder(t.completions) && UpTo(t.completions, t.now, k + 1) && t.now == s.now && |t.jobs| == |s.jobs|
            && Good(c, t)
  {
    CompleteMoves(c, s, k);
    hide Good, InOrder, UpTo, CompleteStage, Moves;
    CompletedLog(c, s, k);
    AppendInOrder(s.completions, Completion(k, s.jobs[k].ready, s.now), k);
    UpToMore(s.completions, s.now, k);
  }

  lemma {:induction false} CompleteDueInOrder(c: Config, s: State, k: nat)
    requires Good(c, s) && k <= |s.jobs| && InOrder(s.completions) && UpTo(s.completions, s.now, k)
    ensures var r := CompleteDue(c, s, k);
            InOrder(r.completions) && UpTo(r.completions, r.now, |s.jobs|)
    decreases |s.jobs| - k
  {
    hide Good, Evolves, InOrder, UpTo;
    if k < |s.jobs| {
      if IsEnding(s, k) {
        CompleteAppends(c, s, k);
        CompleteDueInOrder(c, CompleteStage(c, s, k), k + 1);
      } else {
        UpToMore(s.completions, s.now, k);
        CompleteDueInOrder(c, s, k + 1);
      }
    }
  }

  lemma UpToMore(log: seq<Completion>, now: nat, k: nat)
    requires UpTo(log, now, k)
    ensures UpTo(log, now, k + 1)
  {
  }

  lemma {:induction false} NothingToComplete(c: Config, s: State, k: nat)
    requires Good(c, s) && k <= |s.jobs| && NoneEnding(s)
    ensures CompleteDue(c, s, k) == s
    decreases |s.jobs| - k
  {
    hide Good, Evolves;
    if k < |s.jobs| {
      NothingToComplete(c, s, k + 1);
    }
  }

  // ---------------------------------------------------------------- everything else leaves the log alone

  lemma {:induction false} WakeKeepsLog(c: Config, s: State, k: nat)
    requires Good(c, s) && k <= |s.jobs|
    ensures WakeDue(c, s, k).completions == s.completions
    decreases |s.jobs| - k
  {
    hide Good, Evolves;
    if k < |s.jobs| {
      if IsWaking(s, k) {
        WakeMoves(c, s, k);
        MoveTicks(c, s, WakeReserved(s, k), k);
        WakeKeepsLog(c, WakeReserved(s, k), k + 1);
      } else {
        WakeKeepsLog(c, s, k + 1);
      }
    }
  }

  lemma {:induction false} ArriveKeepsLog(c: Config, s: State, k: nat)
    requires Good(c, s) && k <= |s.jobs|
    ensures ArriveDue(c, s, k).completions == s.completions
    decreases |s.jobs| - k
  {
    hide Good, Evolves;
    if k < |s.jobs| {
      if IsArriving(s, k) {
        ArriveMoves(c, s, k);
        MoveTicks(c, s, ArriveMedia(s, k), k);
        ArriveKeepsLog(c, ArriveMedia(s, k), k + 1);
      } else {
        ArriveKeepsLog(c, s, k + 1);
      }
    }
  }

  lemma {:induction false} FillsKeepLog(c: Config, s: State, k: nat)
    requires Good(c, s) && k <= |s.hbf|
    ensures FillStacks(c, s, k).completions == s.completions
    decreases |s.hbf| - k
  {
    hide Good, Evolves, Grows;
    if k < |s.hbf| {
      FillsKeepLog(c, FillStack(c, s, k), k + 1);
    }
  }

  lemma {:induction false} SendsKeepLog(c: Config, s: State, i: nat)
    requires Good(c, s) && i <= |s.jobs|
    ensures SendJobs(c, s, i).completions == s.completions
    decreases |s.jobs| - i
  {
    hide Good, Evolves, Grows;
    if i < |s.jobs| {
      SendsKeepLog(c, SendJob(c, s, i), i + 1);
    }
  }

  lemma {:induction false} DrainsKeepLog(c: Config, s: State, k: nat)
    requires Good(c, s) && k <= |s.hbm|
    ensures GpuStacks(c, s, k).completions == s.completions
    decreases |s.hbm| - k
  {
    hide Good, Evolves, Grows;
    if k < |s.hbm| {
      DrainsKeepLog(c, GpuStack(c, s, k), k + 1);
    }
  }

  lemma AdmitKeepsLog(c: Config, s: State)
    requires Good(c, s)
    ensures Admit(c, s).completions == s.completions
  {
    hide Good, Evolves, Grows;
    var filled := FillStacks(c, s, 0);
    var sent := SendJobs(c, filled, 0);
    FillsKeepLog(c, s, 0);
    SendsKeepLog(c, filled, 0);
    DrainsKeepLog(c, sent, 0);
  }

  // ---------------------------------------------------------------- rounds and calls

  lemma DueInOrder(c: Config, s: State)
    requires Good(c, s) && InOrder(s.completions) && forall p :: 0 <= p < |s.completions| ==> s.completions[p].time <= s.now
    requires NoneEnding(s) || UpTo(s.completions, s.now, 0)
    ensures InOrder(ProcessDue(c, s).completions)
    ensures forall p :: 0 <= p < |ProcessDue(c, s).completions| ==> ProcessDue(c, s).completions[p].time <= s.now
  {
    hide Good, Evolves, InOrder, NoneEnding;
    var ended := CompleteDue(c, s, 0);
    if NoneEnding(s) {
      NothingToComplete(c, s, 0);
    } else {
      CompleteDueInOrder(c, s, 0);
    }
    var woken := WakeDue(c, ended, 0);
    WakeKeepsLog(c, ended, 0);
    ArriveKeepsLog(c, woken, 0);
  }

  lemma RoundIsTidy(c: Config, s: State, t: nat)
    requires Good(c, s) && s.now <= t && NothingBefore(s, t) && Tidy(s)
    ensures Tidy(Round(c, s, t))
  {
    hide Good, Evolves, Grows, NothingBefore, InOrder;
    TimePasses(c, s, t);
    RoundLeavesNothingDue(c, s, t);
    var w := s.(now := t);
    assert NoneEnding(w) || UpTo(w.completions, w.now, 0);
    DueInOrder(c, w);
    AdmitKeepsLog(c, ProcessDue(c, w));
    LaterEnds(Round(c, s, t), t);
  }

  lemma LaterEnds(s: State, t: nat)
    requires NothingBefore(s, t + 1) && s.now == t
    ensures NoneEnding(s)
  {
    forall i | 0 <= i < |s.jobs| && s.jobs[i].state.Running? ensures t < s.jobs[i].state.end {
      assert DueTime(s.jobs[i]).Some?;
    }
  }

  lemma {:induction false} AdvanceIsTidy(c: Config, s: State, horizon: nat)
    requires Good(c, s) && s.now <= horizon && Tidy(s)
    ensures Tidy(Advance(c, s, horizon))
    decreases TotalRank(s.jobs)
  {
    hide Good, NothingBefore, Ticks, InOrder, NoneEnding;
    NextIsDue(c, s);
    var next := NextEvent(s);
    if next.Some? && next.value <= horizon {
      RoundDropsRank(c, s, next.value);
      RoundIsGood(c, s, next.value);
      RoundIsTidy(c, s, next.value);
      AdvanceIsTidy(c, Round(c, s, next.value), horizon);
    } else {
      LaterEnds(Advance(c, s, horizon), horizon);
    }
  }

  lemma ApplyIsTidy(c: Config, s: State, call: Call)
    requires Stable(c, s) && Tidy(s)
    ensures Tidy(Apply(c, s, call))
  {
    hide Good, Settled, UniqueIds, InOrder, Advance;
    StableShape(c, s);
    match call
    case AdvanceCall(horizon) =>
      if s.now <= horizon {
        AdvanceIsTidy(c, s, horizon);
      }
    case _ =>
  }

  /** In every run completions are logged by time, and those of one time by sequence number. */
  lemma {:induction false} CompletionsInOrder(c: Config, calls: seq<Call>)
    ensures Tidy(Run(c, calls)) && InOrder(Run(c, calls).completions)
    decreases |calls|
  {
    hide Stable, InOrder, NoneEnding, Apply;
    if calls == [] {
      FirstIsTidy(c);
    } else {
      var front := calls[..|calls| - 1];
      CompletionsInOrder(c, front);
      ApplyIsTidy(c, Run(c, front), calls[|calls| - 1]);
    }
  }

  lemma FirstIsTidy(c: Config)
    ensures Tidy(Init(c))
  {
  }
}

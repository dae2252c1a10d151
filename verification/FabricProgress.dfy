/** What advancing does to each job, for drivers that interleave calls with advances. */
module FabricProgress {
  import opened Wrappers
  import opened Fabric
  import opened FabricHistory
  import opened FabricRun
  import opened FabricAdvance
  import opened FabricCalls

  /** The same request, no further back in its lifecycle; waiting for the backend or not, as before. */
  predicate Progressed(a: Job, b: Job) {
    SameRequest(a, b) && Rank(b) <= Rank(a) && (a.state.BackendReserved? <==> b.state.BackendReserved?)
  }

  ghost predicate AllProgressed(a: seq<Job>, b: seq<Job>) {
    |a| == |b| && forall i :: 0 <= i < |a| ==> Progressed(a[i], b[i])
  }

  ghost predicate SomeDropped(a: seq<Job>, b: seq<Job>) {
    |a| == |b| && exists i :: 0 <= i < |a| && Rank(b[i]) < Rank(a[i])
  }

  lemma ProgressTrans(a: seq<Job>, b: seq<Job>, d: seq<Job>)
    requires AllProgressed(a, b) && AllProgressed(b, d)
    ensures AllProgressed(a, d)
    ensures SomeDropped(a, b) || SomeDropped(b, d) ==> SomeDropped(a, d)
  {
    forall i | 0 <= i < |a| ensures Progressed(a[i], d[i]) {
      assert Progressed(a[i], b[i]) && Progressed(b[i], d[i]);
    }
    if SomeDropped(a, b) {
      var i :| 0 <= i < |a| && Rank(b[i]) < Rank(a[i]);
      assert Progressed(b[i], d[i]);
    } else if SomeDropped(b, d) {
      var i :| 0 <= i < |b| && Rank(d[i]) < Rank(b[i]);
      assert Progressed(a[i], b[i]);
    }
  }

  /** `r` is a later state of the same jobs. */
  ghost predicate Later(s: State, r: State) {
    AllProgressed(s.jobs, r.jobs) && s.completions <= r.completions
  }

  lemma LaterTrans(s: State, t: State, r: State)
    requires Later(s, t) && Later(t, r)
    ensures Later(s, r)
    ensures SomeDropped(s.jobs, t.jobs) || SomeDropped(t.jobs, r.jobs) ==> SomeDropped(s.jobs, r.jobs)
  {
    ProgressTrans(s.jobs, t.jobs, r.jobs);
  }

  lemma TickProgress(c: Config, s: State, r: State)
    requires Ticks(c, s, r)
    ensures Later(s, r)
    ensures NextEvent(s) == Some(s.now) && NothingBefore(r, s.now + 1) ==> SomeDropped(s.jobs, r.jobs)
  {
    forall i | 0 <= i < |s.jobs| ensures Progressed(s.jobs[i], r.jobs[i]) {
      assert Evolved(c, s.now, s.jobs[i], r.jobs[i]);
    }
    if NextEvent(s) == Some(s.now) && NothingBefore(r, s.now + 1) {
      var i :| 0 <= i < |s.jobs| && DueTime(s.jobs[i]) == Some(s.now);
      assert Evolved(c, s.now, s.jobs[i], r.jobs[i]);
      assert Rank(r.jobs[i]) < Rank(s.jobs[i]);
    }
  }

  lemma RoundProgress(c: Config, s: State, t: nat)
    requires Good(c, s) && NextEvent(s) == Some(t) && s.now <= t && NothingBefore(s, t)
    ensures Later(s, Round(c, s, t)) && SomeDropped(s.jobs, Round(c, s, t).jobs)
  {
    hide Good, NothingBefore, SomeDropped, Ticks, Round;
    RoundLeavesNothingDue(c, s, t);
    TickProgress(c, s.(now := t), Round(c, s, t));
  }

  lemma {:induction false} AdvanceProgress(c: Config, s: State, horizon: nat)
    requires Good(c, s) && s.now <= horizon
    ensures Later(s, Advance(c, s, horizon))
    ensures NextEvent(s).Some? && NextEvent(s).value <= horizon ==> SomeDropped(s.jobs, Advance(c, s, horizon).jobs)
    decreases TotalRank(s.jobs)
  {
    hide Good, NothingBefore, Later, SomeDropped, Round;
    NextIsDue(c, s);
    var next := NextEvent(s);
    if next.Some? && next.value <= horizon {
      var r := Round(c, s, next.value);
      RoundDropsRank(c, s, next.value);
      RoundIsGood(c, s, next.value);
      RoundProgress(c, s, next.value);
      AdvanceProgress(c, r, horizon);
      LaterTrans(s, r, Advance(c, r, horizon));
    } else {
      NoProgress(s, horizon);
    }
  }

  lemma NoProgress(s: State, horizon: nat)
    ensures Later(s, s.(now := horizon))
  {
  }
}

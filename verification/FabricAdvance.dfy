/** Advancing the fabric to a horizon, and the calls between which it rests. */
module FabricAdvance {
  import opened Wrappers
  import opened Fabric
  import opened FabricOwnership
  import opened FabricHistory
  import opened FabricRun

  // ---------------------------------------------------------------- the next event

  function NextDue(jobs: seq<Job>): (t: Option<nat>)
    ensures t.None? <==> forall i :: 0 <= i < |jobs| ==> DueTime(jobs[i]).None?
    ensures t.Some? ==> exists i :: 0 <= i < |jobs| && DueTime(jobs[i]) == t
    ensures t.Some? ==> forall i :: 0 <= i < |jobs| && DueTime(jobs[i]).Some? ==> t.value <= DueTime(jobs[i]).value
  {
    if jobs == [] then None
    else
      var last := |jobs| - 1;
      var rest := NextDue(jobs[..last]);
      assert forall i :: 0 <= i < last ==> jobs[i] == jobs[..last][i];
      var due := DueTime(jobs[last]);
      if rest.None? then due
      else if due.None? || rest.value <= due.value then
        (assert exists i :: 0 <= i < last && DueTime(jobs[..last][i]) == rest; rest)
      else due
  }

  function NextEvent(s: State): (t: Option<nat>) {
    NextDue(s.jobs)
  }

  ghost predicate NothingBefore(s: State, t: nat) {
    forall i :: 0 <= i < |s.jobs| && DueTime(s.jobs[i]).Some? ==> t <= DueTime(s.jobs[i]).value
  }

  /** Waiting keeps the invariant as long as no event is skipped. */
  lemma TimePasses(c: Config, s: State, t: nat)
    requires Good(c, s) && s.now <= t && NothingBefore(s, t)
    ensures Good(c, s.(now := t))
  {
    var r := s.(now := t);
    SameSlots(c, s, r);
    forall i | 0 <= i < |r.jobs| ensures OnTime(c, t, r.jobs[i]) {
      assert OnTime(c, s.now, s.jobs[i]);
    }
    forall p | 0 <= p < |r.events| && r.events[p].Start? ensures StartOk(c, r, r.events[p]) {
      assert StartOk(c, s, s.events[p]);
    }
    forall p | 0 <= p < |r.completions| ensures CompletionOk(c, r, r.completions[p]) {
      assert CompletionOk(c, s, s.completions[p]);
    }
  }

  lemma SameSlots(c: Config, s: State, r: State)
    requires Owned(c, s) && r.jobs == s.jobs && r.hbf == s.hbf && r.hbm == s.hbm
    ensures Owned(c, r)
  {
    assert forall slot :: Holder(r, slot) == Holder(s, slot);
  }

  // ---------------------------------------------------------------- one round of the loop

  /** Completions, then backend data, then arrivals that are due now. */
  function ProcessDue(c: Config, s: State): (r: State)
    requires Good(c, s)
    ensures Ticks(c, s, r)
    ensures NothingBefore(r, r.now + 1)
  {
    hide Good, Evolves, NothingBefore, IsEnding, IsWaking, IsArriving;
    var ended := CompleteDue(c, s, 0);
    var woken := WakeDue(c, ended, 0);
    var r := ArriveDue(c, woken, 0);
    TicksTrans(c, s, ended, woken);
    TicksTrans(c, s, woken, r);
    NothingLeft(c, ended, woken, r);
    r
  }

  lemma NothingLeft(c: Config, ended: State, woken: State, r: State)
    requires Ticks(c, ended, woken) && Ticks(c, woken, r)
    requires forall i :: 0 <= i < |ended.jobs| ==> !IsEnding(ended, i)
    requires forall i :: 0 <= i < |woken.jobs| ==> !IsWaking(woken, i)
    requires forall i :: 0 <= i < |r.jobs| ==> !IsArriving(r, i)
    ensures NothingBefore(r, r.now + 1)
  {
    forall i | 0 <= i < |r.jobs| && DueTime(r.jobs[i]).Some? ensures r.now + 1 <= DueTime(r.jobs[i]).value {
      NotDueAgain(c, ended, woken, i);
      NotDueAgain(c, woken, r, i);
      assert OnTime(c, r.now, r.jobs[i]);
    }
  }

  /** One round: everything due at `t`, then admission. */
  function Round(c: Config, s: State, t: nat): (r: State)
    requires Good(c, s) && s.now <= t && NothingBefore(s, t)
    ensures Ticks(c, s.(now := t), r)
  {
    hide Good, Evolves, Grows, NothingBefore;
    TimePasses(c, s, t);
    var due := ProcessDue(c, s.(now := t));
    var r := Admit(c, due);
    TicksTrans(c, s.(now := t), due, r);
    r
  }

  lemma RoundLeavesNothingDue(c: Config, s: State, t: nat)
    requires Good(c, s) && s.now <= t && NothingBefore(s, t)
    ensures NothingBefore(Round(c, s, t), t + 1)
  {
    hide Good, Evolves, Grows, NothingBefore;
    TimePasses(c, s, t);
    var due := ProcessDue(c, s.(now := t));
    StillNothingDue(c, due, Admit(c, due));
  }

  lemma StillNothingDue(c: Config, s: State, r: State)
    requires Ticks(c, s, r) && NothingBefore(s, s.now + 1)
    ensures NothingBefore(r, r.now + 1)
  {
    forall i | 0 <= i < |r.jobs| && DueTime(r.jobs[i]).Some? ensures r.now + 1 <= DueTime(r.jobs[i]).value {
      assert Evolved(c, s.now, s.jobs[i], r.jobs[i]);
      assert OnTime(c, r.now, r.jobs[i]);
    }
  }

  // ---------------------------------------------------------------- ranks

  function TotalRank(jobs: seq<Job>): nat {
    if jobs == [] then 0 else Rank(jobs[0]) + TotalRank(jobs[1..])
  }

  lemma {:induction false} RankDrops(a: seq<Job>, b: seq<Job>)
    requires |a| == |b| && forall i :: 0 <= i < |a| ==> Rank(b[i]) <= Rank(a[i])
    ensures TotalRank(b) <= TotalRank(a)
    ensures (exists i :: 0 <= i < |a| && Rank(b[i]) < Rank(a[i])) ==> TotalRank(b) < TotalRank(a)
  {
    if a != [] {
      RankDrops(a[1..], b[1..]);
      if i :| 1 <= i < |a| && Rank(b[i]) < Rank(a[i]) {
        assert Rank(b[1..][i - 1]) < Rank(a[1..][i - 1]);
      }
    }
  }

  lemma RoundDropsRank(c: Config, s: State, t: nat)
    requires Good(c, s) && NextEvent(s) == Some(t) && s.now <= t && NothingBefore(s, t)
    ensures TotalRank(Round(c, s, t).jobs) < TotalRank(s.jobs)
  {
    hide Good, Evolves, NothingBefore, Round;
    RoundLeavesNothingDue(c, s, t);
    TickDropsRank(c, s.(now := t), Round(c, s, t));
  }

  lemma TickDropsRank(c: Config, s: State, r: State)
    requires Ticks(c, s, r) && NextEvent(s) == Some(s.now) && NothingBefore(r, s.now + 1)
    ensures TotalRank(r.jobs) < TotalRank(s.jobs)
  {
    forall i | 0 <= i < |s.jobs| ensures Rank(r.jobs[i]) <= Rank(s.jobs[i]) {
      assert Evolved(c, s.now, s.jobs[i], r.jobs[i]);
    }
    var i :| 0 <= i < |s.jobs| && DueTime(s.jobs[i]) == Some(s.now);
    assert Evolved(c, s.now, s.jobs[i], r.jobs[i]);
    RankDrops(s.jobs, r.jobs);
  }

  // ---------------------------------------------------------------- advance

  lemma NextIsDue(c: Config, s: State)
    requires Good(c, s)
    ensures NextEvent(s).Some? ==> s.now <= NextEvent(s).value && NothingBefore(s, NextEvent(s).value)
    ensures forall h: nat :: NextEvent(s).None? || h <= NextEvent(s).value ==> NothingBefore(s, h)
  {
    forall i | 0 <= i < |s.jobs| ensures OnTime(c, s.now, s.jobs[i]) {
    }
  }

  function Advance(c: Config, s: State, horizon: nat): (r: State)
    requires Good(c, s) && s.now <= horizon
    ensures Good(c, r) && r.now == horizon && NothingBefore(r, horizon + 1)
    decreases TotalRank(s.jobs)
  {
    hide Good, Ticks, NothingBefore;
    NextIsDue(c, s);
    var next := NextEvent(s);
    if next.None? || next.value > horizon then
      TimePasses(c, s, horizon);
      var r := s.(now := horizon);
      NextIsDue(c, r);
      r
    else
      RoundDropsRank(c, s, next.value);
      RoundIsGood(c, s, next.value);
      Advance(c, Round(c, s, next.value), horizon)
  }

  lemma RoundIsGood(c: Config, s: State, t: nat)
    requires Good(c, s) && s.now <= t && NothingBefore(s, t)
    ensures Good(c, Round(c, s, t)) && Round(c, s, t).now == t
  {
  }
}

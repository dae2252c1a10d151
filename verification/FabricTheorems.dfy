/** What holds of every run of the fabric. */
module FabricTheorems {
  import opened Wrappers
  import opened Fabric
  import opened FabricHistory
  import opened FabricRun
  import opened FabricAdvance
  import opened FabricCalls

  // ---------------------------------------------------------------- every reachable state

  datatype Call =
    | EnqueueCall(id: nat, source: Source, route: Route, bytes: int, ready: int)
    | ReserveCall(id: nat, source: Source, route: Route, bytes: int, arrival: int)
    | MarkReadyCall(id: nat, completion: int)
    | AdvanceCall(horizon: int)

  /** A call that raises leaves the fabric as it was. */
  function Apply(c: Config, s: State, call: Call): State
    requires Stable(c, s)
  {
    match call
    case EnqueueCall(id, source, route, bytes, ready) =>
      var r := Enqueue(c, s, id, source, route, bytes, ready);
      if r.Some? then r.value else s
    case ReserveCall(id, source, route, bytes, arrival) =>
      var r := ReserveSource(c, s, id, source, route, bytes, arrival);
      if r.Reserved? then r.state else s
    case MarkReadyCall(id, completion) =>
      var r := MarkSourceReady(s, id, completion);
      if r.Some? then r.value else s
    case AdvanceCall(horizon) => if s.now <= horizon then Advance(c, s, horizon) else s
  }

  lemma ApplyIsStable(c: Config, s: State, call: Call)
    requires Stable(c, s)
    ensures Stable(c, Apply(c, s, call))
  {
    hide Good, Settled, UniqueIds;
    match call
    case EnqueueCall(id, source, route, bytes, ready) =>
      if Enqueue(c, s, id, source, route, bytes, ready).Some? {
        EnqueueIsStable(c, s, id, source, route, bytes, ready);
      }
    case ReserveCall(id, source, route, bytes, arrival) =>
      assert |s.hbf| == |c.hbf| && |s.hbm| == |c.hbm| by { StableShape(c, s); }
      if ReserveSource(c, s, id, source, route, bytes, arrival).Reserved? {
        ReserveIsStable(c, s, id, source, route, bytes, arrival);
      }
    case MarkReadyCall(id, completion) =>
      var i := IndexOf(s.jobs, id);
      if MarkSourceReady(s, id, completion).Some? {
        MarkIsStable(c, s, i.value, completion);
      }
    case AdvanceCall(horizon) =>
      if s.now <= horizon {
        AdvanceIsStable(c, s, horizon);
      }
  }

  lemma StableShape(c: Config, s: State)
    requires Stable(c, s)
    ensures Shape(c, s)
  {
  }

  /** The state after a list of calls on a new fabric. */
  function Run(c: Config, calls: seq<Call>): (s: State)
    ensures Stable(c, s)
  {
    hide Stable;
    if calls == [] then
      InitIsStable(c);
      Init(c)
    else
      var s := Run(c, calls[..|calls| - 1]);
      ApplyIsStable(c, s, calls[|calls| - 1]);
      Apply(c, s, calls[|calls| - 1])
  }

  /** In every run the intervals logged on one link are disjoint. */
  lemma LinksAreExclusive(c: Config, calls: seq<Call>, p: nat, q: nat)
    requires p < q < |Run(c, calls).events|
    requires Run(c, calls).events[p].Start? && Run(c, calls).events[q].Start?
    requires Run(c, calls).events[p].link == Run(c, calls).events[q].link
    ensures Run(c, calls).events[p].end <= Run(c, calls).events[q].start
  {
    assert Exclusive(Run(c, calls).events);
  }

  /** The link and the time of a stage, read off the configuration. */
  predicate StageOnRow(c: Config, j: Job, e: Event)
    requires e.Start?
  {
    match e.stage
    case HbfFill =>
      && j.source.Hbf? && j.source.k < |c.hbf| && e.link == FillLink(j.source.k)
      && e.end - e.start == Duration(c.hbf[j.source.k].fill, j.bytes)
    case HbfDirect =>
      && j.source.Hbf? && j.source.k < |c.hbf| && e.link == DirectLink(j.source.k)
      && e.end - e.start == Duration(c.hbf[j.source.k].directLink, j.bytes)
    case HbfRelay =>
      && j.source.Hbf? && j.source.k < |c.hbf| && c.hbf[j.source.k].pair.Some? && e.link == RelayLink(j.source.k)
      && e.end - e.start == Duration(c.hbf[j.source.k].pair.value.relayLink, j.bytes)
    case HbmGpu =>
      && e.link.GpuLink? && e.link.k < |c.hbm| && e.end - e.start == Duration(c.hbm[e.link.k].gpuLink, j.bytes)
      && (j.source.Hbm? ==> e.link.k == j.source.k)
      && (j.source.Hbf? ==> j.source.k < |c.hbf| && c.hbf[j.source.k].pair.Some? && e.link.k == c.hbf[j.source.k].pair.value.hbm)
  }

  /** In every run each stage runs on the link, and for the time, that its row of the configuration says. */
  lemma StagesFollowRows(c: Config, calls: seq<Call>, p: nat)
    requires p < |Run(c, calls).events| && Run(c, calls).events[p].Start?
    ensures var s, e := Run(c, calls), Run(c, calls).events[p];
            e.job < |s.jobs| && StageOnRow(c, s.jobs[e.job], e)
  {
    var s := Run(c, calls);
    assert StartOk(c, s, s.events[p]);
    assert JobOk(c, s.jobs[s.events[p].job]);
  }

  /** The stage times of a request's route, read off the configuration; a reserved source is not filled. */
  function RouteTime(c: Config, source: Source, route: Route, bytes: pos, reserved: bool): nat
    requires SourceOk(c, source, route)
  {
    match source
    case Hbm(k) => Duration(c.hbm[k].gpuLink, bytes)
    case Hbf(k) =>
      (if reserved then 0 else Duration(c.hbf[k].fill, bytes))
      + if route.Direct? then Duration(c.hbf[k].directLink, bytes)
        else Duration(c.hbf[k].pair.value.relayLink, bytes) + Duration(c.hbm[c.hbf[k].pair.value.hbm].gpuLink, bytes)
  }

  lemma RouteTimeIsWork(c: Config, j: Job)
    requires SourceOk(c, j.source, j.route)
    ensures RouteWork(c, j) == RouteTime(c, j.source, j.route, j.bytes, j.arrival.Some?)
  {
  }

  /** In every run a job completes at most once, and not before its ready time plus the stage times of its route. */
  lemma CompletionFloor(c: Config, calls: seq<Call>, p: nat)
    requires p < |Run(c, calls).completions|
    ensures var s := Run(c, calls);
            var d := s.completions[p];
            && d.job < |s.jobs| && s.jobs[d.job].ready.Some?
            && SourceOk(c, s.jobs[d.job].source, s.jobs[d.job].route)
            && s.jobs[d.job].ready.value + RouteTime(c, s.jobs[d.job].source, s.jobs[d.job].route, s.jobs[d.job].bytes,
                                                     s.jobs[d.job].arrival.Some?) <= d.time
            && forall q :: 0 <= q < |s.completions| && q != p ==> s.completions[q].job != d.job
  {
    var s := Run(c, calls);
    var j := s.jobs[s.completions[p].job];
    assert CompletionOk(c, s, s.completions[p]);
    assert JobOk(c, j);
    RouteTimeIsWork(c, j);
  }

  // ---------------------------------------------------------------- ownership

  ghost predicate AllDone(s: State) {
    forall i :: 0 <= i < |s.jobs| ==> s.jobs[i].state.Done?
  }

  /** Once every job is done, every bank and every link is free. */
  lemma AllDoneFreesEverything(c: Config, s: State, slot: Slot)
    requires Owned(c, s) && AllDone(s)
    ensures Holder(s, slot).None?
  {
    if Holder(s, slot).Some? {
      var i := Holder(s, slot).value;
      assert Claims(c, s.jobs[i], slot);
      assert JobOk(c, s.jobs[i]) && s.jobs[i].state.Done?;
    }
  }

  /** From its reservation or fill until the GPU has its data, a relayed job holds a bank. */
  lemma RelayHoldsABank(c: Config, s: State, i: nat)
    requires Good(c, s) && i < |s.jobs| && s.jobs[i].source.Hbf? && s.jobs[i].route.Relay?
    requires !s.jobs[i].state.WaitReady? && !s.jobs[i].state.MediaReady? && !s.jobs[i].state.Done?
    ensures exists slot: Slot :: !slot.OnLink? && Holder(s, slot) == Some(i)
  {
    var j := s.jobs[i];
    assert JobOk(c, j);
    if j.hbfBank.Some? {
      assert Claims(c, j, HbfBank(j.source.k, j.hbfBank.value));
    } else {
      assert Claims(c, j, HbmBank(HbmOf(c, j), j.hbmBank.value));
    }
  }

  // ---------------------------------------------------------------- deadlock freedom

  ghost predicate NoReserved(s: State) {
    forall i :: 0 <= i < |s.jobs| ==> !s.jobs[i].state.BackendReserved?
  }

  ghost predicate NoHbmReserved(s: State) {
    forall i :: 0 <= i < |s.jobs| && s.jobs[i].state.BackendReserved? ==> s.jobs[i].source.Hbf?
  }

  ghost predicate NothingDue(s: State) {
    forall i :: 0 <= i < |s.jobs| ==> DueTime(s.jobs[i]).None?
  }

  /** With no event pending and no backend outstanding, every slot of a resting fabric is free. */
  lemma IdleLinks(c: Config, s: State, l: Link)
    requires Good(c, s) && NothingDue(s)
    ensures Holder(s, OnLink(l)).None?
  {
    if Holder(s, OnLink(l)).Some? {
      assert Claims(c, s.jobs[Holder(s, OnLink(l)).value], OnLink(l));
    }
  }

  lemma IdleGpu(c: Config, s: State, i: nat)
    requires Stable(c, s) && NothingDue(s) && i < |s.jobs|
    ensures !s.jobs[i].state.HbmReady? && !s.jobs[i].state.ReadyHbm?
  {
    var j := s.jobs[i];
    assert JobOk(c, j);
    if j.state.HbmReady? || j.state.ReadyHbm? {
      var k := HbmOf(c, j);
      assert IsGpuCandidate(c, j, k);
      assert GpuSettled(c, s, k);
      IdleLinks(c, s, GpuLink(k));
    }
  }

  lemma IdleHbmBanks(c: Config, s: State, k: nat, b: nat)
    requires Stable(c, s) && NothingDue(s) && NoHbmReserved(s)
    ensures Holder(s, HbmBank(k, b)).None?
  {
    if Holder(s, HbmBank(k, b)).Some? {
      var i := Holder(s, HbmBank(k, b)).value;
      assert Claims(c, s.jobs[i], HbmBank(k, b));
      assert JobOk(c, s.jobs[i]) && DueTime(s.jobs[i]).None?;
      IdleGpu(c, s, i);
    }
  }

  lemma IdleHbfReady(c: Config, s: State, i: nat)
    requires Stable(c, s) && NothingDue(s) && NoHbmReserved(s) && i < |s.jobs|
    ensures !s.jobs[i].state.ReadyHbf?
  {
    var j := s.jobs[i];
    assert JobOk(c, j) && SendSettled(c, s, i);
    if j.state.ReadyHbf? {
      IdleLinks(c, s, DirectLink(j.source.k));
      IdleLinks(c, s, RelayLink(j.source.k));
      if j.route.Relay? {
        IdleHbmBanks(c, s, HbmOf(c, j), 0);
      }
    }
  }

  lemma IdleHbfBanks(c: Config, s: State, k: nat, b: nat)
    requires Stable(c, s) && NothingDue(s) && NoReserved(s)
    ensures Holder(s, HbfBank(k, b)).None?
  {
    if Holder(s, HbfBank(k, b)).Some? {
      var i := Holder(s, HbfBank(k, b)).value;
      assert Claims(c, s.jobs[i], HbfBank(k, b));
      assert JobOk(c, s.jobs[i]) && DueTime(s.jobs[i]).None?;
      IdleHbfReady(c, s, i);
    }
  }

  /**
   Deadlock freedom.  If no event is pending and no job waits for its backend, every
   job is done, although relayed jobs hold an HBF bank while they wait for an HBM bank.
   */
  lemma DeadlockFree(c: Config, s: State)
    requires Stable(c, s) && NextEvent(s).None? && NoReserved(s)
    ensures AllDone(s)
  {
    assert NothingDue(s);
    forall i | 0 <= i < |s.jobs| ensures s.jobs[i].state.Done? {
      IdleGpu(c, s, i);
      IdleHbfReady(c, s, i);
      var j := s.jobs[i];
      assert JobOk(c, j) && DueTime(j).None?;
      if j.state.MediaReady? {
        assert FillSettled(s, j.source.k);
        IdleLinks(c, s, FillLink(j.source.k));
        IdleHbfBanks(c, s, j.source.k, 0);
      }
    }
  }

  /**
   If every job is reserved and no event is pending, a job that is not done waits for its own backend:
   none is held up by a bank of a job that does, as long as the HBM servers owe nothing.
   */
  lemma OnlyBackendsOwe(c: Config, s: State, i: nat)
    requires Stable(c, s) && NextEvent(s).None? && NoHbmReserved(s) && i < |s.jobs| && s.jobs[i].arrival.Some?
    ensures s.jobs[i].state.Done? || s.jobs[i].state.BackendReserved?
  {
    assert NothingDue(s);
    IdleGpu(c, s, i);
    IdleHbfReady(c, s, i);
    assert JobOk(c, s.jobs[i]) && DueTime(s.jobs[i]).None?;
  }

  // ---------------------------------------------------------------- one instant

  /** With nothing due before `h`, advancing to `h` is a number of transitions at that one time. */
  lemma AdvanceIsOneInstant(c: Config, s: State, h: nat)
    requires Good(c, s) && s.now <= h && NothingBefore(s, h)
    ensures Good(c, s.(now := h)) && Ticks(c, s.(now := h), Advance(c, s, h))
  {
    hide Good, NothingBefore, Evolves;
    TimePasses(c, s, h);
    TicksRefl(c, s.(now := h));
    NextIsDue(c, s);
    var next := NextEvent(s);
    if next.Some? && next.value <= h {
      NextIsNow(s, h);
      RoundIsGood(c, s, h);
      RoundLeavesNothingDue(c, s, h);
      var r := Round(c, s, h);
      NextIsDue(c, r);
      NothingLeftNow(r, h);
      assert r.(now := h) == r;
    }
  }

  lemma NextIsNow(s: State, h: nat)
    requires NothingBefore(s, h) && NextEvent(s).Some? && NextEvent(s).value <= h
    ensures NextEvent(s).value == h
  {
    var i :| 0 <= i < |s.jobs| && DueTime(s.jobs[i]) == NextEvent(s);
  }

  lemma NothingLeftNow(s: State, h: nat)
    requires NothingBefore(s, h + 1)
    ensures NextEvent(s).None? || h < NextEvent(s).value
  {
    if NextEvent(s).Some? {
      var i :| 0 <= i < |s.jobs| && DueTime(s.jobs[i]) == NextEvent(s);
    }
  }

  /** A job that holds an HBF bank at one instant and is done at the end of it was on the direct link. */
  lemma DoneAtOnceWasDirect(c: Config, s: State, r: State, k: nat, b: nat)
    requires Ticks(c, s, r) && Holder(s, HbfBank(k, b)).Some? && Holder(s, HbfBank(k, b)).value < |s.jobs|
    ensures r.jobs[Holder(s, HbfBank(k, b)).value].state.Done? ==> Holder(s, OnLink(DirectLink(k))) == Holder(s, HbfBank(k, b))
  {
    var i := Holder(s, HbfBank(k, b)).value;
    if r.jobs[i].state.Done? {
      assert Claims(c, s.jobs[i], HbfBank(k, b));
      assert JobOk(c, s.jobs[i]) && JobOk(c, r.jobs[i]) && OnTime(c, s.now, s.jobs[i]);
      assert Evolved(c, s.now, s.jobs[i], r.jobs[i]);
      assert Claims(c, s.jobs[i], OnLink(DirectLink(k)));
    }
  }

  /** Both banks of the stack are held. */
  ghost predicate BothHeld(s: State, k: nat) {
    forall b :: 0 <= b < 2 ==> Holder(s, HbfBank(k, b)).Some? && Holder(s, HbfBank(k, b)).value < |s.jobs|
  }

  /** The two banks of an HBF stack are not both given up for good at one instant. */
  lemma OneBankIsNotDone(c: Config, s: State, r: State, k: nat) returns (i: nat)
    requires Ticks(c, s, r) && BothHeld(s, k)
    ensures i < |s.jobs| == |r.jobs| && s.jobs[i].source == Hbf(k) && !r.jobs[i].state.Done?
    ensures Holder(s, HbfBank(k, 0)) == Some(i) || Holder(s, HbfBank(k, 1)) == Some(i)
  {
    var i0, i1 := Holder(s, HbfBank(k, 0)).value, Holder(s, HbfBank(k, 1)).value;
    assert Claims(c, s.jobs[i0], HbfBank(k, 0)) && Claims(c, s.jobs[i1], HbfBank(k, 1));
    DoneAtOnceWasDirect(c, s, r, k, 0);
    DoneAtOnceWasDirect(c, s, r, k, 1);
    i := if r.jobs[i0].state.Done? then i1 else i0;
  }

  // ---------------------------------------------------------------- horizon splitting

  /** Stopping at `h1` on the way to `h2` leaves the same fabric, log and time as going to `h2` at once. */
  lemma {:induction false} HorizonSplit(c: Config, s: State, h1: nat, h2: nat)
    requires Good(c, s) && s.now <= h1 <= h2
    ensures Advance(c, Advance(c, s, h1), h2) == Advance(c, s, h2)
    decreases TotalRank(s.jobs)
  {
    hide Good, NothingBefore, Ticks;
    NextIsDue(c, s);
    var next := NextEvent(s);
    if next.Some? && next.value <= h1 {
      RoundDropsRank(c, s, next.value);
      RoundIsGood(c, s, next.value);
      HorizonSplit(c, Round(c, s, next.value), h1, h2);
    } else {
      TimePasses(c, s, h1);
      var waited := s.(now := h1);
      NextIsDue(c, waited);
      if next.Some? && next.value <= h2 {
        assert waited.(now := next.value) == s.(now := next.value);
        assert Round(c, waited, next.value) == Round(c, s, next.value);
      } else {
        assert waited.(now := h2) == s.(now := h2);
      }
    }
  }

  // ---------------------------------------------------------------- makespan

  function TotalWork(c: Config, now: nat, jobs: seq<Job>): int
    requires forall i :: 0 <= i < |jobs| ==> JobOk(c, jobs[i])
  {
    if jobs == [] then 0
    else
      assert JobOk(c, jobs[0]);
      Remaining(c, now, jobs[0]) + TotalWork(c, now, jobs[1..])
  }

  predicate WorkKept(c: Config, t: nat, a: Job, b: Job) {
    JobOk(c, a) && JobOk(c, b) && Remaining(c, t, b) == Remaining(c, t, a) >= 0
  }

  /** Work never grows from `a` at `now` to `b` at `t`; it shrinks by `t - now` if something was running. */
  lemma {:induction false} WorkShrinks(c: Config, now: nat, a: seq<Job>, t: nat, b: seq<Job>)
    requires |a| == |b| && now <= t
    requires forall i :: 0 <= i < |a| ==> JobOk(c, a[i])
    requires forall i :: 0 <= i < |b| ==> JobOk(c, b[i])
    requires forall i :: 0 <= i < |a| ==> WorkKept(c, t, a[i], b[i])
    ensures 0 <= TotalWork(c, t, b) <= TotalWork(c, now, a)
    ensures (exists i :: 0 <= i < |a| && a[i].state.Running?) ==> TotalWork(c, t, b) <= TotalWork(c, now, a) - (t - now)
  {
    if a != [] {
      assert JobOk(c, a[0]) && JobOk(c, b[0]) && WorkKept(c, t, a[0], b[0]);
      WorkShrinks(c, now, a[1..], t, b[1..]);
      if i :| 1 <= i < |a| && a[i].state.Running? {
        assert a[1..][i - 1].state.Running?;
      }
    }
  }

  lemma RoundShrinksWork(c: Config, s: State, t: nat)
    requires Good(c, s) && s.now <= t && NothingBefore(s, t) && Good(c, Round(c, s, t))
    ensures var r := Round(c, s, t);
            && 0 <= TotalWork(c, t, r.jobs) <= TotalWork(c, s.now, s.jobs)
            && ((exists i :: 0 <= i < |s.jobs| && s.jobs[i].state.Running?) ==>
                  TotalWork(c, t, r.jobs) <= TotalWork(c, s.now, s.jobs) - (t - s.now))
  {
    TickShrinksWork(c, s, s.(now := t), Round(c, s, t));
  }

  lemma TickShrinksWork(c: Config, s: State, waited: State, r: State)
    requires Good(c, s) && s.now <= waited.now && waited.jobs == s.jobs && Ticks(c, waited, r)
    ensures 0 <= TotalWork(c, r.now, r.jobs) <= TotalWork(c, s.now, s.jobs)
    ensures (exists i :: 0 <= i < |s.jobs| && s.jobs[i].state.Running?) ==>
              TotalWork(c, r.now, r.jobs) <= TotalWork(c, s.now, s.jobs) - (r.now - s.now)
  {
    forall i | 0 <= i < |s.jobs|
      ensures WorkKept(c, r.now, s.jobs[i], r.jobs[i])
    {
      assert Evolved(c, waited.now, waited.jobs[i], r.jobs[i]);
      assert OnTime(c, waited.now, waited.jobs[i]);
    }
    WorkShrinks(c, s.now, s.jobs, r.now, r.jobs);
  }

  ghost predicate ReadyBy(s: State, last: nat) {
    forall i :: 0 <= i < |s.jobs| && IsPending(s.jobs[i]) && s.jobs[i].ready.Some? ==>
      s.jobs[i].ready.value <= last
  }

  lemma TickKeepsReadiness(c: Config, s: State, r: State, last: nat)
    requires Ticks(c, s, r) && NoReserved(s) && ReadyBy(s, last)
    ensures NoReserved(r) && ReadyBy(r, last)
  {
    forall i | 0 <= i < |r.jobs|
      ensures !r.jobs[i].state.BackendReserved?
      ensures IsPending(r.jobs[i]) && r.jobs[i].ready.Some? ==> r.jobs[i].ready.value <= last
    {
      assert Evolved(c, s.now, s.jobs[i], r.jobs[i]);
      assert JobOk(c, r.jobs[i]);
    }
  }

  /** When nothing is left to arrive, the next event is the end of a running stage. */
  lemma NextIsEnd(c: Config, s: State, last: nat)
    requires Good(c, s) && ReadyBy(s, last) && NextEvent(s).Some? && NextEvent(s).value > last
    ensures exists i :: 0 <= i < |s.jobs| && s.jobs[i].state.Running?
  {
    var i :| 0 <= i < |s.jobs| && DueTime(s.jobs[i]) == NextEvent(s);
    assert JobOk(c, s.jobs[i]);
    assert s.jobs[i].state.Running?;
  }

  ghost predicate Bounded(c: Config, s: State, last: nat, bound: int) {
    && Stable(c, s) && NoReserved(s) && ReadyBy(s, last) && s.now <= last <= bound
    && last + TotalWork(c, s.now, s.jobs) <= bound
  }

  /** A round keeps the bound `last ready time + remaining work`; the next event lies within it. */
  lemma RoundKeepsBound(c: Config, s: State, t: nat, last: nat, bound: int) returns (last': nat)
    requires Bounded(c, s, last, bound) && NextEvent(s) == Some(t) && s.now <= t && NothingBefore(s, t)
    ensures t <= bound && Bounded(c, Round(c, s, t), last', bound)
  {
    last' := if t <= last then last else t;
    RoundIsStable(c, s, t);
    RoundShrinksWork(c, s, t);
    TimePasses(c, s, t);
    TickKeepsReadiness(c, s.(now := t), Round(c, s, t), last);
    if t > last {
      NextIsEnd(c, s, last);
    }
  }

  /**
   Makespan.  When no backend is outstanding, all jobs are done by the last ready time
   plus the sum of all remaining stage durations.
   */
  lemma {:induction false} Makespan(c: Config, s: State, last: nat, horizon: nat)
    requires Bounded(c, s, last, horizon)
    ensures AllDone(Advance(c, s, horizon))
    decreases TotalRank(s.jobs)
  {
    hide Settled, UniqueIds, NothingBefore, ReadyBy, NoReserved, Good, Round, NextDue;
    WorkIsNonnegative(c, s);
    NextIsDue(c, s);
    var next := NextEvent(s);
    if next.None? {
      DeadlockFree(c, s);
    } else {
      var last' := RoundKeepsBound(c, s, next.value, last, horizon);
      RoundDropsRank(c, s, next.value);
      Makespan(c, Round(c, s, next.value), last', horizon);
    }
  }

  lemma WorkIsNonnegative(c: Config, s: State)
    requires Good(c, s)
    ensures TotalWork(c, s.now, s.jobs) >= 0
  {
    assert forall i :: 0 <= i < |s.jobs| ==> OnTime(c, s.now, s.jobs[i]);
    WorkShrinks(c, s.now, s.jobs, s.now, s.jobs);
  }

  /** No completion, however far the fabric is advanced, is later than that bound. */
  lemma MakespanOfCompletions(c: Config, s: State, last: nat, horizon: nat, p: nat)
    requires Stable(c, s) && NoReserved(s) && ReadyBy(s, last) && s.now <= last <= horizon
    requires last + TotalWork(c, s.now, s.jobs) <= horizon && p < |Advance(c, s, horizon).completions|
    ensures Advance(c, s, horizon).completions[p].time <= last + TotalWork(c, s.now, s.jobs)
  {
    WorkIsNonnegative(c, s);
    var bound := last + TotalWork(c, s.now, s.jobs);
    Makespan(c, s, last, bound);
    var done := Advance(c, s, bound);
    HorizonSplit(c, s, bound, horizon);
    DoneStaysDone(c, done, horizon);
    assert CompletionOk(c, done, done.completions[p]);
  }

  /** The stage times of all routes, read off the configuration. */
  function RoutesTotal(c: Config, jobs: seq<Job>): nat
    requires forall i :: 0 <= i < |jobs| ==> SourceOk(c, jobs[i].source, jobs[i].route)
  {
    if jobs == [] then 0
    else
      assert SourceOk(c, jobs[0].source, jobs[0].route);
      RouteTime(c, jobs[0].source, jobs[0].route, jobs[0].bytes, jobs[0].arrival.Some?) + RoutesTotal(c, jobs[1..])
  }

  lemma {:induction false} WorkOfBatch(c: Config, now: nat, jobs: seq<Job>)
    requires forall i :: 0 <= i < |jobs| ==> JobOk(c, jobs[i])
    requires forall i :: 0 <= i < |jobs| ==> IsPending(jobs[i])
    ensures TotalWork(c, now, jobs) == RoutesTotal(c, jobs)
  {
    if jobs != [] {
      assert JobOk(c, jobs[0]) && IsPending(jobs[0]);
      RouteTimeIsWork(c, jobs[0]);
      WorkOfBatch(c, now, jobs[1..]);
    }
  }

  /** A batch of requests, none of which has started, is done by the last ready time plus the stage times of all routes. */
  lemma MakespanOfBatch(c: Config, s: State, last: nat, horizon: nat)
    requires Stable(c, s) && s.now <= last && forall i :: 0 <= i < |s.jobs| ==> IsPending(s.jobs[i])
    requires forall i :: 0 <= i < |s.jobs| ==> s.jobs[i].ready.Some? && s.jobs[i].ready.value <= last
    requires forall i :: 0 <= i < |s.jobs| ==> SourceOk(c, s.jobs[i].source, s.jobs[i].route)
    requires last + RoutesTotal(c, s.jobs) <= horizon
    ensures AllDone(Advance(c, s, horizon))
    ensures forall p :: 0 <= p < |Advance(c, s, horizon).completions| ==>
              Advance(c, s, horizon).completions[p].time <= last + RoutesTotal(c, s.jobs)
  {
    StableShape(c, s);
    WorkOfBatch(c, s.now, s.jobs);
    assert NoReserved(s) && ReadyBy(s, last);
    hide Stable, Good, Advance, TotalWork;
    Makespan(c, s, last, horizon);
    forall p | 0 <= p < |Advance(c, s, horizon).completions|
      ensures Advance(c, s, horizon).completions[p].time <= last + RoutesTotal(c, s.jobs)
    {
      MakespanOfCompletions(c, s, last, horizon, p);
    }
  }

  lemma DoneStaysDone(c: Config, s: State, horizon: nat)
    requires Good(c, s) && AllDone(s) && s.now <= horizon
    ensures Advance(c, s, horizon) == s.(now := horizon)
  {
    hide Good, Round, NextDue, NothingBefore;
    assert NextEvent(s).None?;
  }
}

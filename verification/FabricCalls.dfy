/** The public calls of the fabric and the invariant that holds between them. */
module FabricCalls {
  import opened Wrappers
  import opened Fabric
  import opened FabricOwnership
  import opened FabricHistory
  import opened FabricRun
  import opened FabricAdvance

  // ---------------------------------------------------------------- the calls

  function Init(c: Config): State {
    State(0, [], seq(|c.hbf|, _ => HbfSlots([None, None], None, None, None)),
          seq(|c.hbm|, _ => HbmSlots([None, None], None)), [], [])
  }

  function IndexOf(jobs: seq<Job>, id: nat): (r: Option<nat>)
    ensures r.Some? ==> r.value < |jobs| && jobs[r.value].id == id
    ensures r.None? ==> forall i :: 0 <= i < |jobs| ==> jobs[i].id != id
  {
    if jobs == [] then None
    else if jobs[|jobs| - 1].id == id then Some(|jobs| - 1)
    else
      assert forall i :: 0 <= i < |jobs| - 1 ==> jobs[i] == jobs[..|jobs| - 1][i];
      IndexOf(jobs[..|jobs| - 1], id)
  }

  /** Chunking is left to the caller: a request must fit a bank of every stack it passes through. */
  predicate FitsBanks(c: Config, source: Source, route: Route, bytes: nat)
    requires SourceOk(c, source, route)
  {
    match source
    case Hbf(k) => bytes <= c.hbf[k].capacity && (route.Relay? ==> bytes <= c.hbm[c.hbf[k].pair.value.hbm].capacity)
    case Hbm(k) => bytes <= c.hbm[k].capacity
  }

  /** Accept a request whose data will be ready at `ready`; `None` is the raised error. */
  function Enqueue(c: Config, s: State, id: nat, source: Source, route: Route, bytes: int, ready: int): Option<State> {
    if IndexOf(s.jobs, id).Some? || bytes < 1 || ready < s.now || !SourceOk(c, source, route)
       || (source.Hbf? && !FitsBanks(c, source, route, bytes))
    then None
    else Some(s.(jobs := s.jobs + [Job(id, source, route, bytes, Some(ready), None, WaitReady, None, None)]))
  }

  datatype ReserveResult = Rejected | Full | Reserved(state: State)

  function BanksOf(s: State, source: Source): seq<Option<nat>>
    requires if source.Hbf? then source.k < |s.hbf| else source.k < |s.hbm|
  {
    if source.Hbf? then s.hbf[source.k].banks else s.hbm[source.k].banks
  }

  function TakeBank(s: State, source: Source, bank: nat, i: nat): State
    requires (if source.Hbf? then source.k < |s.hbf| else source.k < |s.hbm|) && bank < |BanksOf(s, source)|
  {
    if source.Hbf? then
      s.(hbf := s.hbf[source.k := s.hbf[source.k].(banks := s.hbf[source.k].banks[bank := Some(i)])])
    else
      s.(hbm := s.hbm[source.k := s.hbm[source.k].(banks := s.hbm[source.k].banks[bank := Some(i)])])
  }

  /** Reserve a bank of the source before the backend command is issued; `Full` is the answer False. */
  function ReserveSource(c: Config, s: State, id: nat, source: Source, route: Route, bytes: int, arrival: int): ReserveResult
    requires |s.hbf| == |c.hbf| && |s.hbm| == |c.hbm|
  {
    if IndexOf(s.jobs, id).Some? || bytes < 1 || arrival < 0 || arrival > s.now
       || !SourceOk(c, source, route) || !FitsBanks(c, source, route, bytes)
    then Rejected
    else
      var bank := FreeBank(BanksOf(s, source));
      if bank.None? then Full
      else
        var i := |s.jobs|;
        var job := Job(id, source, route, bytes, None, Some(arrival), BackendReserved,
                       if source.Hbf? then bank else None, if source.Hbm? then bank else None);
        Reserved(TakeBank(s, source, bank.value, i)
                 .(jobs := s.jobs + [job], events := s.events + [Reserve(i, bank.value, s.now)]))
  }

  function MarkReady(s: State, i: nat, completion: nat): State
    requires i < |s.jobs|
  {
    s.(jobs := s.jobs[i := s.jobs[i].(state := BackendReadyPending, ready := Some(completion))])
  }

  function MarkSourceReady(s: State, id: nat, completion: int): Option<State> {
    var i := IndexOf(s.jobs, id);
    if i.None? || !s.jobs[i.value].state.BackendReserved? || completion < s.now then None
    else Some(MarkReady(s, i.value, completion))
  }

  // ---------------------------------------------------------------- what the calls accept, on the configuration

  ghost predicate NewId(s: State, id: nat) {
    forall n :: 0 <= n < |s.jobs| ==> s.jobs[n].id != id
  }

  /** The stack exists and has the route, and every bank the request passes through is large enough. */
  predicate HasRoom(c: Config, source: Source, route: Route, bytes: int, reserve: bool) {
    match source
    case Hbf(k) =>
      && k < |c.hbf| && bytes <= c.hbf[k].capacity
      && (route == Relay ==>
            && c.hbf[k].pair.Some? && c.hbf[k].pair.value.hbm < |c.hbm|
            && bytes <= c.hbm[c.hbf[k].pair.value.hbm].capacity)
    case Hbm(k) => k < |c.hbm| && route == Direct && (reserve ==> bytes <= c.hbm[k].capacity)
  }

  /** An enqueued request waits for its ready time, without a bank; an HBM read needs none. */
  lemma EnqueueAccepts(c: Config, s: State, id: nat, source: Source, route: Route, bytes: int, ready: int)
    ensures var r := Enqueue(c, s, id, source, route, bytes, ready);
            && (r.Some? <==> NewId(s, id) && 1 <= bytes && s.now <= ready && HasRoom(c, source, route, bytes, false))
            && (r.Some? ==> r.value == s.(jobs := r.value.jobs) && |r.value.jobs| == |s.jobs| + 1 && s.jobs <= r.value.jobs)
            && (r.Some? ==>
                  var j := r.value.jobs[|s.jobs|];
                  && j.id == id && j.source == source && j.route == route && j.bytes == bytes && j.ready == Some(ready)
                  && j.arrival == None && j.state == WaitReady && j.hbfBank == None && j.hbmBank == None)
  {
    assert IndexOf(s.jobs, id).None? <==> NewId(s, id);
  }

  /** A reserved request holds the lowest free bank of its own source and has no ready time yet. */
  lemma ReserveAccepts(c: Config, s: State, id: nat, source: Source, route: Route, bytes: int, arrival: int)
    requires |s.hbf| == |c.hbf| && |s.hbm| == |c.hbm|
    ensures var r := ReserveSource(c, s, id, source, route, bytes, arrival);
            var valid := NewId(s, id) && 1 <= bytes && 0 <= arrival <= s.now && HasRoom(c, source, route, bytes, true);
            && (r.Rejected? <==> !valid)
            && (r.Full? <==> valid && forall b :: 0 <= b < |BanksOf(s, source)| ==> BanksOf(s, source)[b].Some?)
            && (r.Reserved? ==>
                  && |r.state.jobs| == |s.jobs| + 1 && s.jobs <= r.state.jobs && r.state.now == s.now
                  && r.state.completions == s.completions
                  && var j := r.state.jobs[|s.jobs|];
                     && j.id == id && j.source == source && j.route == route && j.bytes == bytes && j.ready == None
                     && j.arrival == Some(arrival) && j.state == BackendReserved
                     && j.hbfBank.Some? == source.Hbf? && j.hbmBank.Some? == source.Hbm?
                     && var bank := if source.Hbf? then j.hbfBank.value else j.hbmBank.value;
                        && bank < |BanksOf(s, source)| && BanksOf(s, source)[bank].None?
                        && (forall b :: 0 <= b < bank ==> BanksOf(s, source)[b].Some?)
                        && r.state.events == s.events + [Reserve(|s.jobs|, bank, s.now)])
  {
    assert IndexOf(s.jobs, id).None? <==> NewId(s, id);
  }

  /** Marking is accepted for the one reserved request of that id, and gives it the completion as its ready time. */
  lemma MarkAccepts(s: State, id: nat, completion: int)
    ensures var r := MarkSourceReady(s, id, completion);
            && (UniqueIds(s.jobs) ==>
                  (r.Some? <==> s.now <= completion
                                && exists n :: 0 <= n < |s.jobs| && s.jobs[n].id == id && s.jobs[n].state == BackendReserved))
            && (r.Some? ==>
                  && r.value == s.(jobs := r.value.jobs) && |r.value.jobs| == |s.jobs|
                  && exists n :: 0 <= n < |s.jobs| && s.jobs[n].id == id && s.jobs[n].state == BackendReserved
                                 && r.value.jobs == s.jobs[n := s.jobs[n].(state := BackendReadyPending, ready := Some(completion))])
  {
    var i := IndexOf(s.jobs, id);
    if i.Some? && s.jobs[i.value].state.BackendReserved? && s.now <= completion {
      assert MarkSourceReady(s, id, completion) == Some(MarkReady(s, i.value, completion));
    }
  }

  // ---------------------------------------------------------------- the invariant between calls

  ghost predicate UniqueIds(jobs: seq<Job>) {
    forall i, n :: 0 <= i < n < |jobs| ==> jobs[i].id != jobs[n].id
  }

  ghost predicate Stable(c: Config, s: State) {
    Good(c, s) && Settled(c, s) && UniqueIds(s.jobs)
  }

  lemma InitIsStable(c: Config)
    ensures Stable(c, Init(c))
  {
    var s := Init(c);
    assert forall slot :: Holder(s, slot).None?;
  }

  /** The slots are as before, except that the appended job may have taken free ones. */
  ghost predicate SlotAdded(s: State, r: State, slot: Slot) {
    Holder(r, slot) == Holder(s, slot) || (Holder(s, slot).None? && Holder(r, slot) == Some(|s.jobs|))
  }

  lemma AppendKeepsOwned(c: Config, s: State, r: State, j: Job)
    requires Owned(c, s) && Shape(c, r) && r.jobs == s.jobs + [j] && JobOk(c, j)
    requires forall slot :: SlotAdded(s, r, slot)
    requires forall slot {:trigger Holder(r, slot)} :: Holder(r, slot) == Some(|s.jobs|) <==> Claims(c, j, slot)
    ensures Owned(c, r)
  {
    forall slot | Holder(r, slot).Some?
      ensures Holder(r, slot).value < |r.jobs| && Claims(c, r.jobs[Holder(r, slot).value], slot)
    {
      assert SlotAdded(s, r, slot);
    }
    forall n, slot | 0 <= n < |r.jobs| && Claims(c, r.jobs[n], slot) ensures Holder(r, slot) == Some(n) {
      assert SlotAdded(s, r, slot);
      if n < |s.jobs| {
        assert Claims(c, s.jobs[n], slot);
      } else {
        assert Holder(r, slot) == Some(|s.jobs|) <==> Claims(c, j, slot);
      }
    }
  }

  /** A new job that has not started keeps everything else. */
  lemma AppendKeepsGood(c: Config, s: State, r: State, j: Job)
    requires Good(c, s) && Owned(c, r) && r.jobs == s.jobs + [j] && r.now == s.now
    requires r.completions == s.completions
    requires |r.events| >= |s.events| && r.events[..|s.events|] == s.events
    requires forall p :: |s.events| <= p < |r.events| ==> !r.events[p].Start?
    requires JobOk(c, j) && OnTime(c, s.now, j) && !j.state.Done? && !j.state.Running?
    ensures Good(c, r)
  {
    forall p | 0 <= p < |r.events| && r.events[p].Start?
      ensures p < |s.events| && r.events[p] == s.events[p] && StartOk(c, r, r.events[p])
    {
      assert r.events[p] == r.events[..|s.events|][p];
      assert StartOk(c, s, s.events[p]);
    }
    forall p | 0 <= p < |r.completions| ensures CompletionOk(c, r, r.completions[p]) {
      assert CompletionOk(c, s, s.completions[p]);
    }
  }

  lemma AppendKeepsSettled(c: Config, s: State, r: State, j: Job)
    requires Shape(c, s) && Shape(c, r) && Settled(c, s) && r.jobs == s.jobs + [j]
    requires |r.hbf| == |s.hbf| && |r.hbm| == |s.hbm|
    requires forall slot :: SlotAdded(s, r, slot)
    requires j.state.WaitReady? || j.state.BackendReserved?
    ensures Settled(c, r)
  {
    forall slot | Holder(s, slot).Some? ensures Holder(r, slot).Some? {
      assert SlotAdded(s, r, slot);
    }
    forall k | 0 <= k < |r.hbf| ensures FillSettled(r, k) {
      assert FillSettled(s, k);
    }
    forall i | 0 <= i < |r.jobs| ensures SendSettled(c, r, i) {
      assert i < |s.jobs| ==> SendSettled(c, s, i);
    }
    forall k | 0 <= k < |r.hbm| ensures GpuSettled(c, r, k) {
      assert GpuSettled(c, s, k);
    }
  }

  lemma EnqueueIsStable(c: Config, s: State, id: nat, source: Source, route: Route, bytes: int, ready: int)
    requires Stable(c, s) && Enqueue(c, s, id, source, route, bytes, ready).Some?
    ensures Stable(c, Enqueue(c, s, id, source, route, bytes, ready).value)
  {
    var r := Enqueue(c, s, id, source, route, bytes, ready).value;
    var j := r.jobs[|s.jobs|];
    assert Shape(c, r);
    assert forall slot :: Holder(r, slot) == Holder(s, slot) && !Claims(c, j, slot);
    assert forall slot :: SlotAdded(s, r, slot);
    AppendKeepsOwned(c, s, r, j);
    AppendKeepsGood(c, s, r, j);
    AppendKeepsSettled(c, s, r, j);
  }

  lemma TakeBankKeepsOwned(c: Config, s: State, r: State, source: Source, bank: nat, j: Job)
    requires Owned(c, s) && JobOk(c, j) && j.source == source && j.state.BackendReserved? && r.jobs == s.jobs + [j]
    requires if source.Hbf? then j.hbfBank == Some(bank) else j.hbmBank == Some(bank)
    requires BanksOf(s, source)[bank].None?
    requires r.hbf == TakeBank(s, source, bank, |s.jobs|).hbf && r.hbm == TakeBank(s, source, bank, |s.jobs|).hbm
    ensures Owned(c, r) && forall slot :: SlotAdded(s, r, slot)
  {
    assert Shape(c, r);
    var n, taken := |s.jobs|, if source.Hbf? then HbfBank(source.k, bank) else HbmBank(source.k, bank);
    forall slot ensures SlotAdded(s, r, slot) && (Holder(r, slot) == Some(n) <==> Claims(c, j, slot)) {
      assert Holder(s, slot) != Some(n);
      BankTaken(s, r, source, bank, n, slot);
      assert Claims(c, j, slot) <==> slot == taken;
    }
    AppendKeepsOwned(c, s, r, j);
  }

  lemma BankTaken(s: State, r: State, source: Source, bank: nat, n: nat, slot: Slot)
    requires (if source.Hbf? then source.k < |s.hbf| else source.k < |s.hbm|) && bank < |BanksOf(s, source)|
    requires r.hbf == TakeBank(s, source, bank, n).hbf && r.hbm == TakeBank(s, source, bank, n).hbm
    ensures var taken := if source.Hbf? then HbfBank(source.k, bank) else HbmBank(source.k, bank);
            Holder(r, slot) == if slot == taken then Some(n) else Holder(s, slot)
    ensures BanksOf(s, source)[bank].None? ==> Holder(s, if source.Hbf? then HbfBank(source.k, bank) else HbmBank(source.k, bank)).None?
  {
  }

  lemma ReserveIsStable(c: Config, s: State, id: nat, source: Source, route: Route, bytes: int, arrival: int)
    requires Stable(c, s) && ReserveSource(c, s, id, source, route, bytes, arrival).Reserved?
    ensures Stable(c, ReserveSource(c, s, id, source, route, bytes, arrival).state)
  {
    var r := ReserveSource(c, s, id, source, route, bytes, arrival).state;
    var j := r.jobs[|s.jobs|];
    TakeBankKeepsOwned(c, s, r, source, FreeBank(BanksOf(s, source)).value, j);
    AppendKeepsGood(c, s, r, j);
    AppendKeepsSettled(c, s, r, j);
  }

  lemma MarkKeepsGood(c: Config, s: State, i: nat, completion: nat)
    requires Good(c, s) && i < |s.jobs| && s.jobs[i].state.BackendReserved? && s.now <= completion
    ensures Good(c, MarkReady(s, i, completion))
  {
    var r := MarkReady(s, i, completion);
    assert JobOk(c, s.jobs[i]) && JobOk(c, r.jobs[i]);
    forall slot ensures SlotMoved(c, s, r, i, slot) {
      SlotsOf(c, s, i, slot);
    }
    OneJobMoved(c, s, r, i);
    forall n | 0 <= n < |r.jobs| ensures OnTime(c, r.now, r.jobs[n]) {
      assert OnTime(c, s.now, s.jobs[n]);
    }
    forall p | 0 <= p < |r.events| && r.events[p].Start? ensures StartOk(c, r, r.events[p]) {
      assert StartOk(c, s, s.events[p]);
    }
    forall p | 0 <= p < |r.completions| ensures CompletionOk(c, r, r.completions[p]) {
      assert CompletionOk(c, s, s.completions[p]);
    }
  }

  lemma MarkIsStable(c: Config, s: State, i: nat, completion: nat)
    requires Stable(c, s) && i < |s.jobs| && s.jobs[i].state.BackendReserved? && s.now <= completion
    ensures Stable(c, MarkReady(s, i, completion))
  {
    MarkKeepsGood(c, s, i, completion);
    var r := MarkReady(s, i, completion);
    assert forall slot :: Holder(r, slot) == Holder(s, slot);
    forall k | 0 <= k < |r.hbf| ensures FillSettled(r, k) {
      assert FillSettled(s, k);
    }
    forall n | 0 <= n < |r.jobs| ensures SendSettled(c, r, n) {
      assert SendSettled(c, s, n);
    }
    forall k | 0 <= k < |r.hbm| ensures GpuSettled(c, r, k) {
      assert GpuSettled(c, s, k);
    }
  }

  /** Waiting, or any number of rounds, leaves the fabric settled. */
  lemma {:induction false} AdvanceIsStable(c: Config, s: State, horizon: nat)
    requires Stable(c, s) && s.now <= horizon
    ensures Stable(c, Advance(c, s, horizon))
    ensures SameRequests(s.jobs, Advance(c, s, horizon).jobs)
    decreases TotalRank(s.jobs)
  {
    hide Good, NothingBefore, Settled, UniqueIds, Ticks, SameRequests;
    NextIsDue(c, s);
    var next := NextEvent(s);
    if next.None? || next.value > horizon {
      WaitIsStable(c, s, horizon);
    } else {
      RoundDropsRank(c, s, next.value);
      RoundIsStable(c, s, next.value);
      AdvanceIsStable(c, Round(c, s, next.value), horizon);
      SameRequestsTrans(s.jobs, Round(c, s, next.value).jobs, Advance(c, s, horizon).jobs);
    }
  }

  ghost predicate SameRequests(a: seq<Job>, b: seq<Job>) {
    |a| == |b| && forall i :: 0 <= i < |a| ==> SameRequest(a[i], b[i])
  }

  lemma SameRequestsTrans(a: seq<Job>, b: seq<Job>, d: seq<Job>)
    requires SameRequests(a, b) && SameRequests(b, d)
    ensures SameRequests(a, d)
  {
    forall i | 0 <= i < |a| ensures SameRequest(a[i], d[i]) {
      assert SameRequest(a[i], b[i]) && SameRequest(b[i], d[i]);
    }
  }

  lemma WaitIsStable(c: Config, s: State, t: nat)
    requires Stable(c, s) && s.now <= t && NothingBefore(s, t)
    ensures Stable(c, s.(now := t)) && SameRequests(s.jobs, s.jobs)
  {
    TimePasses(c, s, t);
    var r := s.(now := t);
    assert forall slot :: Holder(r, slot) == Holder(s, slot);
    forall k | 0 <= k < |r.hbf| ensures FillSettled(r, k) {
      assert FillSettled(s, k);
    }
    forall n | 0 <= n < |r.jobs| ensures SendSettled(c, r, n) {
      assert SendSettled(c, s, n);
    }
    forall k | 0 <= k < |r.hbm| ensures GpuSettled(c, r, k) {
      assert GpuSettled(c, s, k);
    }
  }

  lemma RoundIsStable(c: Config, s: State, t: nat)
    requires Stable(c, s) && s.now <= t && NothingBefore(s, t)
    ensures Stable(c, Round(c, s, t)) && SameRequests(s.jobs, Round(c, s, t).jobs)
    ensures Round(c, s, t).now == t
  {
    hide Good, Settled, NothingBefore, Evolves, Grows;
    TimePasses(c, s, t);
    AdmitSettles(c, ProcessDue(c, s.(now := t)));
    TickKeepsRequests(c, s.(now := t), Round(c, s, t));
  }

  lemma TickKeepsRequests(c: Config, s: State, r: State)
    requires Ticks(c, s, r)
    ensures SameRequests(s.jobs, r.jobs)
    ensures UniqueIds(s.jobs) ==> UniqueIds(r.jobs)
  {
    forall i | 0 <= i < |s.jobs| ensures SameRequest(s.jobs[i], r.jobs[i]) {
      assert Evolved(c, s.now, s.jobs[i], r.jobs[i]);
    }
  }
}

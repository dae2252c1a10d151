/** The fabric as the object it is: banks, links, jobs, logs and three heaps, updated in place. */
module FabricEngine {
  import opened Wrappers
  import opened Fabric
  import opened FabricHistory
  import opened FabricRun
  import opened FabricAdvance
  import opened FabricCalls
  import opened FabricHeaps
  import FabricOrder

  /** The heaps agree with the jobs. */
  ghost predicate HeapsOk(jobs: seq<Job>, arrivals: seq<Entry>, backends: seq<Entry>, active: seq<Entry>, popped: Option<nat>) {
    && HeapOk(arrivals, jobs, Arrivals, None) && HeapOk(backends, jobs, Backends, None)
    && HeapOk(active, jobs, Active, popped)
  }

  /** No heap holds the job: it waits for a link or a bank. */
  predicate IsIdle(j: Job) {
    !InKind(Arrivals, j) && !InKind(Backends, j) && !InKind(Active, j)
  }

  lemma StartsHeap(jobs: seq<Job>, arrivals: seq<Entry>, backends: seq<Entry>, active: seq<Entry>, i: nat, j: Job, t: nat)
    requires HeapsOk(jobs, arrivals, backends, active, None) && i < |jobs| && IsIdle(jobs[i])
    requires j.state.Running? && j.state.end == t
    ensures Entry(t, i) !in active && HeapsOk(jobs[i := j], arrivals, backends, Push(active, Entry(t, i)), None)
  {
    hide HeapOk;
    OtherJobChanges(arrivals, jobs, Arrivals, None, i, j);
    OtherJobChanges(backends, jobs, Backends, None, i, j);
    JobJoins(active, jobs, Active, i, j, t);
  }

  lemma CompletesHeap(jobs: seq<Job>, arrivals: seq<Entry>, backends: seq<Entry>, active: seq<Entry>, now: nat, i: nat, j: Job)
    requires HeapsOk(jobs, arrivals, backends, active, Some(now)) && i < |jobs|
    requires jobs[i].state.Running? && jobs[i].state.end == now && IsIdle(j)
    ensures HeapsOk(jobs[i := j], arrivals, backends, active, Some(now))
  {
    hide HeapOk;
    OtherJobChanges(arrivals, jobs, Arrivals, None, i, j);
    OtherJobChanges(backends, jobs, Backends, None, i, j);
    PoppedLeaves(active, jobs, Active, now, i, j);
  }

  // ---------------------------------------------------------------- processing in job order

  lemma CompleteSkips(c: Config, s: State, k: nat, n: nat)
    requires Good(c, s) && k <= n <= |s.jobs| && forall i :: k <= i < n ==> !IsEnding(s, i)
    ensures CompleteDue(c, s, k) == CompleteDue(c, s, n)
    decreases n - k
  {
    hide Good, Ticks;
    if k < n {
      CompleteSkips(c, s, k + 1, n);
    }
  }

  lemma CompleteOne(c: Config, s: State, i: nat)
    requires Good(c, s) && i < |s.jobs| && IsEnding(s, i)
    ensures var t := CompleteStage(c, s, i);
            && Good(c, t) && |t.jobs| == |s.jobs| && t.now == s.now && CompleteDue(c, s, i) == CompleteDue(c, t, i + 1)
            && t.jobs == s.jobs[i := t.jobs[i]] && IsIdle(t.jobs[i])
            && (forall n :: 0 <= n < |t.jobs| && n != i ==> (IsEnding(t, n) <==> IsEnding(s, n)))
  {
    CompleteMoves(c, s, i);
    var t := CompleteStage(c, s, i);
    MoveTicks(c, s, t, i);
    CompleteChangesOne(c, s, i);
  }

  lemma CompleteChangesOne(c: Config, s: State, i: nat)
    requires Shape(c, s) && IsEnding(s, i)
    ensures var t := CompleteStage(c, s, i);
            && |t.jobs| == |s.jobs| && t.jobs == s.jobs[i := t.jobs[i]] && IsIdle(t.jobs[i]) && t.now == s.now
  {
  }

  lemma WakeSkips(c: Config, s: State, k: nat, n: nat)
    requires Good(c, s) && k <= n <= |s.jobs| && forall i :: k <= i < n ==> !IsWaking(s, i)
    ensures WakeDue(c, s, k) == WakeDue(c, s, n) && (n == |s.jobs| ==> WakeDue(c, s, k) == s)
    decreases n - k
  {
    hide Good, Ticks;
    if k < n {
      WakeSkips(c, s, k + 1, n);
    }
  }

  lemma WakeOne(c: Config, s: State, i: nat)
    requires Good(c, s) && i < |s.jobs| && IsWaking(s, i)
    ensures var t := WakeReserved(s, i);
            && Good(c, t) && WakeDue(c, s, i) == WakeDue(c, t, i + 1) && IsIdle(t.jobs[i]) && !IsWaking(t, i)
            && (forall n :: 0 <= n < |t.jobs| && n != i ==> (IsWaking(t, n) <==> IsWaking(s, n)))
  {
    WakeMoves(c, s, i);
    MoveTicks(c, s, WakeReserved(s, i), i);
  }

  lemma ArriveSkips(c: Config, s: State, k: nat, n: nat)
    requires Good(c, s) && k <= n <= |s.jobs| && forall i :: k <= i < n ==> !IsArriving(s, i)
    ensures ArriveDue(c, s, k) == ArriveDue(c, s, n) && (n == |s.jobs| ==> ArriveDue(c, s, k) == s)
    decreases n - k
  {
    hide Good, Ticks;
    if k < n {
      ArriveSkips(c, s, k + 1, n);
    }
  }

  lemma ArriveOne(c: Config, s: State, i: nat)
    requires Good(c, s) && i < |s.jobs| && IsArriving(s, i)
    ensures var t := ArriveMedia(s, i);
            && Good(c, t) && ArriveDue(c, s, i) == ArriveDue(c, t, i + 1) && IsIdle(t.jobs[i]) && !IsArriving(t, i)
            && (forall n :: 0 <= n < |t.jobs| && n != i ==> (IsArriving(t, n) <==> IsArriving(s, n)))
  {
    ArriveMoves(c, s, i);
    MoveTicks(c, s, ArriveMedia(s, i), i);
  }

  lemma IdleStays(jobs: seq<Job>, arrivals: seq<Entry>, backends: seq<Entry>, active: seq<Entry>, i: nat, j: Job)
    requires HeapsOk(jobs, arrivals, backends, active, None) && i < |jobs| && IsIdle(jobs[i]) && IsIdle(j)
    ensures HeapsOk(jobs[i := j], arrivals, backends, active, None)
  {
    hide HeapOk;
    OtherJobChanges(arrivals, jobs, Arrivals, None, i, j);
    OtherJobChanges(backends, jobs, Backends, None, i, j);
    OtherJobChanges(active, jobs, Active, None, i, j);
  }

  class BasicFabric {
    const config: Config
    var now: nat
    var jobs: seq<Job>
    var hbf: seq<HbfSlots>
    var hbm: seq<HbmSlots>
    var events: seq<Event>
    var completions: seq<Completion>
    var arrivals: seq<Entry>
    var backends: seq<Entry>
    var active: seq<Entry>

    function Value(): State
      reads this
    {
      State(now, jobs, hbf, hbm, events, completions)
    }

    ghost predicate Heaps(popped: Option<nat>)
      reads this
    {
      HeapsOk(jobs, arrivals, backends, active, popped)
    }

    ghost predicate Valid()
      reads this
    {
      Stable(config, Value()) && Heaps(None)
    }

    constructor (config: Config)
      ensures this.config == config && Valid() && Value() == Init(config)
    {
      this.config := config;
      now := 0;
      jobs := [];
      hbf := seq(|config.hbf|, _ => HbfSlots([None, None], None, None, None));
      hbm := seq(|config.hbm|, _ => HbmSlots([None, None], None));
      events, completions := [], [];
      arrivals, backends, active := [], [], [];
      new;
      InitIsStable(config);
      assert Value() == Init(config);
    }

    /** Occupy a link: the job runs until its duration has passed. */
    method Start(i: nat, stage: StageName)
      requires i < |jobs| && SourceOk(config, jobs[i].source, jobs[i].route) && IsIdle(jobs[i]) && Heaps(None)
      requires stage == HbmGpu ==> jobs[i].source.Hbm? || jobs[i].route.Relay?
      requires stage != HbmGpu ==> jobs[i].source.Hbf?
      requires stage == HbfRelay ==> jobs[i].route.Relay?
      modifies `jobs, `active, `events
      ensures Value() == StartStage(config, old(Value()), i, stage) && Heaps(None)
    {
      var j := jobs[i];
      var end := now + Duration(TimingOf(config, j, stage), j.bytes);
      StartsHeap(jobs, arrivals, backends, active, i, j.(state := Running(stage, end)), end);
      jobs := jobs[i := j.(state := Running(stage, end))];
      active := Push(active, Entry(end, i));
      events := events + [Event.Start(stage, i, LinkOf(config, j, stage), now, end)];
    }

    /** The job gets a bank in its record before it starts. */
    method SetJob(i: nat, j: Job)
      requires i < |jobs| && IsIdle(jobs[i]) && IsIdle(j) && Heaps(None)
      modifies `jobs
      ensures jobs == old(jobs)[i := j] && Heaps(None)
    {
      IdleStays(jobs, arrivals, backends, active, i, j);
      jobs := jobs[i := j];
    }

    /** Start a fill on an HBF stack if its link and a bank are free and a job waits. */
    method Fill(k: nat)
      requires Good(config, Value()) && Heaps(None) && k < |hbf|
      modifies `hbf, `jobs, `active, `events
      ensures Value() == FillStack(config, old(Value()), k) && Heaps(None) && Good(config, Value())
    {
      ghost var s := Value();
      AdmitsRefl(config, s);
      hide Good, HeapsOk, Ticks, Grows;
      if hbf[k].fill.Some? {
        return;
      }
      var bank := FreeBank(hbf[k].banks);
      var job := FirstMediaReady(jobs, k, 0);
      if bank.Some? && job.Some? {
        JobIsOk(config, s, job.value);
        hbf := hbf[k := hbf[k].(fill := Some(job.value), banks := hbf[k].banks[bank.value := Some(job.value)])];
        SetJob(job.value, jobs[job.value].(hbfBank := bank));
        Start(job.value, HbfFill);
        assert Value() == StartFill(config, s, k, job.value, bank.value);
      }
    }

    /** Send a filled bank on, directly or to the HBM partner. */
    method Send(i: nat)
      requires Good(config, Value()) && Heaps(None) && i < |jobs|
      modifies `hbf, `hbm, `jobs, `active, `events
      ensures Value() == SendJob(config, old(Value()), i) && Heaps(None) && Good(config, Value()) && |jobs| == |old(jobs)|
    {
      ghost var s := Value();
      AdmitsRefl(config, s);
      JobIsOk(config, s, i);
      hide Good, HeapsOk, Ticks, Grows;
      var j := jobs[i];
      if !j.state.ReadyHbf? {
        return;
      }
      var k := j.source.k;
      if j.route.Direct? {
        if hbf[k].direct.None? {
          hbf := hbf[k := hbf[k].(direct := Some(i))];
          Start(i, HbfDirect);
          assert Value() == StartDirect(config, s, i);
        }
      } else if hbf[k].relay.None? {
        var m := HbmOf(config, j);
        var bank := FreeBank(hbm[m].banks);
        if bank.Some? {
          hbf := hbf[k := hbf[k].(relay := Some(i))];
          hbm := hbm[m := hbm[m].(banks := hbm[m].banks[bank.value := Some(i)])];
          SetJob(i, j.(hbmBank := bank));
          Start(i, HbfRelay);
          assert Value() == StartRelay(config, s, i, bank.value);
        }
      }
    }

    /** Start the first candidate on a free GPU link. */
    method Drain(k: nat)
      requires Good(config, Value()) && Heaps(None) && k < |hbm|
      modifies `hbm, `jobs, `active, `events
      ensures Value() == GpuStack(config, old(Value()), k) && Heaps(None) && Good(config, Value())
    {
      ghost var s := Value();
      AdmitsRefl(config, s);
      hide Good, HeapsOk, Ticks, Grows;
      if hbm[k].gpu.Some? {
        return;
      }
      var job := FirstGpuCandidate(config, jobs, k, 0);
      if job.Some? {
        JobIsOk(config, s, job.value);
        hbm := hbm[k := hbm[k].(gpu := Some(job.value))];
        Start(job.value, HbmGpu);
        assert Value() == StartGpu(config, s, k, job.value);
      }
    }

    /** Fill free banks, then send filled banks on, then drain to the GPU. */
    method AdmitJobs()
      requires Good(config, Value()) && Heaps(None)
      modifies `hbf, `hbm, `jobs, `active, `events
      ensures Value() == Admit(config, old(Value())) && Heaps(None)
      ensures Shape(config, old(Value())) && Shape(config, Value()) && Settled(config, Value())
      ensures FabricOrder.FirstCome(config, old(Value()), Value())
    {
      ghost var s := Value();
      FabricOrder.AdmitIsFirstCome(config, s);
      AdmitSettles(config, s);
      hide FabricOrder.FirstCome, Settled, Shape;
      hide Good, HeapsOk, Ticks, Grows, FillStack, SendJob, GpuStack, FillSettled, GpuSettled;
      var k := 0;
      while k < |hbf|
        invariant k <= |hbf| && Good(config, Value()) && Heaps(None)
        invariant FillStacks(config, Value(), k) == FillStacks(config, s, 0)
        decreases |hbf| - k
      {
        Fill(k);
        k := k + 1;
      }
      ghost var filled := Value();
      assert filled == FillStacks(config, s, 0);
      var i := 0;
      while i < |jobs|
        invariant i <= |jobs| && Good(config, Value()) && Heaps(None)
        invariant SendJobs(config, Value(), i) == SendJobs(config, filled, 0)
        decreases |jobs| - i
      {
        Send(i);
        i := i + 1;
      }
      ghost var sent := Value();
      assert sent == SendJobs(config, filled, 0);
      k := 0;
      while k < |hbm|
        invariant k <= |hbm| && Good(config, Value()) && Heaps(None)
        invariant GpuStacks(config, Value(), k) == GpuStacks(config, sent, 0)
        decreases |hbm| - k
      {
        Drain(k);
        k := k + 1;
      }
    }

    // -------------------------------------------------------------- events that are due

    /** The HBF stack has the route, and the request fits every bank on it. */
    method HbfTakes(k: nat, route: Route, bytes: nat) returns (ok: bool)
      ensures ok <==> SourceOk(config, Hbf(k), route) && FitsBanks(config, Hbf(k), route, bytes)
    {
      if k >= |config.hbf| {
        return false;
      }
      var row := config.hbf[k];
      if bytes > row.capacity {
        return false;
      }
      if route.Relay? {
        if row.pair.None? || row.pair.value.hbm >= |config.hbm| {
          return false;
        }
        if bytes > config.hbm[row.pair.value.hbm].capacity {
          return false;
        }
      }
      ok := true;
    }

    /** Accept a request whose data will be ready at a known time; a direct HBM read is not held against a bank. */
    method EnqueueJob(id: nat, source: Source, route: Route, bytes: int, ready: int) returns (ok: bool)
      requires Valid()
      modifies `jobs, `arrivals
      ensures Valid() && (ok <==> Enqueue(config, old(Value()), id, source, route, bytes, ready).Some?)
      ensures Value() == if ok then Enqueue(config, old(Value()), id, source, route, bytes, ready).value else old(Value())
    {
      hide Stable, HeapOk, Push;
      ghost var s := Value();
      var known := IndexOf(jobs, id);
      if known.Some? || bytes < 1 || ready < now {
        return false;
      }
      match source {
        case Hbf(k) =>
          ok := HbfTakes(k, route, bytes);
        case Hbm(k) =>
          ok := k < |config.hbm| && route.Direct?;
      }
      if !ok {
        return;
      }
      EnqueueIsStable(config, s, id, source, route, bytes, ready);
      var j := Job(id, source, route, bytes, Some(ready), None, WaitReady, None, None);
      AppendsHeaps(jobs, arrivals, backends, active, j);
      arrivals := Push(arrivals, Entry(ready, |jobs|));
      jobs := jobs + [j];
    }

    /** The free bank of the source, if any; `None` when the route is not possible or a bank on it is too small. */
    method BankFor(source: Source, route: Route, bytes: nat) returns (r: Option<Option<nat>>)
      requires |hbf| == |config.hbf| && |hbm| == |config.hbm|
      ensures r.Some? <==> SourceOk(config, source, route) && FitsBanks(config, source, route, bytes)
      ensures r.Some? ==> if source.Hbf? then source.k < |hbf| else source.k < |hbm|
      ensures r.Some? ==> r.value == FreeBank(BanksOf(Value(), source))
    {
      match source {
        case Hbf(k) =>
          var takes := HbfTakes(k, route, bytes);
          if !takes {
            return None;
          }
          r := Some(FreeBank(hbf[k].banks));
        case Hbm(k) =>
          if k >= |config.hbm| || !route.Direct? || bytes > config.hbm[k].capacity {
            return None;
          }
          r := Some(FreeBank(hbm[k].banks));
      }
    }

    /** Take a bank of the source before the backend command is issued; `None` is the error, false that all are taken. */
    method ReserveBank(id: nat, source: Source, route: Route, bytes: int, arrival: int) returns (r: Option<bool>)
      requires Valid()
      modifies `jobs, `hbf, `hbm, `events
      ensures Valid()
      ensures match ReserveSource(config, old(Value()), id, source, route, bytes, arrival)
              case Rejected => r == None && Value() == old(Value())
              case Full => r == Some(false) && Value() == old(Value())
              case Reserved(state) => r == Some(true) && Value() == state
    {
      hide Stable, HeapOk, HeapsOk, SourceOk, FitsBanks, ReserveSource, IndexOf;
      ghost var s := Value();
      SlotsMatch(config, s);
      ReserveCases(config, s, id, source, route, bytes, arrival);
      var known := IndexOf(jobs, id);
      if known.Some? || bytes < 1 || arrival < 0 || arrival > now {
        return None;
      }
      var found := BankFor(source, route, bytes);
      if found.None? {
        return None;
      }
      var bank := found.value;
      if bank.None? {
        return Some(false);
      }
      ReserveIsStable(config, s, id, source, route, bytes, arrival);
      var i := |jobs|;
      var j := Job(id, source, route, bytes, None, Some(arrival), BackendReserved,
                   if source.Hbf? then bank else None, if source.Hbm? then bank else None);
      AppendsHeaps(jobs, arrivals, backends, active, j);
      jobs := jobs + [j];
      if source.Hbf? {
        hbf := hbf[source.k := hbf[source.k].(banks := hbf[source.k].banks[bank.value := Some(i)])];
      } else {
        hbm := hbm[source.k := hbm[source.k].(banks := hbm[source.k].banks[bank.value := Some(i)])];
      }
      events := events + [Reserve(i, bank.value, now)];
      r := Some(true);
    }

    /** The backend has the data of a reserved request. */
    method MarkSourceReadyAt(id: nat, completion: int) returns (ok: bool)
      requires Valid()
      modifies `jobs, `backends
      ensures Valid() && (ok <==> MarkSourceReady(old(Value()), id, completion).Some?)
      ensures Value() == if ok then MarkSourceReady(old(Value()), id, completion).value else old(Value())
    {
      hide Stable, HeapOk, Push;
      var i := IndexOf(jobs, id);
      if i.None? || !jobs[i.value].state.BackendReserved? || completion < now {
        return false;
      }
      MarkIsStable(config, Value(), i.value, completion);
      var j := jobs[i.value].(state := BackendReadyPending, ready := Some(completion));
      MarksHeap(jobs, arrivals, backends, active, i.value, j, completion);
      jobs := jobs[i.value := j];
      backends := Push(backends, Entry(completion, i.value));
      ok := true;
    }

    /** The head of the earliest heap. */
    method NextEventNs() returns (t: Option<nat>)
      requires Heaps(None)
      ensures t == NextEvent(Value())
    {
      t := None;
      if arrivals != [] {
        t := Some(arrivals[0].time);
      }
      if backends != [] && (t.None? || backends[0].time < t.value) {
        t := Some(backends[0].time);
      }
      if active != [] && (t.None? || active[0].time < t.value) {
        t := Some(active[0].time);
      }
      HeadsAreNext(jobs, arrivals, backends, active, t);
    }

    /** Release what the ended stage held and move the job on. */
    method Complete(i: nat)
      requires Good(config, Value()) && IsEnding(Value(), i) && Heaps(Some(now))
      modifies `hbf, `hbm, `jobs, `events, `completions
      ensures Value() == CompleteStage(config, old(Value()), i) && Heaps(Some(now))
    {
      ghost var s := Value();
      var j := jobs[i];
      JobIsOk(config, s, i);
      AdmitsRefl(config, s);
      CompleteChangesOne(config, s, i);
      CompletesHeap(jobs, arrivals, backends, active, now, i, CompleteStage(config, s, i).jobs[i]);
      hide Good, HeapsOk, Ticks, Grows;
      var k := j.source.k;
      var stage := j.state.stage;
      match stage {
        case HbfFill =>
          hbf := hbf[k := hbf[k].(fill := None)];
          jobs := jobs[i := j.(state := ReadyHbf)];
        case HbfDirect =>
          hbf := hbf[k := hbf[k].(direct := None, banks := hbf[k].banks[j.hbfBank.value := None])];
          jobs := jobs[i := j.(state := Done, hbfBank := None)];
          completions := completions + [Completion(i, j.ready, now)];
        case HbfRelay =>
          hbf := hbf[k := hbf[k].(relay := None, banks := hbf[k].banks[j.hbfBank.value := None])];
          jobs := jobs[i := j.(state := ReadyHbm, hbfBank := None)];
        case HbmGpu =>
          var m := HbmOf(config, j);
          hbm := hbm[m := hbm[m].(gpu := None)];
          if j.hbmBank.Some? {
            hbm := hbm[m := hbm[m].(banks := hbm[m].banks[j.hbmBank.value := None])];
          }
          jobs := jobs[i := j.(state := Done, hbmBank := None)];
          completions := completions + [Completion(i, j.ready, now)];
      }
      events := events + [Event.Complete(stage, i, now)];
    }

    /** Pop the stages that end now. */
    method PopEnding() returns (ending: seq<Entry>)
      requires Good(config, Value()) && Heaps(None)
      modifies `active
      ensures Heaps(Some(now)) && EndingFrom(Value(), ending, 0, 0)
    {
      hide HeapsOk, Good, EndingFrom;
      EndingPopped(config, Value(), arrivals, backends, active);
      ending, active := PopDue(active, now);
    }

    /** Complete the popped stages in the order popped. */
    method CompleteAll(ending: seq<Entry>)
      requires Good(config, Value()) && Heaps(Some(now)) && EndingFrom(Value(), ending, 0, 0)
      modifies `hbf, `hbm, `jobs, `events, `completions
      ensures Value() == CompleteDue(config, old(Value()), 0) && Heaps(None) && Good(config, Value())
    {
      hide HeapsOk, Good, Ticks, CompleteStage, EndingFrom;
      ghost var s := Value();
      var m := 0;
      ghost var next: nat := 0;
      while m < |ending|
        invariant m <= |ending| && Good(config, Value()) && Heaps(Some(now)) && |jobs| == |s.jobs|
        invariant next <= |jobs| && EndingFrom(Value(), ending, m, next)
        invariant CompleteDue(config, Value(), next) == CompleteDue(config, s, 0)
        decreases |ending| - m
      {
        ghost var t := Value();
        var i := ending[m].job;
        EndingHere(t, ending, m, next);
        CompleteSkips(config, t, next, i);
        CompleteOne(config, t, i);
        Complete(i);
        EndingMoves(t, Value(), ending, m, next);
        m, next := m + 1, i + 1;
      }
      EndingOver(Value(), ending, next);
      CompleteSkips(config, Value(), next, |jobs|);
      NoneEnding(Value(), arrivals, backends, active);
    }

    /** Reserved jobs whose backend data has arrived. */
    method WakeBackends()
      requires Good(config, Value()) && Heaps(None)
      modifies `jobs, `events, `backends
      ensures Value() == WakeDue(config, old(Value()), 0) && Heaps(None) && Good(config, Value())
    {
      hide HeapsOk, Good, Ticks, WakeDue, IsWaking;
      ghost var s := Value();
      ghost var next: nat := 0;
      while backends != [] && backends[0].time == now
        invariant Good(config, Value()) && Heaps(None) && next <= |jobs|
        invariant WakeDue(config, Value(), next) == WakeDue(config, s, 0)
        invariant forall n :: 0 <= n < |jobs| && IsWaking(Value(), n) ==> next <= n
        decreases |backends|
      {
        ghost var t := Value();
        HeadWakes(config, t, arrivals, backends, active);
        var i := backends[0].job;
        WakeSkips(config, t, next, i);
        WakeOne(config, t, i);
        var j := jobs[i];
        WakesHeap(jobs, arrivals, backends, active, j.(state := if j.source.Hbf? then ReadyHbf else HbmReady));
        backends := backends[1..];
        jobs := jobs[i := j.(state := if j.source.Hbf? then ReadyHbf else HbmReady)];
        events := events + [BackendReadyAt(i, now)];
        assert Value() == WakeReserved(t, i);
        next := i + 1;
      }
      HeadWakes(config, Value(), arrivals, backends, active);
      WakeSkips(config, Value(), next, |jobs|);
    }

    /** Requests whose media data is ready. */
    method ArriveMediaJobs()
      requires Good(config, Value()) && Heaps(None)
      modifies `jobs, `events, `arrivals
      ensures Value() == ArriveDue(config, old(Value()), 0) && Heaps(None) && Good(config, Value())
    {
      hide HeapsOk, Good, Ticks, ArriveDue, IsArriving;
      ghost var s := Value();
      ghost var next: nat := 0;
      while arrivals != [] && arrivals[0].time == now
        invariant Good(config, Value()) && Heaps(None) && next <= |jobs|
        invariant ArriveDue(config, Value(), next) == ArriveDue(config, s, 0)
        invariant forall n :: 0 <= n < |jobs| && IsArriving(Value(), n) ==> next <= n
        decreases |arrivals|
      {
        ghost var t := Value();
        HeadArrives(config, t, arrivals, backends, active);
        var i := arrivals[0].job;
        ArriveSkips(config, t, next, i);
        ArriveOne(config, t, i);
        var j := jobs[i];
        ArrivesHeap(jobs, arrivals, backends, active, j.(state := if j.source.Hbf? then MediaReady else HbmReady));
        arrivals := arrivals[1..];
        jobs := jobs[i := j.(state := if j.source.Hbf? then MediaReady else HbmReady)];
        events := events + [MediaReadyAt(i, now)];
        assert Value() == ArriveMedia(t, i);
        next := i + 1;
      }
      HeadArrives(config, Value(), arrivals, backends, active);
      ArriveSkips(config, Value(), next, |jobs|);
    }

    /** Everything that happens at the time the clock has been moved to. */
    method ProcessNow()
      requires Good(config, Value()) && Heaps(None)
      modifies this
      ensures Value() == Admit(config, ProcessDue(config, old(Value()))) && Heaps(None)
    {
      hide HeapsOk, Good, Ticks, Grows, Admit, CompleteDue, WakeDue, ArriveDue;
      var ending := PopEnding();
      CompleteAll(ending);
      WakeBackends();
      ArriveMediaJobs();
      AdmitJobs();
    }

    /** Process every event up to the horizon, in order, and stop there; refuse to move backwards. */
    method AdvanceTo(horizon: int) returns (ok: bool)
      requires Valid()
      modifies this
      ensures Valid() && (ok <==> old(now) <= horizon)
      ensures !ok ==> Value() == old(Value())
      ensures ok ==> Good(config, old(Value())) && Value() == Advance(config, old(Value()), horizon)
    {
      hide HeapsOk, Good, Round, Settled, UniqueIds, Advance, ProcessDue, Admit, NextDue, TotalRank, NothingBefore;
      if horizon < now {
        return false;
      }
      ghost var s := Value();
      var next := NextEventNs();
      while next.Some? && next.value <= horizon
        invariant Stable(config, Value()) && Heaps(None) && now <= horizon && next == NextEvent(Value())
        invariant Advance(config, Value(), horizon) == Advance(config, s, horizon)
        decreases TotalRank(jobs)
      {
        ghost var t := Value();
        RoundFacts(config, t, next.value, horizon);
        now := next.value;
        ProcessNow();
        assert Value() == Round(config, t, next.value);
        next := NextEventNs();
      }
      WaitFacts(config, Value(), horizon);
      now := horizon;
      ok := true;
    }
  }

  /** A round of the loop, and what is left of the advance after it. */
  lemma RoundFacts(c: Config, s: State, t: nat, horizon: nat)
    requires Stable(c, s) && NextEvent(s) == Some(t) && t <= horizon && s.now <= horizon
    ensures s.now <= t && NothingBefore(s, t) && Good(c, s.(now := t))
    ensures Round(c, s, t) == Admit(c, ProcessDue(c, s.(now := t)))
    ensures Stable(c, Round(c, s, t)) && Round(c, s, t).now == t && TotalRank(Round(c, s, t).jobs) < TotalRank(s.jobs)
    ensures Advance(c, s, horizon) == Advance(c, Round(c, s, t), horizon)
  {
    hide Good, NothingBefore, Settled, UniqueIds, Ticks, ProcessDue, Admit;
    NextIsDue(c, s);
    TimePasses(c, s, t);
    RoundIsStable(c, s, t);
    RoundDropsRank(c, s, t);
  }

  lemma WaitFacts(c: Config, s: State, horizon: nat)
    requires Stable(c, s) && s.now <= horizon && (NextEvent(s).None? || NextEvent(s).value > horizon)
    ensures Stable(c, s.(now := horizon)) && Advance(c, s, horizon) == s.(now := horizon)
  {
    hide Good, NothingBefore, Settled, UniqueIds, Ticks, Round;
    NextIsDue(c, s);
    WaitIsStable(c, s, horizon);
  }

  /** A new request joins the arrivals, a new reservation no heap. */
  /** The three answers to a reservation, by the checks that lead to them. */
  lemma ReserveCases(c: Config, s: State, id: nat, source: Source, route: Route, bytes: int, arrival: int)
    requires |s.hbf| == |c.hbf| && |s.hbm| == |c.hbm|
    ensures var r := ReserveSource(c, s, id, source, route, bytes, arrival);
            if IndexOf(s.jobs, id).Some? || bytes < 1 || arrival < 0 || arrival > s.now
               || !SourceOk(c, source, route) || !FitsBanks(c, source, route, bytes) then r.Rejected?
            else
              var bank := FreeBank(BanksOf(s, source));
              if bank.None? then r.Full?
              else
                && r.Reserved?
                && r.state == TakeBank(s, source, bank.value, |s.jobs|)
                   .(jobs := s.jobs + [Job(id, source, route, bytes, None, Some(arrival), BackendReserved,
                                           if source.Hbf? then bank else None, if source.Hbm? then bank else None)],
                     events := s.events + [Reserve(|s.jobs|, bank.value, s.now)])
  {
  }

  lemma SlotsMatch(c: Config, s: State)
    requires Stable(c, s)
    ensures |s.hbf| == |c.hbf| && |s.hbm| == |c.hbm|
  {
  }

  lemma AppendsHeaps(jobs: seq<Job>, arrivals: seq<Entry>, backends: seq<Entry>, active: seq<Entry>, j: Job)
    requires HeapsOk(jobs, arrivals, backends, active, None)
    ensures IsIdle(j) ==> HeapsOk(jobs + [j], arrivals, backends, active, None)
    ensures j.state.WaitReady? && j.ready.Some? ==>
              var e := Entry(j.ready.value, |jobs|);
              Ordered(arrivals) && e !in arrivals && HeapsOk(jobs + [j], Push(arrivals, e), backends, active, None)
  {
    JobAppended(arrivals, jobs, Arrivals, j);
    JobAppended(backends, jobs, Backends, j);
    JobAppended(active, jobs, Active, j);
  }

  lemma MarksHeap(jobs: seq<Job>, arrivals: seq<Entry>, backends: seq<Entry>, active: seq<Entry>, i: nat, j: Job, t: nat)
    requires HeapsOk(jobs, arrivals, backends, active, None) && i < |jobs| && IsIdle(jobs[i])
    requires j.state.BackendReadyPending? && j.ready == Some(t)
    ensures Ordered(backends) && Entry(t, i) !in backends
    ensures HeapsOk(jobs[i := j], arrivals, Push(backends, Entry(t, i)), active, None)
  {
    OtherJobChanges(arrivals, jobs, Arrivals, None, i, j);
    JobJoins(backends, jobs, Backends, i, j, t);
    OtherJobChanges(active, jobs, Active, None, i, j);
  }

  /** Popping the first backend entry finds the first job that wakes; when none is due, none wakes. */
  lemma HeadWakes(c: Config, s: State, arrivals: seq<Entry>, backends: seq<Entry>, active: seq<Entry>)
    requires Good(c, s) && HeapsOk(s.jobs, arrivals, backends, active, None)
    ensures backends != [] && backends[0].time == s.now ==>
              IsWaking(s, backends[0].job) && forall n :: 0 <= n < |s.jobs| && IsWaking(s, n) ==> backends[0].job <= n
    ensures backends == [] || backends[0].time != s.now ==> forall n :: 0 <= n < |s.jobs| ==> !IsWaking(s, n)
  {
    if backends != [] {
      assert backends[0] in backends && Belongs(Backends, s.jobs, backends[0]);
      assert OnTime(c, s.now, s.jobs[backends[0].job]);
    }
    forall n | 0 <= n < |s.jobs| && IsWaking(s, n)
      ensures backends != [] && backends[0].time == s.now && backends[0].job <= n
    {
      var e := Entry(s.now, n);
      assert Belongs(Backends, s.jobs, e) && e in backends;
      FirstIsLeast(backends, e);
    }
  }

  lemma WakesHeap(jobs: seq<Job>, arrivals: seq<Entry>, backends: seq<Entry>, active: seq<Entry>, j: Job)
    requires HeapsOk(jobs, arrivals, backends, active, None) && backends != [] && IsIdle(j)
    ensures backends[0].job < |jobs| && HeapsOk(jobs[backends[0].job := j], arrivals, backends[1..], active, None)
  {
    FirstLeaves(backends, jobs, Backends, j);
    OtherJobChanges(arrivals, jobs, Arrivals, None, backends[0].job, j);
    OtherJobChanges(active, jobs, Active, None, backends[0].job, j);
  }

  lemma HeadArrives(c: Config, s: State, arrivals: seq<Entry>, backends: seq<Entry>, active: seq<Entry>)
    requires Good(c, s) && HeapsOk(s.jobs, arrivals, backends, active, None)
    ensures arrivals != [] && arrivals[0].time == s.now ==>
              IsArriving(s, arrivals[0].job) && forall n :: 0 <= n < |s.jobs| && IsArriving(s, n) ==> arrivals[0].job <= n
    ensures arrivals == [] || arrivals[0].time != s.now ==> forall n :: 0 <= n < |s.jobs| ==> !IsArriving(s, n)
  {
    if arrivals != [] {
      assert arrivals[0] in arrivals && Belongs(Arrivals, s.jobs, arrivals[0]);
      assert OnTime(c, s.now, s.jobs[arrivals[0].job]);
    }
    forall n | 0 <= n < |s.jobs| && IsArriving(s, n)
      ensures arrivals != [] && arrivals[0].time == s.now && arrivals[0].job <= n
    {
      var e := Entry(s.now, n);
      assert Belongs(Arrivals, s.jobs, e) && e in arrivals;
      FirstIsLeast(arrivals, e);
    }
  }

  lemma ArrivesHeap(jobs: seq<Job>, arrivals: seq<Entry>, backends: seq<Entry>, active: seq<Entry>, j: Job)
    requires HeapsOk(jobs, arrivals, backends, active, None) && arrivals != [] && IsIdle(j)
    ensures arrivals[0].job < |jobs| && HeapsOk(jobs[arrivals[0].job := j], arrivals[1..], backends, active, None)
  {
    FirstLeaves(arrivals, jobs, Arrivals, j);
    OtherJobChanges(backends, jobs, Backends, None, arrivals[0].job, j);
    OtherJobChanges(active, jobs, Active, None, arrivals[0].job, j);
  }

  lemma EndingHere(s: State, ending: seq<Entry>, m: nat, next: nat)
    requires EndingFrom(s, ending, m, next) && m < |ending|
    ensures next <= ending[m].job < |s.jobs| && IsEnding(s, ending[m].job)
    ensures forall i :: next <= i < ending[m].job ==> !IsEnding(s, i)
  {
  }

  lemma EndingOver(s: State, ending: seq<Entry>, next: nat)
    requires EndingFrom(s, ending, |ending|, next)
    ensures forall i :: 0 <= i < |s.jobs| ==> !IsEnding(s, i)
  {
  }

  /** The entries from `m` on are the jobs from `next` on whose stage ends now, and no others end. */
  ghost predicate EndingFrom(s: State, ending: seq<Entry>, m: nat, next: nat) {
    && m <= |ending| && next <= |s.jobs|
    && (forall k :: m <= k < |ending| ==> next <= ending[k].job && IsEnding(s, ending[k].job))
    && (forall k, n :: m <= k < n < |ending| ==> ending[k].job < ending[n].job)
    && (forall i :: 0 <= i < |s.jobs| && IsEnding(s, i) ==> exists k :: m <= k < |ending| && ending[k].job == i)
  }

  lemma EndingMoves(s: State, t: State, ending: seq<Entry>, m: nat, next: nat)
    requires EndingFrom(s, ending, m, next) && m < |ending| && |t.jobs| == |s.jobs| && t.now == s.now
    requires !IsEnding(t, ending[m].job)
    requires forall n :: 0 <= n < |t.jobs| && n != ending[m].job ==> (IsEnding(t, n) <==> IsEnding(s, n))
    ensures EndingFrom(t, ending, m + 1, ending[m].job + 1)
  {
    forall i | 0 <= i < |t.jobs| && IsEnding(t, i) ensures exists k :: m + 1 <= k < |ending| && ending[k].job == i {
      var k :| m <= k < |ending| && ending[k].job == i;
    }
  }

  /** Pop entries while the head is due. */
  method PopDue(heap: seq<Entry>, now: nat) returns (due: seq<Entry>, rest: seq<Entry>)
    ensures due == heap[..DueCount(heap, now)] && rest == heap[DueCount(heap, now)..]
  {
    due, rest := [], heap;
    while rest != [] && rest[0].time == now
      invariant |due| <= |heap| && due == heap[..|due|] && rest == heap[|due|..]
      invariant forall k :: 0 <= k < |due| ==> heap[k].time == now
      decreases |rest|
    {
      due := due + [rest[0]];
      rest := rest[1..];
    }
  }

  lemma EndingPopped(c: Config, s: State, arrivals: seq<Entry>, backends: seq<Entry>, active: seq<Entry>)
    requires Good(c, s) && HeapsOk(s.jobs, arrivals, backends, active, None)
    ensures var n := DueCount(active, s.now);
            HeapsOk(s.jobs, arrivals, backends, active[n..], Some(s.now)) && EndingFrom(s, active[..n], 0, 0)
  {
    DueNotBefore(c, s, active, Active);
    DuePrefix(active, s.jobs, Active, s.now);
    hide HeapOk, Good;
    EndingIsDue(s, active[..DueCount(active, s.now)]);
  }

  /** No heap holds a time that has passed. */
  lemma DueNotBefore(c: Config, s: State, heap: seq<Entry>, kind: Kind)
    requires Good(c, s) && HeapOk(heap, s.jobs, kind, None)
    ensures forall e :: e in heap ==> s.now <= e.time
  {
    forall e | e in heap ensures s.now <= e.time {
      assert Belongs(kind, s.jobs, e);
      assert OnTime(c, s.now, s.jobs[e.job]);
    }
  }

  lemma EndingIsDue(s: State, ending: seq<Entry>)
    requires forall e :: e in ending <==> Belongs(Active, s.jobs, e) && e.time == s.now
    requires forall k, m :: 0 <= k < m < |ending| ==> ending[k].job < ending[m].job
    ensures EndingFrom(s, ending, 0, 0)
  {
    forall k | 0 <= k < |ending| ensures IsEnding(s, ending[k].job) {
      assert ending[k] in ending;
    }
    forall i | 0 <= i < |s.jobs| && IsEnding(s, i) ensures exists k :: 0 <= k < |ending| && ending[k].job == i {
      assert Belongs(Active, s.jobs, Entry(s.now, i)) && Entry(s.now, i) in ending;
    }
  }

  lemma NoneEnding(s: State, arrivals: seq<Entry>, backends: seq<Entry>, active: seq<Entry>)
    requires HeapsOk(s.jobs, arrivals, backends, active, Some(s.now)) && forall i :: 0 <= i < |s.jobs| ==> !IsEnding(s, i)
    ensures HeapsOk(s.jobs, arrivals, backends, active, None)
  {
    hide HeapOk;
    forall i | 0 <= i < |s.jobs| && InKind(Active, s.jobs[i]) ensures DueTime(s.jobs[i]) != Some(s.now) {
      assert !IsEnding(s, i);
    }
    NothingPopped(active, s.jobs, Active, s.now);
  }

  /** The earliest heap head is the earliest due time of any job. */
  lemma HeadsAreNext(jobs: seq<Job>, arrivals: seq<Entry>, backends: seq<Entry>, active: seq<Entry>, t: Option<nat>)
    requires HeapsOk(jobs, arrivals, backends, active, None)
    requires t.None? ==> arrivals == [] && backends == [] && active == []
    requires t.Some? ==> (arrivals != [] && arrivals[0].time == t.value) || (backends != [] && backends[0].time == t.value)
                         || (active != [] && active[0].time == t.value)
    requires t.Some? ==> (arrivals != [] ==> t.value <= arrivals[0].time) && (backends != [] ==> t.value <= backends[0].time)
                         && (active != [] ==> t.value <= active[0].time)
    ensures t == NextDue(jobs)
  {
    hide HeapOk;
    forall i | 0 <= i < |jobs| && DueTime(jobs[i]).Some? ensures t.Some? && t.value <= DueTime(jobs[i]).value {
      HeadIsFirst(arrivals, jobs, Arrivals, i);
      HeadIsFirst(backends, jobs, Backends, i);
      HeadIsFirst(active, jobs, Active, i);
    }
    HeadIsDue(arrivals, jobs, Arrivals);
    HeadIsDue(backends, jobs, Backends);
    HeadIsDue(active, jobs, Active);
  }

  lemma HeadIsFirst(heap: seq<Entry>, jobs: seq<Job>, kind: Kind, i: nat)
    requires HeapOk(heap, jobs, kind, None) && i < |jobs| && DueTime(jobs[i]).Some?
    ensures InKind(kind, jobs[i]) ==> heap != [] && heap[0].time <= DueTime(jobs[i]).value
  {
    var e := Entry(DueTime(jobs[i]).value, i);
    if InKind(kind, jobs[i]) {
      assert Belongs(kind, jobs, e);
      FirstIsLeast(heap, e);
    }
  }

  lemma HeadIsDue(heap: seq<Entry>, jobs: seq<Job>, kind: Kind)
    requires HeapOk(heap, jobs, kind, None)
    ensures heap != [] ==> heap[0].job < |jobs| && DueTime(jobs[heap[0].job]) == Some(heap[0].time)
  {
    if heap != [] {
      assert heap[0] in heap && Belongs(kind, jobs, heap[0]);
    }
  }
}

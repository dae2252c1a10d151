/** The HBM media model as the object it is: a queue and an active request per stack. */
module HbmEngine {
  import opened Wrappers
  import opened Hbm
  import opened HbmRun

  datatype Media = Media(id: nat, end: nat)

  datatype Stack = Stack(queue: seq<nat>, active: Option<Media>)

  datatype Report = Report(stack: nat, id: nat, time: nat)

  /** The stack as it is, against the history it stands for. */
  ghost predicate StackMatches(k: Stack, v: Server) {
    && StartedCount(v) <= |v.history| && (v.busy ==> v.history[v.done].start.Some?)
    && k.active == (if v.busy then Some(Media(v.history[v.done].id, End(v.history[v.done]))) else None)
    && QueueMatches(k.queue, v.history, StartedCount(v))
  }

  ghost predicate QueueMatches(queue: seq<nat>, history: seq<Served>, started: nat) {
    && started <= |history| && |queue| == |history| - started
    && forall q :: 0 <= q < |queue| ==> queue[q] == history[started + q].id
  }

  ghost predicate StacksMatch(stacks: seq<Stack>, servers: seq<Server>) {
    |stacks| == |servers| && forall k :: 0 <= k < |stacks| ==> StackMatches(stacks[k], servers[k])
  }

  predicate ReportMatches(r: Report, d: MediaDone) {
    r.stack == d.stack && r.id == d.id && r.time == d.time
  }

  ghost predicate ReportsMatch(reports: seq<Report>, log: seq<MediaDone>) {
    |reports| == |log| && forall p :: 0 <= p < |reports| ==> ReportMatches(reports[p], log[p])
  }

  /** The server between completing a request and starting the next. */
  function Vacated(v: Server): Server {
    v.(done := v.done + 1, busy := false)
  }

  lemma VacatedMatches(k: Stack, v: Server)
    requires StackMatches(k, v) && v.busy
    ensures StackMatches(k.(active := None), Vacated(v))
  {
  }

  /** Starting the first queued request of an idle stack. */
  lemma StartMatches(rows: seq<Row>, requests: map<nat, Request>, k: Stack, v: Server, now: nat)
    requires StackMatches(k, v) && !v.busy && v.done == StartedCount(v)
    requires k.queue != [] ==> k.queue[0] in requests && requests[k.queue[0]].stack < |rows|
                               && v.history[v.done].duration == Duration(rows, requests[k.queue[0]])
    ensures k.queue == [] ==> StackMatches(k, StartNext(now, v))
    ensures k.queue != [] ==>
              StackMatches(Stack(k.queue[1..], Some(Media(k.queue[0], now + Duration(rows, requests[k.queue[0]])))), StartNext(now, v))
  {
    hide Duration;
    if k.queue != [] {
      var w := StartNext(now, v);
      var rest := k.queue[1..];
      assert k.queue[0] == v.history[v.done + 0].id;
      forall q | 0 <= q < |rest| ensures rest[q] == w.history[StartedCount(w) + q].id {
        assert k.queue[q + 1] == v.history[v.done + (q + 1)].id;
      }
    }
  }

  class BasicHbm {
    const rows: seq<Row>
    var now: nat
    var requests: map<nat, Request>
    var stacks: seq<Stack>
    var reports: seq<Report>
    /** The state with the whole history of every stack. */
    ghost var state: State

    ghost predicate Valid()
      reads this
    {
      && HbmRun.Valid(rows, state) && now == state.now && requests == state.requests
      && StacksMatch(stacks, state.servers) && ReportsMatch(reports, state.log)
    }

    constructor (rows: seq<Row>)
      ensures this.rows == rows && Valid() && state == Init(rows)
    {
      this.rows := rows;
      now := 0;
      requests := map[];
      stacks := seq(|rows|, _ => Stack([], None));
      reports := [];
      state := Init(rows);
    }

    /** The earliest end of an active request. */
    method NextEventNs() returns (t: Option<nat>)
      requires Valid()
      ensures t == NextEnd(state.servers)
    {
      hide HbmRun.Valid, LeastEnd, StackMatches, ReportsMatch;
      t := None;
      NoEnds(state.servers);
      var k := 0;
      while k < |stacks|
        invariant k <= |stacks| && LeastEnd(t, state.servers, k)
      {
        ActiveIs(stacks[k], state.servers[k]);
        LeastEndGrows(t, state.servers, k);
        if stacks[k].active.Some? && (t.None? || stacks[k].active.value.end < t.value) {
          t := Some(stacks[k].active.value.end);
        }
        k := k + 1;
      }
      LeastIsNext(t, state.servers);
    }

    /** Give the server to the first queued request, if it is free. */
    method Start(k: nat)
      requires k < |stacks| && QueueKnown(rows, requests, stacks[k])
      modifies `stacks
      ensures |stacks| == |old(stacks)| && forall m :: 0 <= m < |stacks| && m != k ==> stacks[m] == old(stacks)[m]
      ensures stacks[k] == Started(rows, requests, old(stacks)[k], now)
    {
      if stacks[k].active.Some? || stacks[k].queue == [] {
        return;
      }
      var id := stacks[k].queue[0];
      var duration := Duration(rows, requests[id]);
      stacks := stacks[k := Stack(stacks[k].queue[1..], Some(Media(id, now + duration)))];
    }

    /** Report and vacate every stack whose active request ends now. */
    method CompleteStacks(ghost before: State) returns (completed: seq<nat>, ghost after: State)
      requires before.now == now && HbmRun.Valid(rows, before) && StacksMatch(stacks, before.servers) && ReportsMatch(reports, before.log)
      modifies `stacks, `reports
      ensures after == FinishStacks(before, 0) && |after.servers| == |before.servers| && ReportsMatch(reports, after.log)
      ensures |stacks| == |before.servers| && IsCompleted(completed, before)
      ensures forall m :: 0 <= m < |stacks| ==> Halfway(stacks[m], before.servers[m], after.servers[m], now)
    {
      hide HbmRun.Valid, StackMatches, FinishStack, CompletedUpTo, ReportsMatch, Halfway;
      completed, after := [], before;
      NoneCompleted(before);
      var k := 0;
      while k < |stacks|
        invariant k <= |stacks| == |before.servers| == |after.servers| && after.now == now
        invariant FinishStacks(after, k) == FinishStacks(before, 0) && ReportsMatch(reports, after.log)
        invariant forall m :: 0 <= m < k ==> Halfway(stacks[m], before.servers[m], after.servers[m], now)
        invariant forall m :: k <= m < |stacks| ==> StackMatches(stacks[m], before.servers[m]) && after.servers[m] == before.servers[m]
        invariant CompletedUpTo(completed, before, k)
        decreases |stacks| - k
      {
        EndIs(stacks[k], before.servers[k], now);
        if stacks[k].active.Some? && stacks[k].active.value.end == now {
          StackVacates(stacks[k], before, after, k, reports);
          CompletedGrows(before, k, completed);
          completed := completed + [k];
          reports := reports + [Report(k, stacks[k].active.value.id, now)];
          stacks := stacks[k := stacks[k].(active := None)];
        } else {
          StackStays(stacks[k], before, after, k);
          CompletedStays(before, k, completed);
        }
        after := FinishStack(after, k);
        k := k + 1;
      }
    }

    /** Start the next request on every vacated stack. */
    method StartStacks(completed: seq<nat>, ghost before: State, ghost after: State)
      requires before.now == now && before.requests == requests && HbmRun.Valid(rows, before)
      requires |stacks| == |before.servers| == |after.servers| && IsCompleted(completed, before)
      requires forall m :: 0 <= m < |stacks| ==> Halfway(stacks[m], before.servers[m], after.servers[m], now)
      modifies `stacks
      ensures StacksMatch(stacks, after.servers)
    {
      hide HbmRun.Valid, StackMatches, FinishActive, EndsNow, Started;
      var j := 0;
      while j < |completed|
        invariant j <= |completed| && |stacks| == |before.servers|
        invariant forall m :: 0 <= m < |stacks| ==> AtStage(stacks[m], before.servers[m], after.servers[m], now, m in completed[j..])
      {
        var k := completed[j];
        NextCompleted(completed, j);
        assert AtStage(stacks[k], before.servers[k], after.servers[k], now, true);
        StartsHere(rows, before, k, stacks[k], after.servers[k]);
        Start(k);
        j := j + 1;
      }
    }

    /** Everything that ends at `t`. */
    method Tick(t: nat)
      requires Valid() && NextEnd(state.servers) == Some(t)
      modifies `now, `stacks, `reports, `state
      ensures Valid() && state == Round(old(state), t)
    {
      ghost var s := state;
      hide HbmRun.Valid, StacksMatch, ReportsMatch, Halfway, IsCompleted, FinishStacks, NextEnd, NothingBefore;
      NextIsDue(rows, s);
      RoundIsValid(rows, s, t);
      TimePasses(rows, s, t);
      now := t;
      ghost var before := s.(now := t);
      var completed;
      ghost var after;
      completed, after := CompleteStacks(before);
      StartStacks(completed, before, after);
      state := after;
    }

    /** Process every end up to the target, in order; refuse to move backwards. */
    method AdvanceTo(target: int) returns (ok: bool)
      requires Valid()
      modifies `now, `stacks, `reports, `state
      ensures Valid() && (ok <==> old(now) <= target)
      ensures !ok ==> state == old(state)
      ensures ok ==> state == Advance(rows, old(state), target)
    {
      hide HbmRun.Valid, StacksMatch, ReportsMatch, NextEnd, Round, NothingBefore, Outstanding;
      if target < now {
        return false;
      }
      ghost var s := state;
      var next := NextEventNs();
      while next.Some? && next.value <= target
        invariant Valid() && now <= target && next == NextEnd(state.servers)
        invariant Advance(rows, state, target) == Advance(rows, s, target)
        decreases Outstanding(state.servers)
      {
        NextIsDue(rows, state);
        RoundIsValid(rows, state, next.value);
        Tick(next.value);
        next := NextEventNs();
      }
      NextIsDue(rows, state);
      TimePasses(rows, state, target);
      now := target;
      state := state.(now := target);
      ok := true;
    }

    /** A request arrives at its stack's controller; it is not queued yet. */
    method ArrivalAt(id: nat, stack: nat, op: Op, bytes: int, arrival: int) returns (ok: bool)
      requires Valid()
      modifies this
      ensures Valid() && (ok <==> Arrival(rows, old(state), id, stack, op, bytes, arrival).Some?)
      ensures state == if ok then Arrival(rows, old(state), id, stack, op, bytes, arrival).value else old(state)
    {
      hide HbmRun.Valid, StacksMatch, ReportsMatch, Advance;
      if id in requests || stack >= |rows| || bytes < 1 || arrival < now {
        return false;
      }
      ghost var s := state;
      ok := AdvanceTo(arrival);
      ArrivalIsValid(rows, state, id, Request(stack, op, bytes, arrival, false));
      requests := requests[id := Request(stack, op, bytes, arrival, false)];
      state := state.(requests := requests);
    }

    /** A request that has arrived joins its queue, once, and starts if the server is free. */
    method SubmitAt(id: nat, time: int) returns (ok: bool)
      requires Valid()
      modifies this
      ensures Valid() && (ok <==> SubmitCall(rows, old(state), id, time).Some?)
      ensures state == if ok then SubmitCall(rows, old(state), id, time).value else old(state)
    {
      hide HbmRun.Valid, StackMatches, ReportsMatch, Advance, Submit;
      if id !in requests || requests[id].submitted || time < now {
        return false;
      }
      ok := AdvanceTo(time);
      ghost var s := state;
      var r := requests[id];
      JoinIsValid(rows, s, id);
      StackCount(rows, s);
      JoinMatches(rows, s, id, stacks[r.stack]);
      requests := requests[id := r.(submitted := true)];
      stacks := stacks[r.stack := stacks[r.stack].(queue := stacks[r.stack].queue + [id])];
      Start(r.stack);
      state := Join(rows, s, id);
    }
  }

  /** `t` is the least end among the first `k` servers. */
  ghost predicate LeastEnd(t: Option<nat>, servers: seq<Server>, k: nat) {
    && k <= |servers|
    && (t.None? ==> forall m :: 0 <= m < k ==> ActiveEnd(servers[m]).None?)
    && (t.Some? ==> exists m :: 0 <= m < k && ActiveEnd(servers[m]) == t)
    && (t.Some? ==> forall m :: 0 <= m < k && ActiveEnd(servers[m]).Some? ==> t.value <= ActiveEnd(servers[m]).value)
  }

  lemma NoEnds(servers: seq<Server>)
    ensures LeastEnd(None, servers, 0)
  {
  }

  lemma LeastEndGrows(t: Option<nat>, servers: seq<Server>, k: nat)
    requires LeastEnd(t, servers, k) && k < |servers|
    ensures var e := ActiveEnd(servers[k]);
            LeastEnd(if e.Some? && (t.None? || e.value < t.value) then e else t, servers, k + 1)
  {
    hide ActiveEnd;
    if t.Some? {
      var m :| 0 <= m < k && ActiveEnd(servers[m]) == t;
    }
  }

  lemma LeastIsNext(t: Option<nat>, servers: seq<Server>)
    requires LeastEnd(t, servers, |servers|)
    ensures t == NextEnd(servers)
  {
    hide ActiveEnd;
  }

  /** Halfway, or done with. */
  ghost predicate AtStage(k: Stack, v: Server, w: Server, now: nat, waiting: bool) {
    if waiting then EndsNow(now, v) && Halfway(k, v, w, now) else StackMatches(k, w)
  }

  /** Joining the queue and starting is what submission does to the history. */
  lemma JoinMatches(rows: seq<Row>, s: State, id: nat, stack: Stack)
    requires HbmRun.Valid(rows, s) && id in s.requests && !s.requests[id].submitted
    requires s.requests[id].stack < |s.servers| <= |rows| && StackMatches(stack, s.servers[s.requests[id].stack])
    ensures var requests := s.requests[id := s.requests[id].(submitted := true)];
            var queued := stack.(queue := stack.queue + [id]);
            && QueueKnown(rows, requests, queued)
            && StackMatches(Started(rows, requests, queued, s.now), Join(rows, s, id).servers[s.requests[id].stack])
  {
    var r := s.requests[id];
    var v := s.servers[r.stack];
    var requests := s.requests[id := r.(submitted := true)];
    var e := v.(history := v.history + [Served(id, s.now, Duration(rows, r), None)]);
    var queued := stack.(queue := stack.queue + [id]);
    assert HistoryOk(rows, s, r.stack) && ServerOk(s.now, v);
    assert StackMatches(queued, e);
    assert Duration(rows, requests[id]) == Duration(rows, r);
    if stack.queue != [] {
      assert queued.queue[0] == v.history[StartedCount(v) + 0].id;
      assert EntryKnown(rows, s, r.stack, v.history[StartedCount(v)]);
    }
    if !v.busy {
      assert stack.queue == [];
      StartMatches(rows, requests, queued, e, s.now);
    }
  }

  /** What starting does to one stack. */
  function Started(rows: seq<Row>, requests: map<nat, Request>, k: Stack, now: nat): Stack
    requires QueueKnown(rows, requests, k)
  {
    if k.active.Some? || k.queue == [] then k
    else Stack(k.queue[1..], Some(Media(k.queue[0], now + Duration(rows, requests[k.queue[0]]))))
  }

  predicate QueueKnown(rows: seq<Row>, requests: map<nat, Request>, k: Stack) {
    k.queue != [] ==> k.queue[0] in requests && requests[k.queue[0]].stack < |rows|
  }

  /** A stack whose request has ended is vacated and will get its next request; another one is as it was. */
  ghost predicate Halfway(k: Stack, v: Server, w: Server, now: nat) {
    if EndsNow(now, v) then StackMatches(k, Vacated(v)) && w == FinishActive(now, v)
    else StackMatches(k, v) && w == v
  }

  ghost predicate CompletedUpTo(completed: seq<nat>, s: State, n: nat) {
    && (forall j :: 0 <= j < |completed| ==> completed[j] < n && completed[j] < |s.servers| && EndsNow(s.now, s.servers[completed[j]]))
    && (forall j, m :: 0 <= j < m < |completed| ==> completed[j] < completed[m])
    && (forall m :: 0 <= m < n && m < |s.servers| && EndsNow(s.now, s.servers[m]) ==> m in completed)
  }

  ghost predicate IsCompleted(completed: seq<nat>, s: State) {
    CompletedUpTo(completed, s, |s.servers|)
  }

  lemma EndIs(k: Stack, v: Server, now: nat)
    requires StackMatches(k, v)
    ensures EndsNow(now, v) <==> k.active.Some? && k.active.value.end == now
    ensures k.active.Some? ==> v.busy && v.done < |v.history| && k.active.value.id == v.history[v.done].id
  {
  }

  /** A vacated stack gets its next request exactly as the recurrence has it. */
  lemma StartsHere(rows: seq<Row>, s: State, k: nat, stack: Stack, w: Server)
    requires HbmRun.Valid(rows, s) && k < |s.servers| && EndsNow(s.now, s.servers[k])
    requires Halfway(stack, s.servers[k], w, s.now)
    ensures QueueKnown(rows, s.requests, stack) && StackMatches(Started(rows, s.requests, stack, s.now), w)
  {
    var v := s.servers[k];
    assert HistoryOk(rows, s, k) && ServerOk(s.now, v);
    if stack.queue != [] {
      assert stack.queue[0] == v.history[StartedCount(Vacated(v)) + 0].id;
      assert EntryKnown(rows, s, k, v.history[v.done + 1]);
    }
    StartMatches(rows, s.requests, stack, Vacated(v), s.now);
  }

  lemma NextCompleted(completed: seq<nat>, j: nat)
    requires j < |completed| && forall i, m :: 0 <= i < m < |completed| ==> completed[i] < completed[m]
    ensures completed[j] in completed[j..] && completed[j] !in completed[j + 1..]
    ensures forall m :: m != completed[j] ==> (m in completed[j..] <==> m in completed[j + 1..])
  {
    assert completed[j..] == [completed[j]] + completed[j + 1..];
  }

  lemma NoneCompleted(s: State)
    ensures CompletedUpTo([], s, 0)
  {
  }

  /** The turn of a stack whose request ends now: it is reported and vacated. */
  lemma StackVacates(stack: Stack, before: State, after: State, k: nat, reports: seq<Report>)
    requires k < |before.servers| == |after.servers| && after.now == before.now && after.servers[k] == before.servers[k]
    requires StackMatches(stack, before.servers[k]) && ReportsMatch(reports, after.log) && EndsNow(before.now, before.servers[k])
    ensures stack.active.Some?
    ensures var w := FinishStack(after, k);
            && w.now == after.now && w.servers == after.servers[k := w.servers[k]] && |w.servers| == |after.servers|
            && Halfway(stack.(active := None), before.servers[k], w.servers[k], before.now)
            && ReportsMatch(reports + [Report(k, stack.active.value.id, before.now)], w.log)
  {
    EndIs(stack, before.servers[k], before.now);
    VacatedMatches(stack, before.servers[k]);
    hide FinishActive, StackMatches;
  }

  lemma StackStays(stack: Stack, before: State, after: State, k: nat)
    requires k < |before.servers| == |after.servers| && after.now == before.now && after.servers[k] == before.servers[k]
    requires StackMatches(stack, before.servers[k]) && !EndsNow(before.now, before.servers[k])
    ensures FinishStack(after, k) == after && Halfway(stack, before.servers[k], after.servers[k], before.now)
  {
    hide FinishActive, StackMatches;
  }

  lemma CompletedGrows(s: State, k: nat, completed: seq<nat>)
    requires k < |s.servers| && CompletedUpTo(completed, s, k) && EndsNow(s.now, s.servers[k])
    ensures CompletedUpTo(completed + [k], s, k + 1)
  {
    hide EndsNow;
    var more := completed + [k];
    forall m | 0 <= m < k + 1 && m < |s.servers| && EndsNow(s.now, s.servers[m]) ensures m in more {
      if m == k {
        assert more[|completed|] == k;
      } else {
        assert m in completed;
      }
    }
  }

  lemma CompletedStays(s: State, k: nat, completed: seq<nat>)
    requires k < |s.servers| && CompletedUpTo(completed, s, k) && !EndsNow(s.now, s.servers[k])
    ensures CompletedUpTo(completed, s, k + 1)
  {
    hide EndsNow;
  }

  lemma ActiveIs(k: Stack, v: Server)
    requires StackMatches(k, v)
    ensures ActiveEnd(v) == (if k.active.Some? then Some(k.active.value.end) else None)
  {
  }
}

/** All HBM servers together: advancing, submitting, and what every run of calls keeps. */
module HbmRun {
  import opened Wrappers
  import opened Hbm

  // ---------------------------------------------------------------- invariant

  ghost predicate HistoryOk(rows: seq<Row>, s: State, k: nat)
    requires k < |s.servers| <= |rows|
  {
    && (forall i :: 0 <= i < |s.servers[k].history| ==> EntryKnown(rows, s, k, s.servers[k].history[i]))
    && (forall i, j :: 0 <= i < j < |s.servers[k].history| ==> s.servers[k].history[i].id != s.servers[k].history[j].id)
  }

  ghost predicate EntryKnown(rows: seq<Row>, s: State, k: nat, e: Served)
    requires k < |rows|
  {
    && e.id in s.requests && s.requests[e.id].submitted && s.requests[e.id].stack == k
    && e.duration == Duration(rows, s.requests[e.id])
  }

  ghost predicate InHistory(v: Server, id: nat) {
    exists i :: 0 <= i < |v.history| && v.history[i].id == id
  }

  /** The entry reports a completed request of the stack at exactly its computed end. */
  ghost predicate ReportOk(servers: seq<Server>, d: MediaDone) {
    && d.stack < |servers| && d.index < servers[d.stack].done <= |servers[d.stack].history|
    && servers[d.stack].history[d.index].id == d.id
    && servers[d.stack].history[d.index].start.Some? && End(servers[d.stack].history[d.index]) == d.time
  }

  ghost predicate Reported(log: seq<MediaDone>, k: nat, i: nat) {
    exists p :: 0 <= p < |log| && log[p].stack == k && log[p].index == i
  }

  /** One report per completed request, and no others. */
  ghost predicate LogOk(servers: seq<Server>, log: seq<MediaDone>) {
    && (forall p :: 0 <= p < |log| ==> ReportOk(servers, log[p]))
    && (forall p, q :: 0 <= p < q < |log| ==> (log[p].stack, log[p].index) != (log[q].stack, log[q].index))
    && (forall k, i :: 0 <= k < |servers| && 0 <= i < servers[k].done ==> Reported(log, k, i))
  }

  ghost predicate RequestsOk(rows: seq<Row>, s: State) {
    && |s.servers| == |rows|
    && (forall k :: 0 <= k < |s.servers| ==> HistoryOk(rows, s, k))
    && (forall id :: id in s.requests ==>
          && s.requests[id].stack < |rows|
          && (s.requests[id].submitted ==> InHistory(s.servers[s.requests[id].stack], id)))
  }

  ghost predicate ServersOk(s: State) {
    forall k :: 0 <= k < |s.servers| ==> ServerOk(s.now, s.servers[k])
  }

  ghost predicate Valid(rows: seq<Row>, s: State) {
    RequestsOk(rows, s) && ServersOk(s) && LogOk(s.servers, s.log)
  }

  // ---------------------------------------------------------------- the next event

  function ActiveEnd(v: Server): Option<nat> {
    if v.busy && v.done < |v.history| && v.history[v.done].start.Some? then Some(End(v.history[v.done])) else None
  }

  function NextEnd(servers: seq<Server>): (t: Option<nat>)
    ensures t.None? <==> forall k :: 0 <= k < |servers| ==> ActiveEnd(servers[k]).None?
    ensures t.Some? ==> exists k :: 0 <= k < |servers| && ActiveEnd(servers[k]) == t
    ensures t.Some? ==> forall k :: 0 <= k < |servers| && ActiveEnd(servers[k]).Some? ==> t.value <= ActiveEnd(servers[k]).value
  {
    if servers == [] then None
    else
      var last := |servers| - 1;
      var rest, end := NextEnd(servers[..last]), ActiveEnd(servers[last]);
      assert forall k :: 0 <= k < last ==> servers[k] == servers[..last][k];
      if rest.None? then end
      else if end.None? || rest.value <= end.value then
        (assert exists k :: 0 <= k < last && ActiveEnd(servers[..last][k]) == rest; rest)
      else end
  }

  // ---------------------------------------------------------------- one round of completions

  function FinishStack(s: State, k: nat): State
    requires k < |s.servers|
  {
    var v := s.servers[k];
    if EndsNow(s.now, v) then
      s.(servers := s.servers[k := FinishActive(s.now, v)],
         log := s.log + [MediaDone(k, v.done, v.history[v.done].id, s.now)])
    else s
  }

  function FinishStacks(s: State, k: nat): State
    requires k <= |s.servers|
    decreases |s.servers| - k
  {
    if k == |s.servers| then s else FinishStacks(FinishStack(s, k), k + 1)
  }

  lemma FinishKeepsLog(s: State, k: nat)
    requires k < |s.servers| && ServersOk(s) && LogOk(s.servers, s.log) && EndsNow(s.now, s.servers[k])
    ensures LogOk(FinishStack(s, k).servers, FinishStack(s, k).log)
  {
    var r, v := FinishStack(s, k), s.servers[k];
    FinishKeepsServer(s.now, v);
    forall p | 0 <= p < |s.log| ensures ReportOk(r.servers, s.log[p]) && (s.log[p].stack, s.log[p].index) != (k, v.done) {
      assert ReportOk(s.servers, s.log[p]);
    }
    assert ReportOk(r.servers, r.log[|s.log|]);
    forall m, i | 0 <= m < |r.servers| && 0 <= i < r.servers[m].done ensures Reported(r.log, m, i) {
      if m == k && i == v.done {
        assert r.log[|s.log|].stack == k;
      } else {
        assert Reported(s.log, m, i);
        var p :| 0 <= p < |s.log| && s.log[p].stack == m && s.log[p].index == i;
        assert r.log[p] == s.log[p];
      }
    }
  }

  /** Histories keep their ids, submit times and durations. */
  ghost predicate SameEntries(a: Server, b: Server) {
    |a.history| == |b.history| && forall i :: 0 <= i < |a.history| ==> SameEntry(a.history[i], b.history[i])
  }

  predicate SameEntry(a: Served, b: Served) {
    a.id == b.id && a.submit == b.submit && a.duration == b.duration
  }

  ghost predicate SameHistories(a: seq<Server>, b: seq<Server>) {
    |a| == |b| && forall k :: 0 <= k < |a| ==> SameEntries(a[k], b[k])
  }

  lemma HistoriesOnward(a: seq<Server>, b: seq<Server>, d: seq<Server>)
    requires SameHistories(a, b) && SameHistories(b, d)
    ensures SameHistories(a, d)
  {
    forall k | 0 <= k < |a| ensures SameEntries(a[k], d[k]) {
      assert SameEntries(a[k], b[k]) && SameEntries(b[k], d[k]);
    }
  }

  lemma {:induction false} FinishKeepsHistories(s: State, k: nat)
    requires k <= |s.servers|
    ensures SameHistories(s.servers, FinishStacks(s, k).servers)
    decreases |s.servers| - k
  {
    if k < |s.servers| {
      var t := FinishStack(s, k);
      assert SameHistories(s.servers, t.servers);
      FinishKeepsHistories(t, k + 1);
      HistoriesOnward(s.servers, t.servers, FinishStacks(t, k + 1).servers);
    }
  }

  lemma FinishKeepsRequests(rows: seq<Row>, s: State, k: nat)
    requires k < |s.servers| && RequestsOk(rows, s)
    ensures RequestsOk(rows, FinishStack(s, k))
  {
    var r := FinishStack(s, k);
    forall m | 0 <= m < |s.servers| ensures SameEntries(s.servers[m], r.servers[m]) {
    }
    forall m | 0 <= m < |r.servers| ensures HistoryOk(rows, r, m) {
      assert HistoryOk(rows, s, m) && SameEntries(s.servers[m], r.servers[m]);
      forall i | 0 <= i < |r.servers[m].history| ensures EntryKnown(rows, r, m, r.servers[m].history[i]) {
        assert EntryKnown(rows, s, m, s.servers[m].history[i]) && SameEntry(s.servers[m].history[i], r.servers[m].history[i]);
      }
    }
    forall id | id in r.requests && r.requests[id].submitted ensures InHistory(r.servers[r.requests[id].stack], id) {
      var m := r.requests[id].stack;
      assert InHistory(s.servers[m], id);
      var i :| 0 <= i < |s.servers[m].history| && s.servers[m].history[i].id == id;
      assert SameEntries(s.servers[m], r.servers[m]);
      assert r.servers[m].history[i].id == id;
    }
  }

  lemma FinishStackIsValid(rows: seq<Row>, s: State, k: nat)
    requires Valid(rows, s) && k < |s.servers|
    ensures Valid(rows, FinishStack(s, k)) && !EndsNow(s.now, FinishStack(s, k).servers[k])
  {
    FinishKeepsRequests(rows, s, k);
    if EndsNow(s.now, s.servers[k]) {
      FinishKeepsServer(s.now, s.servers[k]);
      FinishKeepsLog(s, k);
    }
  }

  function Unfinished(v: Server): nat {
    if v.done <= |v.history| then |v.history| - v.done else 0
  }

  function Outstanding(servers: seq<Server>): nat {
    if servers == [] then 0 else Unfinished(servers[0]) + Outstanding(servers[1..])
  }

  lemma {:induction false} OutstandingDrops(a: seq<Server>, b: seq<Server>)
    requires |a| == |b| && forall k :: 0 <= k < |a| ==> Unfinished(b[k]) <= Unfinished(a[k])
    ensures Outstanding(b) <= Outstanding(a)
    ensures (exists k :: 0 <= k < |a| && Unfinished(b[k]) < Unfinished(a[k])) ==> Outstanding(b) < Outstanding(a)
  {
    if a != [] {
      OutstandingDrops(a[1..], b[1..]);
      if k :| 1 <= k < |a| && Unfinished(b[k]) < Unfinished(a[k]) {
        assert Unfinished(b[1..][k - 1]) < Unfinished(a[1..][k - 1]);
      }
    }
  }

  lemma {:induction false} FinishStacksIsValid(rows: seq<Row>, s: State, k: nat)
    requires Valid(rows, s) && k <= |s.servers|
    ensures var r := FinishStacks(s, k);
            && Valid(rows, r) && r.now == s.now && r.requests == s.requests && |r.servers| == |s.servers|
            && (forall m :: 0 <= m < k ==> r.servers[m] == s.servers[m])
            && (forall m :: k <= m < |r.servers| ==> r.servers[m] == FinishStack(s, m).servers[m])
            && s.log <= r.log
    decreases |s.servers| - k
  {
    hide Valid;
    if k < |s.servers| {
      FinishStackIsValid(rows, s, k);
      FinishStacksIsValid(rows, FinishStack(s, k), k + 1);
    }
  }

  // ---------------------------------------------------------------- advancing

  ghost predicate NothingBefore(s: State, t: nat) {
    forall k :: 0 <= k < |s.servers| && ActiveEnd(s.servers[k]).Some? ==> t <= ActiveEnd(s.servers[k]).value
  }

  lemma TimePasses(rows: seq<Row>, s: State, t: nat)
    requires Valid(rows, s) && s.now <= t && NothingBefore(s, t)
    ensures Valid(rows, s.(now := t))
  {
    var r := s.(now := t);
    forall k | 0 <= k < |s.servers| ensures ServerOk(t, s.servers[k]) {
      assert ServerOk(s.now, s.servers[k]);
      assert s.servers[k].busy ==> ActiveEnd(s.servers[k]).Some?;
      TimeKeepsServer(s.now, s.servers[k], t);
    }
    forall k | 0 <= k < |r.servers| ensures HistoryOk(rows, r, k) {
      assert HistoryOk(rows, s, k);
      forall i | 0 <= i < |r.servers[k].history| ensures EntryKnown(rows, r, k, r.servers[k].history[i]) {
        assert EntryKnown(rows, s, k, s.servers[k].history[i]);
      }
    }
  }

  /** All servers whose active request ends at `t` complete it and go on. */
  function Round(s: State, t: nat): State {
    FinishStacks(s.(now := t), 0)
  }

  lemma FinishedServer(t: nat, v: Server, w: Server)
    requires ServerOk(t, v) && w == (if EndsNow(t, v) then FinishActive(t, v) else v)
    ensures Unfinished(w) <= Unfinished(v)
    ensures ActiveEnd(v) == Some(t) ==> Unfinished(w) < Unfinished(v)
    ensures ActiveEnd(w).Some? ==> t + 1 <= ActiveEnd(w).value
  {
    if EndsNow(t, v) {
      FinishKeepsServer(t, v);
    }
  }

  lemma RoundIsValid(rows: seq<Row>, s: State, t: nat)
    requires Valid(rows, s) && s.now <= t && NothingBefore(s, t) && NextEnd(s.servers) == Some(t)
    ensures Valid(rows, Round(s, t)) && Round(s, t).now == t && s.log <= Round(s, t).log
    ensures Round(s, t).requests == s.requests
    ensures NothingBefore(Round(s, t), t + 1)
    ensures Outstanding(Round(s, t).servers) < Outstanding(s.servers)
  {
    hide RequestsOk, LogOk, EntriesOk, FinishActive, Unfinished, EndsNow, ActiveEnd;
    var w, r := s.(now := t), Round(s, t);
    TimePasses(rows, s, t);
    FinishStacksIsValid(rows, w, 0);
    forall k | 0 <= k < |s.servers|
      ensures Unfinished(r.servers[k]) <= Unfinished(s.servers[k])
      ensures ActiveEnd(s.servers[k]) == Some(t) ==> Unfinished(r.servers[k]) < Unfinished(s.servers[k])
      ensures ActiveEnd(r.servers[k]).Some? ==> t + 1 <= ActiveEnd(r.servers[k]).value
    {
      assert ServerOk(t, w.servers[k]);
      assert r.servers[k] == FinishStack(w, k).servers[k];
      FinishedServer(t, w.servers[k], r.servers[k]);
    }
    OutstandingDrops(s.servers, r.servers);
  }

  lemma NextIsDue(rows: seq<Row>, s: State)
    requires Valid(rows, s)
    ensures NextEnd(s.servers).Some? ==> s.now <= NextEnd(s.servers).value && NothingBefore(s, NextEnd(s.servers).value)
    ensures forall h: nat :: NextEnd(s.servers).None? || h <= NextEnd(s.servers).value ==> NothingBefore(s, h)
  {
    forall k | 0 <= k < |s.servers| ensures ServerOk(s.now, s.servers[k]) {
    }
  }

  function Advance(rows: seq<Row>, s: State, target: nat): (r: State)
    requires Valid(rows, s) && s.now <= target
    ensures Valid(rows, r) && r.now == target && NothingBefore(r, target + 1)
    ensures r.requests == s.requests && s.log <= r.log
    decreases Outstanding(s.servers)
  {
    hide Valid, NothingBefore;
    NextIsDue(rows, s);
    var next := NextEnd(s.servers);
    if next.None? || next.value > target then
      TimePasses(rows, s, target);
      NextIsDue(rows, s.(now := target));
      s.(now := target)
    else
      RoundIsValid(rows, s, next.value);
      Advance(rows, Round(s, next.value), target)
  }

  /** Advancing fills in start times and leaves the order, submit times and durations of every server alone. */
  lemma {:induction false} AdvanceKeepsHistories(rows: seq<Row>, s: State, target: nat)
    requires Valid(rows, s) && s.now <= target
    ensures SameHistories(s.servers, Advance(rows, s, target).servers)
    decreases Outstanding(s.servers)
  {
    hide Valid, NothingBefore, SameHistories;
    NextIsDue(rows, s);
    var next := NextEnd(s.servers);
    HistoriesStay(s.servers);
    if next.Some? && next.value <= target {
      RoundIsValid(rows, s, next.value);
      FinishKeepsHistories(s.(now := next.value), 0);
      AdvanceKeepsHistories(rows, Round(s, next.value), target);
      HistoriesOnward(s.servers, Round(s, next.value).servers, Advance(rows, s, target).servers);
    }
  }

  lemma HistoriesStay(servers: seq<Server>)
    ensures SameHistories(servers, servers)
  {
  }

  // ---------------------------------------------------------------- calls

  function Arrival(rows: seq<Row>, s: State, id: nat, stack: nat, op: Op, bytes: int, arrival: int): Option<State>
    requires Valid(rows, s)
  {
    if id in s.requests || stack >= |rows| || bytes < 1 || arrival < s.now then None
    else
      var t := Advance(rows, s, arrival);
      Some(t.(requests := t.requests[id := Request(stack, op, bytes, arrival, false)]))
  }

  function SubmitCall(rows: seq<Row>, s: State, id: nat, time: int): Option<State>
    requires Valid(rows, s)
  {
    if id !in s.requests || s.requests[id].submitted || time < s.now then None
    else
      var t := Advance(rows, s, time);
      assert RequestsOk(rows, t);
      Some(Join(rows, t, id))
  }

  /** The request joins the history of its stack and starts at once if the server is idle. */
  function Join(rows: seq<Row>, s: State, id: nat): State
    requires id in s.requests && s.requests[id].stack < |s.servers| <= |rows|
  {
    var r := s.requests[id];
    s.(requests := s.requests[id := r.(submitted := true)],
       servers := s.servers[r.stack := Submit(s.now, s.servers[r.stack], id, Duration(rows, r))])
  }

  lemma ArrivalIsValid(rows: seq<Row>, s: State, id: nat, request: Request)
    requires Valid(rows, s) && id !in s.requests && request.stack < |rows| && !request.submitted
    ensures Valid(rows, s.(requests := s.requests[id := request]))
  {
    var r := s.(requests := s.requests[id := request]);
    forall k | 0 <= k < |r.servers| ensures HistoryOk(rows, r, k) {
      assert HistoryOk(rows, s, k);
      forall i | 0 <= i < |r.servers[k].history| ensures EntryKnown(rows, r, k, r.servers[k].history[i]) {
        assert EntryKnown(rows, s, k, s.servers[k].history[i]);
      }
    }
  }

  lemma JoinIsValid(rows: seq<Row>, s: State, id: nat)
    requires Valid(rows, s) && id in s.requests && !s.requests[id].submitted
    ensures s.requests[id].stack < |s.servers| && Valid(rows, Join(rows, s, id))
  {
    var k, r := s.requests[id].stack, Join(rows, s, id);
    var v, w := s.servers[k], r.servers[k];
    SubmitKeepsServer(s.now, v, id, Duration(rows, s.requests[id]));
    JoinKeepsRequests(rows, s, id);
    forall p | 0 <= p < |s.log| ensures ReportOk(r.servers, s.log[p]) {
      assert ReportOk(s.servers, s.log[p]);
    }
  }

  lemma JoinedHistory(rows: seq<Row>, s: State, id: nat, m: nat)
    requires RequestsOk(rows, s) && id in s.requests && !s.requests[id].submitted && m < |s.servers|
    ensures HistoryOk(rows, Join(rows, s, id), m)
  {
    var k, r := s.requests[id].stack, Join(rows, s, id);
    var v, w := s.servers[m], r.servers[m];
    assert HistoryOk(rows, s, m);
    forall i | 0 <= i < |v.history| ensures SameEntry(v.history[i], w.history[i]) && v.history[i].id != id {
      assert EntryKnown(rows, s, m, v.history[i]);
    }
    forall i | 0 <= i < |w.history| ensures EntryKnown(rows, r, m, w.history[i]) {
      if i < |v.history| {
        assert EntryKnown(rows, s, m, v.history[i]);
      }
    }
  }

  lemma JoinKeepsRequests(rows: seq<Row>, s: State, id: nat)
    requires RequestsOk(rows, s) && id in s.requests && !s.requests[id].submitted
    ensures s.requests[id].stack < |s.servers| && RequestsOk(rows, Join(rows, s, id))
  {
    var k, r := s.requests[id].stack, Join(rows, s, id);
    forall m | 0 <= m < |r.servers| ensures HistoryOk(rows, r, m) {
      JoinedHistory(rows, s, id, m);
    }
    hide HistoryOk;
    forall q | q in r.requests && r.requests[q].submitted ensures InHistory(r.servers[r.requests[q].stack], q) {
      if q == id {
        assert r.servers[k].history[|s.servers[k].history|].id == id;
      } else {
        var m := r.requests[q].stack;
        assert InHistory(s.servers[m], q);
        var i :| 0 <= i < |s.servers[m].history| && s.servers[m].history[i].id == q;
        assert r.servers[m].history[i].id == q;
      }
    }
  }

  datatype Call =
    | ArrivalCall(id: nat, stack: nat, op: Op, bytes: int, arrival: int)
    | SubmitAt(id: nat, time: int)
    | AdvanceTo(target: int)

  function Init(rows: seq<Row>): State {
    State(0, map[], seq(|rows|, _ => Server([], 0, false)), [])
  }

  /** A call that raises leaves the servers as they were. */
  function Apply(rows: seq<Row>, s: State, call: Call): (r: State)
    requires Valid(rows, s)
    ensures Valid(rows, r)
  {
    hide Valid;
    match call
    case ArrivalCall(id, stack, op, bytes, arrival) =>
      var r := Arrival(rows, s, id, stack, op, bytes, arrival);
      if r.None? then s
      else
        ArrivalIsValid(rows, Advance(rows, s, arrival), id, Request(stack, op, bytes, arrival, false));
        r.value
    case SubmitAt(id, time) =>
      var r := SubmitCall(rows, s, id, time);
      if r.None? then s
      else
        JoinIsValid(rows, Advance(rows, s, time), id);
        StackCount(rows, Advance(rows, s, time));
        r.value
    case AdvanceTo(target) => if target < s.now then s else Advance(rows, s, target)
  }

  lemma StackCount(rows: seq<Row>, s: State)
    requires Valid(rows, s)
    ensures |s.servers| == |rows|
  {
  }

  function Run(rows: seq<Row>, calls: seq<Call>): (s: State)
    ensures Valid(rows, s)
  {
    if calls == [] then Init(rows) else Apply(rows, Run(rows, calls[..|calls| - 1]), calls[|calls| - 1])
  }

  /**
   In every run, the `i`-th request submitted to a stack, once started, starts at the time the
   Lindley recurrence computes from submit times and durations alone, in submit order.
   */
  lemma ServersFollowLindley(rows: seq<Row>, calls: seq<Call>, k: nat, i: nat)
    requires k < |rows|
    requires k < |Run(rows, calls).servers| && i < |Run(rows, calls).servers[k].history|
    ensures var v := Run(rows, calls).servers[k];
            && (v.history[i].start.Some? ==> v.history[i].start.value == LindleyStart(v.history, i))
            && (v.history[i].start.Some? <==> i < StartedCount(v))
            && v.history[i].id in Run(rows, calls).requests
            && v.history[i].duration == Duration(rows, Run(rows, calls).requests[v.history[i].id])
            && (i > 0 ==> v.history[i - 1].submit <= v.history[i].submit)
  {
    var s := Run(rows, calls);
    assert ServerOk(s.now, s.servers[k]) && HistoryOk(rows, s, k);
    assert EntryOk(s.now, s.servers[k].history, s.servers[k].done, StartedCount(s.servers[k]), i);
    assert EntryKnown(rows, s, k, s.servers[k].history[i]);
  }

  /** Reports of the same request are the same report. */
  lemma ReportsAreUnique(rows: seq<Row>, s: State, p: nat, q: nat)
    requires RequestsOk(rows, s) && LogOk(s.servers, s.log) && p < q < |s.log|
    ensures s.log[p].id != s.log[q].id
  {
    var a, b := s.log[p], s.log[q];
    assert ReportOk(s.servers, a) && ReportOk(s.servers, b);
    assert HistoryOk(rows, s, a.stack) && HistoryOk(rows, s, b.stack);
    assert EntryKnown(rows, s, a.stack, s.servers[a.stack].history[a.index]);
    assert EntryKnown(rows, s, b.stack, s.servers[b.stack].history[b.index]);
  }

  /** In every run each request is reported at most once, at exactly its computed end. */
  lemma ReportedOnce(rows: seq<Row>, calls: seq<Call>, p: nat)
    requires p < |Run(rows, calls).log|
    ensures ReportOk(Run(rows, calls).servers, Run(rows, calls).log[p])
    ensures forall q :: 0 <= q < |Run(rows, calls).log| && q != p ==> Run(rows, calls).log[q].id != Run(rows, calls).log[p].id
  {
    hide RequestsOk, ServersOk, ReportOk, Run;
    var s := Run(rows, calls);
    forall q | 0 <= q < |s.log| && q != p ensures s.log[q].id != s.log[p].id {
      ReportsAreUnique(rows, s, if p < q then p else q, if p < q then q else p);
    }
  }

  // ---------------------------------------------------------------- what advancing reports

  ghost predicate ReportedBetween(log: seq<MediaDone>, from: nat, lo: nat, hi: nat) {
    forall p :: from <= p < |log| ==> lo <= log[p].time <= hi
  }

  lemma {:induction false} RoundReports(s: State, k: nat)
    requires k <= |s.servers|
    ensures s.log <= FinishStacks(s, k).log
    ensures ReportedBetween(FinishStacks(s, k).log, |s.log|, s.now, s.now)
    decreases |s.servers| - k
  {
    if k < |s.servers| {
      var t := FinishStack(s, k);
      RoundReports(t, k + 1);
      var r := FinishStacks(t, k + 1);
      assert r.log[..|t.log|] == t.log;
      forall p | |s.log| <= p < |r.log| ensures r.log[p].time == s.now {
        if p < |t.log| {
          assert r.log[p] == r.log[..|t.log|][p];
        }
      }
    }
  }

  /** Everything reported while advancing ends between the old time and the target. */
  lemma {:induction false} AdvanceReports(rows: seq<Row>, s: State, target: nat)
    requires Valid(rows, s) && s.now <= target
    ensures ReportedBetween(Advance(rows, s, target).log, |s.log|, s.now, target)
    decreases Outstanding(s.servers)
  {
    hide Valid, NothingBefore;
    NextIsDue(rows, s);
    var next := NextEnd(s.servers);
    if next.Some? && next.value <= target {
      RoundIsValid(rows, s, next.value);
      RoundReports(s.(now := next.value), 0);
      var t := Round(s, next.value);
      AdvanceReports(rows, t, target);
      var r := Advance(rows, t, target);
      forall p | |s.log| <= p < |r.log| ensures s.now <= r.log[p].time <= target {
        if p < |t.log| {
          assert r.log[p] == r.log[..|t.log|][p] == t.log[p];
        }
      }
    }
  }

  /** With nothing ending before the target, what an advance reports ends at the target. */
  lemma AdvanceReportsNow(rows: seq<Row>, s: State, target: nat)
    requires Valid(rows, s) && s.now <= target && NothingBefore(s, target)
    ensures ReportedBetween(Advance(rows, s, target).log, |s.log|, target, target)
  {
    TimePasses(rows, s, target);
    NextIsDue(rows, s);
    var waited := s.(now := target);
    NextIsDue(rows, waited);
    assert waited.(now := target) == waited;
    if NextEnd(s.servers).Some? {
      assert Round(waited, NextEnd(s.servers).value) == Round(s, NextEnd(s.servers).value);
    }
    AdvanceReports(rows, waited, target);
  }

  /** If something is due by the target, something is reported. */
  lemma AdvanceReportsDue(rows: seq<Row>, s: State, target: nat)
    requires Valid(rows, s) && s.now <= target
    requires NextEnd(s.servers).Some? && NextEnd(s.servers).value <= target
    ensures |Advance(rows, s, target).log| > |s.log|
  {
    NextIsDue(rows, s);
    var t := NextEnd(s.servers).value;
    RoundIsValid(rows, s, t);
    var k :| 0 <= k < |s.servers| && ActiveEnd(s.servers[k]) == Some(t);
    RoundLogsStack(s.(now := t), 0, k);
    assert |Round(s, t).log| <= |Advance(rows, Round(s, t), target).log|;
  }

  lemma {:induction false} RoundLogsStack(s: State, from: nat, k: nat)
    requires from <= k < |s.servers| && EndsNow(s.now, s.servers[k])
    ensures |FinishStacks(s, from).log| > |s.log|
    decreases k - from
  {
    var t := FinishStack(s, from);
    RoundReports(t, from + 1);
    if from < k {
      RoundLogsStack(t, from + 1, k);
    }
  }
}

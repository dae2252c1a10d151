/**
 One FIFO media server per HBM stack, as a value and functions on it.

 The times of a submitted request are kept in the history of its stack: the first
 `done` entries have completed, the next one is active if the server is busy, and the
 rest is the queue.
 */
module Hbm {
  import opened Wrappers

  datatype Op = Read | Write

  type Bandwidth = x: real | x > 0.0 witness 1.0

  datatype Row = Row(readLatency: nat, writeLatency: nat, readBandwidth: Bandwidth, writeBandwidth: Bandwidth)

  datatype Request = Request(stack: nat, op: Op, bytes: pos, arrival: nat, submitted: bool)

  datatype Served = Served(id: nat, submit: nat, duration: pos, start: Option<nat>)

  datatype Server = Server(history: seq<Served>, done: nat, busy: bool)

  datatype MediaDone = MediaDone(stack: nat, index: nat, id: nat, time: nat)

  datatype State = State(now: nat, requests: map<nat, Request>, servers: seq<Server>, log: seq<MediaDone>)

  // ---------------------------------------------------------------- durations

  function Ceiling(x: real): (n: int)
    ensures n as real - 1.0 < x <= n as real
  {
    -(-x).Floor
  }

  /** `t` is the least whole number of nanoseconds in which the bandwidth carries the bytes. */
  predicate IsTransferTime(t: int, bytes: pos, bandwidth: Bandwidth) {
    (t - 1) as real * bandwidth < bytes as real * 1000000000.0 <= t as real * bandwidth
  }

  /** latency + ceil(bytes * 1e9 / bandwidth), with the latency and the bandwidth of the operation. */
  function MediaTime(row: Row, op: Op, bytes: pos): (d: pos)
    ensures op == Read ==> IsTransferTime(d - row.readLatency, bytes, row.readBandwidth)
    ensures op == Write ==> IsTransferTime(d - row.writeLatency, bytes, row.writeBandwidth)
  {
    var latency := if op.Read? then row.readLatency else row.writeLatency;
    var bandwidth := if op.Read? then row.readBandwidth else row.writeBandwidth;
    PositiveTransfer(bytes, bandwidth);
    TransferIsLeast(bytes, bandwidth);
    latency + Ceiling(bytes as real * 1000000000.0 / bandwidth)
  }

  function Duration(rows: seq<Row>, r: Request): (d: pos)
    requires r.stack < |rows|
  {
    MediaTime(rows[r.stack], r.op, r.bytes)
  }

  lemma TransferIsLeast(bytes: pos, bandwidth: Bandwidth)
    ensures IsTransferTime(Ceiling(bytes as real * 1000000000.0 / bandwidth), bytes, bandwidth)
  {
    var x := bytes as real * 1000000000.0;
    var q, n := x / bandwidth, Ceiling(x / bandwidth);
    assert q * bandwidth == x;
    var below, above := (n - 1) as real, n as real;
    assert below < q <= above;
    ScaledOrder(below, q, bandwidth);
    ScaledOrder(q, above, bandwidth);
    assert below * bandwidth < x <= above * bandwidth;
  }

  lemma ScaledOrder(a: real, b: real, factor: real)
    requires factor > 0.0
    ensures a < b ==> a * factor < b * factor
    ensures a <= b ==> a * factor <= b * factor
  {
    assert (b - a) * factor == b * factor - a * factor;
  }

  lemma PositiveTransfer(bytes: pos, bandwidth: Bandwidth)
    ensures Ceiling(bytes as real * 1000000000.0 / bandwidth) >= 1
  {
    var x := bytes as real * 1000000000.0;
    assert x > 0.0;
    assert x / bandwidth > 0.0;
  }

  // ---------------------------------------------------------------- one server

  function Max(a: nat, b: nat): nat {
    if a < b then b else a
  }

  function End(e: Served): nat
    requires e.start.Some?
  {
    e.start.value + e.duration
  }

  /** How many requests of the server have started. */
  function StartedCount(v: Server): nat {
    v.done + if v.busy then 1 else 0
  }

  /** Entry `i` has started exactly when it is among the first `started`, and then at the time the recurrence gives. */
  ghost predicate EntryOk(now: nat, history: seq<Served>, done: nat, started: nat, i: nat)
    requires i < |history|
  {
    && history[i].submit <= now
    && (i > 0 ==> history[i - 1].submit <= history[i].submit)
    && history[i].start == (if i < started then Some(LindleyStart(history, i)) else None)
    && (i < done && i < started ==> End(history[i]) <= now)
  }

  ghost predicate EntriesOk(now: nat, history: seq<Served>, done: nat, started: nat) {
    forall i :: 0 <= i < |history| ==> EntryOk(now, history, done, started, i)
  }

  /**
   Started requests follow the Lindley recurrence in submit order: each starts at the later
   of its submit time and the end of the one before; the rest has not started.
   */
  ghost predicate ServerOk(now: nat, v: Server) {
    && StartedCount(v) <= |v.history| && (!v.busy ==> v.done == |v.history|)
    && EntriesOk(now, v.history, v.done, StartedCount(v))
    && (v.busy ==> v.history[v.done].start.Some? && now <= End(v.history[v.done]))
  }

  /** The recurrence itself, from submit times and durations only. */
  function LindleyStart(history: seq<Served>, i: nat): nat
    requires i < |history|
  {
    if i == 0 then history[0].submit
    else Max(history[i].submit, LindleyStart(history, i - 1) + history[i - 1].duration)
  }

  lemma {:induction false} LindleyDependsOnPrefix(a: seq<Served>, b: seq<Served>, i: nat)
    requires i < |a| && i < |b|
    requires forall j :: 0 <= j <= i ==> a[j].submit == b[j].submit && a[j].duration == b[j].duration
    ensures LindleyStart(a, i) == LindleyStart(b, i)
  {
    if i > 0 {
      LindleyDependsOnPrefix(a, b, i - 1);
    }
  }

  /** Start the first queued request, if the server is idle. */
  function StartNext(now: nat, v: Server): Server {
    if v.busy || v.done >= |v.history| then v
    else v.(busy := true, history := v.history[v.done := v.history[v.done].(start := Some(now))])
  }

  /** The active request completes; the next one starts. */
  function FinishActive(now: nat, v: Server): Server {
    StartNext(now, v.(done := v.done + 1, busy := false))
  }

  function Submit(now: nat, v: Server, id: nat, duration: pos): Server {
    StartNext(now, v.(history := v.history + [Served(id, now, duration, None)]))
  }

  predicate EndsNow(now: nat, v: Server) {
    v.busy && v.done < |v.history| && v.history[v.done].start.Some? && End(v.history[v.done]) == now
  }

  /** Entries keep their meaning when start times are filled in or entries are appended. */
  lemma EntryKept(now: nat, a: seq<Served>, b: seq<Served>, done: nat, started: nat, done': nat, started': nat, i: nat)
    requires i < |a| <= |b| && EntryOk(now, a, done, started, i)
    requires forall j :: 0 <= j <= i ==> a[j].submit == b[j].submit && a[j].duration == b[j].duration
    requires b[i].start == a[i].start && (i < started <==> i < started')
    requires i < done' && i < started ==> i < done || End(a[i]) <= now
    ensures EntryOk(now, b, done', started', i)
  {
    LindleyDependsOnPrefix(a, b, i);
  }

  /** An idle server whose next request is due now, by the recurrence, starts it. */
  lemma StartKeepsServer(now: nat, v: Server)
    requires !v.busy && v.done <= |v.history|
    requires EntriesOk(now, v.history, v.done, v.done)
    requires v.done < |v.history| ==> LindleyStart(v.history, v.done) == now
    ensures ServerOk(now, StartNext(now, v))
  {
    var r := StartNext(now, v);
    if v.done < |v.history| {
      var started := StartedCount(r);
      forall i | 0 <= i < |r.history| ensures EntryOk(now, r.history, r.done, started, i) {
        assert EntryOk(now, v.history, v.done, v.done, i);
        if i == v.done {
          LindleyDependsOnPrefix(v.history, r.history, i);
        } else {
          EntryKept(now, v.history, r.history, v.done, v.done, v.done, started, i);
        }
      }
    }
  }

  lemma FinishKeepsServer(now: nat, v: Server)
    requires ServerOk(now, v) && EndsNow(now, v)
    ensures ServerOk(now, FinishActive(now, v)) && !EndsNow(now, FinishActive(now, v))
    ensures FinishActive(now, v).done == v.done + 1 && |FinishActive(now, v).history| == |v.history|
  {
    var f := v.(done := v.done + 1, busy := false);
    assert EntryOk(now, v.history, v.done, v.done + 1, v.done);
    forall i | 0 <= i < |f.history| ensures EntryOk(now, f.history, f.done, f.done, i) {
      assert EntryOk(now, v.history, v.done, v.done + 1, i);
    }
    if f.done < |f.history| {
      assert EntryOk(now, f.history, f.done, f.done, f.done);
    }
    StartKeepsServer(now, f);
  }

  lemma SubmitKeepsServer(now: nat, v: Server, id: nat, duration: pos)
    requires ServerOk(now, v)
    ensures ServerOk(now, Submit(now, v, id, duration))
  {
    var e := v.(history := v.history + [Served(id, now, duration, None)]);
    var started := StartedCount(v);
    forall i | 0 <= i < |e.history| ensures EntryOk(now, e.history, e.done, started, i) {
      if i < |v.history| {
        assert EntryOk(now, v.history, v.done, started, i);
        EntryKept(now, v.history, e.history, v.done, started, v.done, started, i);
      } else if i > 0 {
        assert EntryOk(now, v.history, v.done, started, i - 1);
      }
    }
    assert EntriesOk(now, e.history, e.done, started);
    if !v.busy {
      var n := v.done;
      if n > 0 {
        assert EntryOk(now, v.history, v.done, v.done, n - 1);
        LindleyDependsOnPrefix(v.history, e.history, n - 1);
      }
      StartKeepsServer(now, e);
    }
  }

  lemma TimeKeepsServer(now: nat, v: Server, t: nat)
    requires ServerOk(now, v) && now <= t && (v.busy ==> t <= End(v.history[v.done]))
    ensures ServerOk(t, v)
  {
    forall i | 0 <= i < |v.history| ensures EntryOk(t, v.history, v.done, StartedCount(v), i) {
      assert EntryOk(now, v.history, v.done, StartedCount(v), i);
    }
  }
}

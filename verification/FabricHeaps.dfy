/** The three event heaps of the fabric, in the order in which they are popped. */
module FabricHeaps {
  import opened Wrappers
  import opened Fabric

  /** A heap entry: a due time and the sequence number of the job, which breaks ties. */
  datatype Entry = Entry(time: nat, job: nat)

  datatype Kind = Arrivals | Backends | Active

  predicate Before(a: Entry, b: Entry) {
    a.time < b.time || (a.time == b.time && a.job < b.job)
  }

  ghost predicate Ordered(heap: seq<Entry>) {
    forall i, k :: 0 <= i < k < |heap| ==> Before(heap[i], heap[k])
  }

  /** The jobs that belong in each heap. */
  predicate InKind(kind: Kind, j: Job) {
    match kind
    case Arrivals => j.state.WaitReady?
    case Backends => j.state.BackendReadyPending?
    case Active => j.state.Running?
  }

  predicate Belongs(kind: Kind, jobs: seq<Job>, e: Entry) {
    e.job < |jobs| && InKind(kind, jobs[e.job]) && DueTime(jobs[e.job]) == Some(e.time)
  }

  /** The heap holds exactly the jobs of its kind at their due times, except those due at `popped`. */
  ghost predicate HeapOk(heap: seq<Entry>, jobs: seq<Job>, kind: Kind, popped: Option<nat>) {
    Ordered(heap) && forall e {:trigger Belongs(kind, jobs, e)} {:trigger e in heap} ::
      e in heap <==> Belongs(kind, jobs, e) && popped != Some(e.time)
  }

  /** Push, keeping the pop order. */
  function Push(heap: seq<Entry>, e: Entry): (r: seq<Entry>)
    requires Ordered(heap) && e !in heap
    ensures Ordered(r) && forall x :: x in r <==> x in heap || x == e
  {
    if heap == [] then [e]
    else if Before(e, heap[0]) then [e] + heap
    else
      var rest := Push(heap[1..], e);
      assert heap == [heap[0]] + heap[1..];
      assert forall k :: 0 <= k < |rest| ==> rest[k] in rest;
      [heap[0]] + rest
  }

  lemma FirstIsLeast(heap: seq<Entry>, e: Entry)
    requires Ordered(heap) && e in heap
    ensures e == heap[0] || Before(heap[0], e)
  {
    var k :| 0 <= k < |heap| && heap[k] == e;
  }

  /** A change to a job that was not and is not of the kind. */
  lemma OtherJobChanges(heap: seq<Entry>, jobs: seq<Job>, kind: Kind, popped: Option<nat>, i: nat, j: Job)
    requires HeapOk(heap, jobs, kind, popped) && i < |jobs|
    requires !InKind(kind, jobs[i]) && !InKind(kind, j)
    ensures HeapOk(heap, jobs[i := j], kind, popped)
  {
    forall e ensures e in heap <==> Belongs(kind, jobs[i := j], e) && popped != Some(e.time) {
      assert Belongs(kind, jobs[i := j], e) <==> Belongs(kind, jobs, e);
    }
  }

  lemma JobJoins(heap: seq<Entry>, jobs: seq<Job>, kind: Kind, i: nat, j: Job, t: nat)
    requires HeapOk(heap, jobs, kind, None) && i < |jobs|
    requires !InKind(kind, jobs[i]) && InKind(kind, j) && DueTime(j) == Some(t)
    ensures Entry(t, i) !in heap && HeapOk(Push(heap, Entry(t, i)), jobs[i := j], kind, None)
  {
    assert !Belongs(kind, jobs, Entry(t, i));
    forall e ensures e in Push(heap, Entry(t, i)) <==> Belongs(kind, jobs[i := j], e) {
      if e.job != i {
        assert Belongs(kind, jobs[i := j], e) <==> Belongs(kind, jobs, e);
      } else {
        assert !Belongs(kind, jobs, e);
      }
    }
  }

  /** The least entry is popped and its job moves on. */
  lemma FirstLeaves(heap: seq<Entry>, jobs: seq<Job>, kind: Kind, j: Job)
    requires HeapOk(heap, jobs, kind, None) && heap != [] && !InKind(kind, j)
    ensures Belongs(kind, jobs, heap[0]) && HeapOk(heap[1..], jobs[heap[0].job := j], kind, None)
  {
    assert heap[0] in heap;
    var i, rest := heap[0].job, heap[1..];
    assert heap == [heap[0]] + rest;
    forall e ensures e in rest <==> Belongs(kind, jobs[i := j], e) {
      assert e.job != i ==> (Belongs(kind, jobs[i := j], e) <==> Belongs(kind, jobs, e));
      if e in rest {
        var k :| 0 <= k < |rest| && rest[k] == e;
        assert heap[k + 1] == e && Before(heap[0], e) && e in heap && Belongs(kind, jobs, e);
      }
    }
  }

  /** A job that is appended joins the heap of its kind, and no other. */
  lemma JobAppended(heap: seq<Entry>, jobs: seq<Job>, kind: Kind, j: Job)
    requires HeapOk(heap, jobs, kind, None)
    ensures !InKind(kind, j) ==> HeapOk(heap, jobs + [j], kind, None)
    ensures InKind(kind, j) && DueTime(j).Some? ==>
              var e := Entry(DueTime(j).value, |jobs|);
              e !in heap && HeapOk(Push(heap, e), jobs + [j], kind, None)
  {
    var more := jobs + [j];
    forall e: Entry | e.job != |jobs| ensures Belongs(kind, more, e) <==> Belongs(kind, jobs, e) {
    }
    forall e: Entry | e.job == |jobs| ensures !Belongs(kind, jobs, e) {
    }
  }

  // ---------------------------------------------------------------- entries that are due now

  /** Split off the entries at the head that are due at `now`. */
  function DueCount(heap: seq<Entry>, now: nat): (n: nat)
    ensures n <= |heap| && (forall k :: 0 <= k < n ==> heap[k].time == now) && (n < |heap| ==> heap[n].time != now)
  {
    if heap == [] || heap[0].time != now then 0
    else
      assert forall k :: 1 <= k < |heap| ==> heap[k] == heap[1..][k - 1];
      1 + DueCount(heap[1..], now)
  }

  /** With nothing due before `now`, the split-off entries are all that is due at `now`, in job order. */
  lemma DuePrefix(heap: seq<Entry>, jobs: seq<Job>, kind: Kind, now: nat)
    requires HeapOk(heap, jobs, kind, None) && forall e :: e in heap ==> now <= e.time
    ensures var n := DueCount(heap, now);
            && HeapOk(heap[n..], jobs, kind, Some(now))
            && (forall e :: e in heap[..n] <==> Belongs(kind, jobs, e) && e.time == now)
            && (forall k, m :: 0 <= k < m < n ==> heap[k].job < heap[m].job)
  {
    var n := DueCount(heap, now);
    var rest := heap[n..];
    forall e | e in rest ensures e in heap && e.time != now {
      var k :| 0 <= k < |rest| && rest[k] == e;
      assert heap[n + k] == e && heap[n] in heap;
      assert k > 0 ==> Before(heap[n], heap[n + k]);
    }
    forall e | e in heap ensures e.time == now ==> e in heap[..n] {
      var k :| 0 <= k < |heap| && heap[k] == e;
      if k < n {
        assert heap[..n][k] == e;
      } else {
        assert rest[k - n] == e;
      }
    }
    forall e | e in heap && e.time != now ensures e in rest {
      var k :| 0 <= k < |heap| && heap[k] == e;
      assert rest[k - n] == e;
    }
    forall e | e in heap[..n] ensures e in heap && e.time == now {
      var k :| 0 <= k < n && heap[..n][k] == e;
    }
    forall e ensures e in rest <==> Belongs(kind, jobs, e) && e.time != now {
    }
  }

  /** When nothing of the kind is due at `now`, skipping that time skips nothing. */
  lemma NothingPopped(heap: seq<Entry>, jobs: seq<Job>, kind: Kind, now: nat)
    requires HeapOk(heap, jobs, kind, Some(now))
    requires forall i :: 0 <= i < |jobs| && InKind(kind, jobs[i]) ==> DueTime(jobs[i]) != Some(now)
    ensures HeapOk(heap, jobs, kind, None)
  {
  }

  /** A job of the kind leaves, its entry having been popped before. */
  lemma PoppedLeaves(heap: seq<Entry>, jobs: seq<Job>, kind: Kind, now: nat, i: nat, j: Job)
    requires HeapOk(heap, jobs, kind, Some(now)) && i < |jobs| && DueTime(jobs[i]) == Some(now) && !InKind(kind, j)
    ensures HeapOk(heap, jobs[i := j], kind, Some(now))
  {
    forall e ensures e in heap <==> Belongs(kind, jobs[i := j], e) && Some(now) != Some(e.time) {
      if e.job != i {
        assert Belongs(kind, jobs[i := j], e) <==> Belongs(kind, jobs, e);
      } else {
        assert !Belongs(kind, jobs[i := j], e);
        assert Belongs(kind, jobs, e) ==> e.time == now;
      }
    }
  }

  /** The jobs determine the heap, so states with the same jobs have the same heaps. */
  lemma {:induction false} OrderedIsDetermined(a: seq<Entry>, b: seq<Entry>)
    requires Ordered(a) && Ordered(b) && forall e :: e in a <==> e in b
    ensures a == b
    decreases |a|
  {
    FirstIsIn(a);
    FirstIsIn(b);
    if a != [] {
      FirstIsLeast(a, b[0]);
      FirstIsLeast(b, a[0]);
      assert a[0] == b[0];
      forall e ensures e in a[1..] <==> e in b[1..] {
        TailHas(a, e);
        TailHas(b, e);
      }
      OrderedIsDetermined(a[1..], b[1..]);
      assert a == [a[0]] + a[1..] && b == [b[0]] + b[1..];
    }
  }

  lemma FirstIsIn(heap: seq<Entry>)
    ensures heap != [] ==> heap[0] in heap
  {
  }

  lemma TailHas(heap: seq<Entry>, e: Entry)
    requires Ordered(heap) && heap != []
    ensures e in heap[1..] <==> e in heap && e != heap[0]
  {
    assert heap == [heap[0]] + heap[1..];
    if e in heap[1..] {
      var k :| 0 <= k < |heap[1..]| && heap[1..][k] == e;
      assert Before(heap[0], heap[k + 1]);
    }
  }

  lemma HeapIsDetermined(a: seq<Entry>, b: seq<Entry>, jobs: seq<Job>, kind: Kind)
    requires HeapOk(a, jobs, kind, None) && HeapOk(b, jobs, kind, None)
    ensures a == b
  {
    forall e ensures e in a <==> e in b {
      assert e in a <==> Belongs(kind, jobs, e);
    }
    OrderedIsDetermined(a, b);
  }
}

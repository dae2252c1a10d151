/** Who is served first: each link goes to the waiting job with the lowest sequence number, and so do banks. */
module FabricOrder {
  import opened Wrappers
  import opened Fabric
  import opened FabricHistory
  import opened FabricRun

  // ---------------------------------------------------------------- queues

  /** The link a job that is not running waits for. */
  function Awaits(c: Config, j: Job): Option<Link>
    requires JobOk(c, j)
  {
    match j.state
    case MediaReady => Some(FillLink(j.source.k))
    case ReadyHbf => Some(if j.route.Direct? then DirectLink(j.source.k) else RelayLink(j.source.k))
    case HbmReady => Some(GpuLink(j.source.k))
    case ReadyHbm => Some(GpuLink(c.hbf[j.source.k].pair.value.hbm))
    case _ => None
  }

  predicate OnLinkNow(c: Config, j: Job, l: Link)
    requires JobOk(c, j)
  {
    j.state.Running? && LinkOf(c, j, j.state.stage) == l
  }

  /** Job `i` did not run before and runs now. */
  predicate Starts(s: State, r: State, i: nat) {
    i < |s.jobs| && i < |r.jobs| && !s.jobs[i].state.Running? && r.jobs[i].state.Running?
  }

  /** What one job does in a pass: it stays, or it starts on the link it waited for. */
  ghost predicate StaysOrStarts(c: Config, a: Job, b: Job)
    requires JobOk(c, a) && JobOk(c, b)
  {
    b == a || (Awaits(c, a).Some? && OnLinkNow(c, b, Awaits(c, a).value))
  }

  /** Nobody starts past an earlier job in the queue of the same link. */
  ghost predicate NoOvertaking(c: Config, s: State, r: State)
    requires Shape(c, s) && Shape(c, r)
  {
    forall i, n :: 0 <= n < i < |s.jobs| && Starts(s, r, i) ==>
      Awaits(c, s.jobs[n]).None? || Awaits(c, s.jobs[n]) != Awaits(c, s.jobs[i])
  }

  predicate WaitsToRelay(c: Config, j: Job, m: nat)
    requires JobOk(c, j)
  {
    j.state.ReadyHbf? && j.route.Relay? && HbmOf(c, j) == m
  }

  /** A relay starts past an earlier one for the same HBM partner only if that one's own relay link is taken. */
  ghost predicate BanksInTurn(c: Config, s: State, r: State)
    requires Shape(c, s) && Shape(c, r)
  {
    forall i, n, m :: 0 <= n < i < |s.jobs| && Starts(s, r, i) && WaitsToRelay(c, s.jobs[i], m) && WaitsToRelay(c, s.jobs[n], m) ==>
      Holder(r, OnLink(RelayLink(s.jobs[n].source.k))).Some?
  }

  /** A bank that a starting job takes is the lowest that neither was taken before nor goes to an earlier job. */
  ghost predicate LowestBanks(c: Config, s: State, r: State)
    requires Shape(c, s) && Shape(c, r)
  {
    && (forall i :: 0 <= i < |s.jobs| && Starts(s, r, i) && s.jobs[i].state.MediaReady? ==> LowestHbfBank(s, r, i))
    && (forall i :: 0 <= i < |s.jobs| && Starts(s, r, i) && s.jobs[i].state.ReadyHbf? && s.jobs[i].route.Relay? ==>
          LowestHbmBank(c, s, r, i))
  }

  ghost predicate LowestHbfBank(s: State, r: State, i: nat)
    requires i < |s.jobs| && i < |r.jobs|
  {
    r.jobs[i].hbfBank.Some? && forall b :: 0 <= b < r.jobs[i].hbfBank.value ==> Holder(s, HbfBank(s.jobs[i].source.k, b)).Some?
  }

  ghost predicate LowestHbmBank(c: Config, s: State, r: State, i: nat)
    requires i < |s.jobs| && i < |r.jobs| && JobOk(c, s.jobs[i]) && (s.jobs[i].source.Hbf? ==> s.jobs[i].route.Relay?)
  {
    r.jobs[i].hbmBank.Some? && forall b :: 0 <= b < r.jobs[i].hbmBank.value ==> TakenBefore(s, r, HbmBank(HbmOf(c, s.jobs[i]), b), i)
  }

  predicate TakenBefore(s: State, r: State, slot: Slot, i: nat) {
    Holder(s, slot).Some? || (Holder(r, slot).Some? && Holder(r, slot).value < i)
  }

  // ---------------------------------------------------------------- blocked links

  ghost predicate BothBanks(s: State, a: Slot, b: Slot) {
    Holder(s, a).Some? && Holder(s, b).Some?
  }

  /** The link is taken, or a stage on it finds no free bank. */
  ghost predicate BlockedLink(c: Config, s: State, l: Link) {
    || Holder(s, OnLink(l)).Some?
    || (l.FillLink? && BothBanks(s, HbfBank(l.k, 0), HbfBank(l.k, 1)))
    || (l.RelayLink? && l.k < |c.hbf| && c.hbf[l.k].pair.Some?
        && BothBanks(s, HbmBank(c.hbf[l.k].pair.value.hbm, 0), HbmBank(c.hbf[l.k].pair.value.hbm, 1)))
  }

  /** Both states are good and job `i`, waiting in the first, runs on its link in the second. */
  ghost predicate Started(c: Config, t: State, r: State, i: nat) {
    && Good(c, t) && Good(c, r) && Grows(t, r) && i < |t.jobs| == |r.jobs| && JobOk(c, t.jobs[i]) && JobOk(c, r.jobs[i])
    && Awaits(c, t.jobs[i]).Some? && OnLinkNow(c, r.jobs[i], Awaits(c, t.jobs[i]).value)
    && r.jobs[i].source == t.jobs[i].source && r.jobs[i].route == t.jobs[i].route
  }

  lemma LinkWasFree(c: Config, t: State, r: State, i: nat)
    requires Started(c, t, r, i)
    ensures Holder(t, OnLink(Awaits(c, t.jobs[i]).value)).None?
  {
    hide Good, Grows;
    HeldByOther(c, t, r, OnLink(Awaits(c, t.jobs[i]).value), i);
  }

  lemma FillBankWasFree(c: Config, t: State, r: State, i: nat)
    requires Started(c, t, r, i) && t.jobs[i].state.MediaReady?
    ensures !BothBanks(t, HbfBank(t.jobs[i].source.k, 0), HbfBank(t.jobs[i].source.k, 1))
  {
    hide Good, Grows;
    HeldByOther(c, t, r, HbfBank(t.jobs[i].source.k, r.jobs[i].hbfBank.value), i);
  }

  lemma RelayBankWasFree(c: Config, t: State, r: State, i: nat)
    requires Started(c, t, r, i) && t.jobs[i].state.ReadyHbf? && t.jobs[i].route.Relay?
    ensures !BothBanks(t, HbmBank(HbmOf(c, t.jobs[i]), 0), HbmBank(HbmOf(c, t.jobs[i]), 1))
  {
    hide Good, Grows;
    HeldByOther(c, t, r, HbmBank(HbmOf(c, t.jobs[i]), r.jobs[i].hbmBank.value), i);
  }

  /** A job whose link is blocked does not start while admission goes on. */
  lemma NotBlocked(c: Config, t: State, r: State, i: nat)
    requires Started(c, t, r, i)
    ensures !BlockedLink(c, t, Awaits(c, t.jobs[i]).value)
  {
    hide Good, Grows, BothBanks;
    LinkWasFree(c, t, r, i);
    if t.jobs[i].state.MediaReady? {
      FillBankWasFree(c, t, r, i);
    }
    if t.jobs[i].state.ReadyHbf? && t.jobs[i].route.Relay? {
      RelayBankWasFree(c, t, r, i);
    }
  }

  lemma BlockedStays(c: Config, t: State, r: State, i: nat)
    requires Admits(c, t, r) && i < |t.jobs| && JobOk(c, t.jobs[i]) && JobOk(c, r.jobs[i])
    requires StaysOrStarts(c, t.jobs[i], r.jobs[i])
    requires Awaits(c, t.jobs[i]).Some? && BlockedLink(c, t, Awaits(c, t.jobs[i]).value)
    ensures r.jobs[i] == t.jobs[i]
  {
    if OnLinkNow(c, r.jobs[i], Awaits(c, t.jobs[i]).value) && r.jobs[i] != t.jobs[i] {
      StartedOf(c, t, r, i);
      NotBlocked(c, t, r, i);
    }
  }

  lemma StartedOf(c: Config, t: State, r: State, i: nat)
    requires Admits(c, t, r) && i < |t.jobs| && JobOk(c, t.jobs[i]) && JobOk(c, r.jobs[i])
    requires Awaits(c, t.jobs[i]).Some? && OnLinkNow(c, r.jobs[i], Awaits(c, t.jobs[i]).value)
    ensures Started(c, t, r, i)
  {
    assert Evolved(c, t.now, t.jobs[i], r.jobs[i]);
  }

  lemma GoodOf(c: Config, t: State, r: State)
    requires Ticks(c, t, r)
    ensures Good(c, t) && Good(c, r)
    ensures |t.jobs| == |r.jobs|
  {
  }

  /** A slot that job `i` holds at the end but not at the start was free at the start. */
  lemma HeldByOther(c: Config, t: State, r: State, slot: Slot, i: nat)
    requires Good(c, t) && Good(c, r) && Grows(t, r) && i < |t.jobs| && JobOk(c, t.jobs[i]) && JobOk(c, r.jobs[i])
    requires Claims(c, r.jobs[i], slot) && !Claims(c, t.jobs[i], slot)
    ensures Holder(t, slot).None?
  {
    assert Holder(r, slot) == Some(i);
  }

  // ---------------------------------------------------------------- sending

  /** Only jobs `from` and later that were ready to be sent may have started. */
  ghost predicate SentOnly(c: Config, s: State, r: State, from: nat)
    requires Shape(c, s) && Shape(c, r) && |s.jobs| == |r.jobs|
  {
    forall n :: 0 <= n < |s.jobs| ==>
      StaysOrStarts(c, s.jobs[n], r.jobs[n]) && (n < from || !s.jobs[n].state.ReadyHbf? ==> r.jobs[n] == s.jobs[n])
  }

  /** A job's turn concerns this job alone; afterwards its link is blocked if it was ready. */
  lemma SendTurn(c: Config, s: State, i: nat)
    requires Good(c, s) && i < |s.jobs|
    ensures var t := SendJob(c, s, i);
            && Shape(c, s) && Shape(c, t) && |t.jobs| == |s.jobs| && (forall n :: 0 <= n < |s.jobs| && n != i ==> t.jobs[n] == s.jobs[n])
            && StaysOrStarts(c, s.jobs[i], t.jobs[i]) && (!s.jobs[i].state.ReadyHbf? ==> t == s)
            && (s.jobs[i].state.ReadyHbf? ==> BlockedLink(c, t, Awaits(c, s.jobs[i]).value))
  {
    SendJobSettles(c, s, i);
    AdmitsShapes(c, s, SendJob(c, s, i));
    assert JobOk(c, s.jobs[i]);
    hide Good, Ticks, Grows, Shape;
  }

  lemma {:induction false} SendPassOnly(c: Config, s: State, from: nat)
    requires Good(c, s) && from <= |s.jobs|
    ensures var r := SendJobs(c, s, from);
            Shape(c, s) && Shape(c, r) && |r.jobs| == |s.jobs| && SentOnly(c, s, r, from)
    decreases |s.jobs| - from
  {
    hide Good, Evolves, Grows, StaysOrStarts, SendJob;
    GoodShape(c, s);
    GoodShape(c, SendJobs(c, s, from));
    if from < |s.jobs| {
      SendTurn(c, s, from);
      var t := SendJob(c, s, from);
      SendPassOnly(c, t, from + 1);
    } else {
      EachStays(c, s);
    }
  }

  lemma GoodShape(c: Config, s: State)
    requires Good(c, s)
    ensures Shape(c, s)
  {
  }

  lemma EachStays(c: Config, s: State)
    requires Shape(c, s)
    ensures forall n :: 0 <= n < |s.jobs| ==> StaysOrStarts(c, s.jobs[n], s.jobs[n])
  {
  }

  /** Job `i` does not start past job `n`. */
  ghost predicate InTurn(c: Config, s: State, r: State, n: nat, i: nat)
    requires Shape(c, s) && n < |s.jobs| && i < |s.jobs|
  {
    && Awaits(c, s.jobs[n]) != Awaits(c, s.jobs[i])
    && forall m :: WaitsToRelay(c, s.jobs[n], m) && WaitsToRelay(c, s.jobs[i], m) ==>
         Holder(r, OnLink(RelayLink(s.jobs[n].source.k))).Some?
  }

  /** After the turn of job `n` its link is blocked, so a later job that starts nevertheless waits elsewhere. */
  lemma PastBlocked(c: Config, s: State, t: State, r: State, n: nat, i: nat)
    requires Shape(c, s) && Shape(c, t) && Admits(c, t, r) && n < |s.jobs| == |t.jobs| && i < |s.jobs|
    requires t.jobs[i] == s.jobs[i] && s.jobs[n].state.ReadyHbf? && s.jobs[i].state.ReadyHbf?
    requires BlockedLink(c, t, Awaits(c, s.jobs[n]).value)
    requires JobOk(c, r.jobs[i]) && StaysOrStarts(c, t.jobs[i], r.jobs[i]) && r.jobs[i].state.Running?
    ensures InTurn(c, s, r, n, i)
  {
    hide Ticks;
    assert JobOk(c, s.jobs[n]) && JobOk(c, s.jobs[i]);
    if BlockedLink(c, t, Awaits(c, t.jobs[i]).value) {
      BlockedStays(c, t, r, i);
    }
    forall m | WaitsToRelay(c, s.jobs[n], m) && WaitsToRelay(c, s.jobs[i], m)
      ensures Holder(r, OnLink(RelayLink(s.jobs[n].source.k))).Some?
    {
      assert Holder(t, OnLink(RelayLink(s.jobs[n].source.k))).Some?;
    }
  }

  lemma {:induction false} SendPair(c: Config, s: State, from: nat, n: nat, i: nat)
    requires Good(c, s) && from <= n < i < |s.jobs| && s.jobs[n].state.ReadyHbf? && Starts(s, SendJobs(c, s, from), i)
    ensures Shape(c, s) && InTurn(c, s, SendJobs(c, s, from), n, i)
    decreases n - from
  {
    hide Good, Evolves, Grows, StaysOrStarts, SendJob, InTurn, BlockedLink;
    GoodShape(c, s);
    SendTurn(c, s, from);
    SendPassOnly(c, s, from);
    var t, r := SendJob(c, s, from), SendJobs(c, s, from);
    SendPassOnly(c, t, from + 1);
    if n == from {
      PastBlocked(c, s, t, r, n, i);
    } else {
      SendPair(c, t, from + 1, n, i);
      SameJobsInTurn(c, s, t, r, n, i);
    }
  }

  lemma SameJobsInTurn(c: Config, s: State, t: State, r: State, n: nat, i: nat)
    requires Shape(c, s) && Shape(c, t) && n < |s.jobs| == |t.jobs| && i < |s.jobs|
    requires t.jobs[n] == s.jobs[n] && t.jobs[i] == s.jobs[i] && InTurn(c, t, r, n, i)
    ensures InTurn(c, s, r, n, i)
  {
  }

  // ---------------------------------------------------------------- the bank of a relay

  /** The bank a starting relay takes is the lowest free one at its turn, and no other slot but its link changes. */
  lemma RelayTurn(c: Config, s: State, i: nat)
    requires Good(c, s) && i < |s.jobs|
    ensures var t := SendJob(c, s, i);
            && Shape(c, s) && |t.jobs| == |s.jobs|
            && (Starts(s, t, i) && s.jobs[i].route.Relay? && s.jobs[i].state.ReadyHbf? ==> LowestHbmBank(c, s, t, i))
            && forall m, b :: Holder(t, HbmBank(m, b)) == Holder(s, HbmBank(m, b)) || Holder(t, HbmBank(m, b)) == Some(i)
  {
    assert JobOk(c, s.jobs[i]);
    hide Good, Ticks, Grows;
  }

  lemma {:induction false} SendBank(c: Config, s: State, from: nat, i: nat)
    requires Good(c, s) && from <= i < |s.jobs| && Starts(s, SendJobs(c, s, from), i)
    requires s.jobs[i].state.ReadyHbf? && s.jobs[i].route.Relay?
    ensures Shape(c, s) && LowestHbmBank(c, s, SendJobs(c, s, from), i)
    decreases i - from
  {
    hide Good, Evolves, Grows, StaysOrStarts, SendJob, BlockedLink;
    GoodShape(c, s);
    SendTurn(c, s, from);
    RelayTurn(c, s, from);
    var t, r := SendJob(c, s, from), SendJobs(c, s, from);
    SendPassOnly(c, t, from + 1);
    if i > from {
      SendBank(c, t, from + 1, i);
      BankLater(c, s, t, r, from, i);
    }
  }

  lemma BankLater(c: Config, s: State, t: State, r: State, from: nat, i: nat)
    requires Shape(c, s) && Shape(c, t) && Admits(c, t, r) && from < i < |s.jobs| == |t.jobs| && t.jobs[i] == s.jobs[i]
    requires s.jobs[i].state.ReadyHbf? && s.jobs[i].route.Relay? && LowestHbmBank(c, t, r, i)
    requires forall m, b :: Holder(t, HbmBank(m, b)) == Holder(s, HbmBank(m, b)) || Holder(t, HbmBank(m, b)) == Some(from)
    ensures LowestHbmBank(c, s, r, i)
  {
    hide Ticks;
    var m := HbmOf(c, s.jobs[i]);
    forall b | 0 <= b < r.jobs[i].hbmBank.value ensures TakenBefore(s, r, HbmBank(m, b), i) {
      assert TakenBefore(t, r, HbmBank(m, b), i);
    }
  }

  // ---------------------------------------------------------------- filling

  predicate WaitsToFill(j: Job, k: nat) {
    j.source == Hbf(k) && j.state.MediaReady?
  }

  lemma AdmitsShapes(c: Config, s: State, r: State)
    requires Admits(c, s, r)
    ensures Shape(c, s) && Shape(c, r) && |s.jobs| == |r.jobs| && |r.hbf| == |s.hbf| && |r.hbm| == |s.hbm|
  {
  }

  /** Job `i` of stack `k` is the only one that differs, and it runs on the link it waited for. */
  lemma FillStarts(c: Config, s: State, k: nat, i: nat, bank: nat)
    requires Shape(c, s) && CanFill(s, k, i, bank) && Shape(c, StartFill(c, s, k, i, bank))
    ensures var t := StartFill(c, s, k, i, bank);
            && t.hbm == s.hbm && |t.hbf| == |s.hbf| && (forall m :: 0 <= m < |s.hbf| && m != k ==> t.hbf[m] == s.hbf[m])
            && |t.jobs| == |s.jobs| && (forall n :: 0 <= n < |s.jobs| && n != i ==> t.jobs[n] == s.jobs[n])
            && StaysOrStarts(c, s.jobs[i], t.jobs[i]) && t.jobs[i].hbfBank == Some(bank)
  {
  }

  lemma LowestFree(s: State, k: nat, bank: nat)
    requires k < |s.hbf| && FreeBank(s.hbf[k].banks) == Some(bank)
    ensures forall b :: 0 <= b < bank ==> Holder(s, HbfBank(k, b)).Some?
  {
  }

  /** A stack's turn starts at most its first waiting job, in its lowest free bank. */
  lemma FillTurn(c: Config, s: State, k: nat)
    requires Good(c, s) && k < |s.hbf|
    ensures var t := FillStack(c, s, k);
            && Shape(c, s) && Shape(c, t) && |t.jobs| == |s.jobs| && |t.hbf| == |s.hbf| && t.hbm == s.hbm
            && (forall m :: 0 <= m < |s.hbf| && m != k ==> t.hbf[m] == s.hbf[m])
            && (forall n :: 0 <= n < |s.jobs| ==> StaysOrStarts(c, s.jobs[n], t.jobs[n]))
            && (forall n :: 0 <= n < |s.jobs| && !WaitsToFill(s.jobs[n], k) ==> t.jobs[n] == s.jobs[n])
            && (forall i, n :: 0 <= n < i < |s.jobs| && t.jobs[i] != s.jobs[i] ==> !WaitsToFill(s.jobs[n], k))
            && (forall i :: 0 <= i < |s.jobs| && t.jobs[i] != s.jobs[i] ==> LowestHbfBank(s, t, i))
  {
    hide Good, Ticks, Grows, StartFill, StaysOrStarts;
    AdmitsShapes(c, s, FillStack(c, s, k));
    EachStays(c, s);
    var bank, job := FreeBank(s.hbf[k].banks), FirstMediaReady(s.jobs, k, 0);
    if s.hbf[k].fill.None? && bank.Some? && job.Some? {
      FillStarts(c, s, k, job.value, bank.value);
      LowestFree(s, k, bank.value);
    }
  }

  /** Stacks from `k` on have had their turns. */
  ghost predicate FilledFrom(c: Config, s: State, r: State, k: nat)
    requires Shape(c, s) && Shape(c, r) && |s.jobs| == |r.jobs|
  {
    && r.hbm == s.hbm
    && forall i :: 0 <= i < |s.jobs| ==> FilledJob(c, s, r, k, i)
  }

  ghost predicate FilledJob(c: Config, s: State, r: State, k: nat, i: nat)
    requires Shape(c, s) && Shape(c, r) && i < |s.jobs| == |r.jobs|
  {
    && StaysOrStarts(c, s.jobs[i], r.jobs[i])
    && (r.jobs[i] == s.jobs[i] ||
        (&& s.jobs[i].state.MediaReady? && s.jobs[i].source.k >= k && LowestHbfBank(s, r, i)
         && forall n :: 0 <= n < i ==> !WaitsToFill(s.jobs[n], s.jobs[i].source.k)))
  }

  lemma {:induction false} FillPass(c: Config, s: State, k: nat)
    requires Good(c, s) && k <= |s.hbf|
    ensures var r := FillStacks(c, s, k);
            Shape(c, s) && Shape(c, r) && |r.jobs| == |s.jobs| && FilledFrom(c, s, r, k)
    decreases |s.hbf| - k
  {
    hide Good, Evolves, Grows, FillStack, FilledJob;
    GoodShape(c, s);
    GoodShape(c, FillStacks(c, s, k));
    if k < |s.hbf| {
      FillTurn(c, s, k);
      var t, r := FillStack(c, s, k), FillStacks(c, s, k);
      FillPass(c, t, k + 1);
      forall i | 0 <= i < |s.jobs| ensures FilledJob(c, s, r, k, i) {
        FilledOnward(c, s, t, r, k, i);
      }
    } else {
      EachStays(c, s);
      forall i | 0 <= i < |s.jobs| ensures FilledJob(c, s, s, k, i) {
        Unfilled(c, s, k, i);
      }
    }
  }

  lemma Unfilled(c: Config, s: State, k: nat, i: nat)
    requires Shape(c, s) && i < |s.jobs|
    ensures FilledJob(c, s, s, k, i)
  {
  }

  lemma FilledOnward(c: Config, s: State, t: State, r: State, k: nat, i: nat)
    requires Shape(c, s) && Shape(c, t) && Shape(c, r) && i < |s.jobs| == |t.jobs| == |r.jobs| && |t.hbf| == |s.hbf|
    requires forall m :: 0 <= m < |s.hbf| && m != k ==> t.hbf[m] == s.hbf[m]
    requires forall n :: 0 <= n < |s.jobs| ==> StaysOrStarts(c, s.jobs[n], t.jobs[n])
    requires forall n :: 0 <= n < |s.jobs| && !WaitsToFill(s.jobs[n], k) ==> t.jobs[n] == s.jobs[n]
    requires forall q, n :: 0 <= n < q < |s.jobs| && t.jobs[q] != s.jobs[q] ==> !WaitsToFill(s.jobs[n], k)
    requires t.jobs[i] != s.jobs[i] ==> LowestHbfBank(s, t, i)
    requires FilledJob(c, t, r, k + 1, i)
    ensures FilledJob(c, s, r, k, i)
  {
    if t.jobs[i] == s.jobs[i] && r.jobs[i] != s.jobs[i] {
      var m := s.jobs[i].source.k;
      forall n | 0 <= n < i ensures !WaitsToFill(s.jobs[n], m) {
        assert !WaitsToFill(t.jobs[n], m);
      }
      forall b | 0 <= b < r.jobs[i].hbfBank.value ensures Holder(s, HbfBank(m, b)).Some? {
        assert Holder(t, HbfBank(m, b)).Some?;
      }
    }
  }

  // ---------------------------------------------------------------- draining

  lemma DrainStarts(c: Config, s: State, k: nat, i: nat)
    requires Shape(c, s) && CanGpu(c, s, k, i) && Shape(c, StartGpu(c, s, k, i))
    ensures var t := StartGpu(c, s, k, i);
            && |t.jobs| == |s.jobs| && (forall n :: 0 <= n < |s.jobs| && n != i ==> t.jobs[n] == s.jobs[n])
            && StaysOrStarts(c, s.jobs[i], t.jobs[i])
  {
  }

  lemma DrainTurn(c: Config, s: State, k: nat)
    requires Good(c, s) && k < |s.hbm|
    ensures var t := GpuStack(c, s, k);
            && Shape(c, s) && Shape(c, t) && |t.jobs| == |s.jobs| && |t.hbm| == |s.hbm|
            && (forall n :: 0 <= n < |s.jobs| ==> StaysOrStarts(c, s.jobs[n], t.jobs[n]))
            && (forall n :: 0 <= n < |s.jobs| && !IsGpuCandidate(c, s.jobs[n], k) ==> t.jobs[n] == s.jobs[n])
            && (forall i, n :: 0 <= n < i < |s.jobs| && t.jobs[i] != s.jobs[i] ==> !IsGpuCandidate(c, s.jobs[n], k))
  {
    hide Good, Ticks, Grows, StartGpu, StaysOrStarts, IsGpuCandidate;
    AdmitsShapes(c, s, GpuStack(c, s, k));
    EachStays(c, s);
    var job := FirstGpuCandidate(c, s.jobs, k, 0);
    if s.hbm[k].gpu.None? && job.Some? {
      DrainStarts(c, s, k, job.value);
    }
  }

  ghost predicate DrainedJob(c: Config, s: State, r: State, k: nat, i: nat)
    requires Shape(c, s) && Shape(c, r) && i < |s.jobs| == |r.jobs|
  {
    && StaysOrStarts(c, s.jobs[i], r.jobs[i])
    && (r.jobs[i] == s.jobs[i] ||
        exists m :: k <= m < |s.hbm| && IsGpuCandidate(c, s.jobs[i], m)
                    && forall n :: 0 <= n < i ==> !IsGpuCandidate(c, s.jobs[n], m))
  }

  lemma {:induction false} DrainPass(c: Config, s: State, k: nat)
    requires Good(c, s) && k <= |s.hbm|
    ensures var r := GpuStacks(c, s, k);
            Shape(c, s) && Shape(c, r) && |r.jobs| == |s.jobs| && forall i :: 0 <= i < |s.jobs| ==> DrainedJob(c, s, r, k, i)
    decreases |s.hbm| - k
  {
    hide Good, Evolves, Grows, GpuStack, DrainedJob, IsGpuCandidate;
    GoodShape(c, s);
    GoodShape(c, GpuStacks(c, s, k));
    if k < |s.hbm| {
      DrainTurn(c, s, k);
      var t, r := GpuStack(c, s, k), GpuStacks(c, s, k);
      DrainPass(c, t, k + 1);
      forall i | 0 <= i < |s.jobs| ensures DrainedJob(c, s, r, k, i) {
        DrainedOnward(c, s, t, r, k, i);
      }
    } else {
      EachStays(c, s);
      forall i | 0 <= i < |s.jobs| ensures DrainedJob(c, s, s, k, i) {
        Undrained(c, s, k, i);
      }
    }
  }

  lemma Undrained(c: Config, s: State, k: nat, i: nat)
    requires Shape(c, s) && i < |s.jobs|
    ensures DrainedJob(c, s, s, k, i)
  {
  }

  lemma DrainedOnward(c: Config, s: State, t: State, r: State, k: nat, i: nat)
    requires Shape(c, s) && Shape(c, t) && Shape(c, r) && i < |s.jobs| == |t.jobs| == |r.jobs| && k < |s.hbm| == |t.hbm|
    requires forall n :: 0 <= n < |s.jobs| ==> StaysOrStarts(c, s.jobs[n], t.jobs[n])
    requires forall n :: 0 <= n < |s.jobs| && !IsGpuCandidate(c, s.jobs[n], k) ==> t.jobs[n] == s.jobs[n]
    requires forall q, n :: 0 <= n < q < |s.jobs| && t.jobs[q] != s.jobs[q] ==> !IsGpuCandidate(c, s.jobs[n], k)
    requires DrainedJob(c, t, r, k + 1, i)
    ensures DrainedJob(c, s, r, k, i)
  {
    if t.jobs[i] != s.jobs[i] {
      assert IsGpuCandidate(c, s.jobs[i], k);
      assert t.jobs[i].state.Running? && r.jobs[i] == t.jobs[i];
    } else if r.jobs[i] != t.jobs[i] {
      var m :| k + 1 <= m < |t.hbm| && IsGpuCandidate(c, t.jobs[i], m)
               && forall n :: 0 <= n < i ==> !IsGpuCandidate(c, t.jobs[n], m);
      forall n | 0 <= n < i ensures !IsGpuCandidate(c, s.jobs[n], m) {
        assert !IsGpuCandidate(c, t.jobs[n], m);
        OneQueue(c, s.jobs[n], k, m);
      }
    }
  }

  lemma OneQueue(c: Config, j: Job, k: nat, m: nat)
    ensures IsGpuCandidate(c, j, k) && IsGpuCandidate(c, j, m) ==> k == m
  {
  }

  // ---------------------------------------------------------------- one pass of admission

  /** Each link goes to the first that waits for it, and each bank to the first that can use it. */
  ghost predicate FirstCome(c: Config, s: State, r: State)
    requires Shape(c, s) && Shape(c, r)
  {
    && |r.jobs| == |s.jobs| && (forall i :: 0 <= i < |s.jobs| ==> StaysOrStarts(c, s.jobs[i], r.jobs[i]))
    && NoOvertaking(c, s, r) && BanksInTurn(c, s, r) && LowestBanks(c, s, r)
  }

  /** The states before, between and after the three loops. */
  ghost predicate Phases(c: Config, s: State, f: State, u: State, r: State) {
    && Good(c, s) && Good(c, f) && Good(c, u) && Grows(s, f) && Grows(f, u) && Grows(u, r)
    && Shape(c, s) && Shape(c, f) && Shape(c, u) && Shape(c, r) && |s.jobs| == |f.jobs| == |u.jobs| == |r.jobs|
    && FilledFrom(c, s, f, 0) && SentOnly(c, f, u, 0) && u == SendJobs(c, f, 0)
    && forall i :: 0 <= i < |u.jobs| ==> DrainedJob(c, u, r, 0, i)
  }

  lemma AdmitHasPhases(c: Config, s: State)
    requires Good(c, s)
    ensures var f := FillStacks(c, s, 0);
            Phases(c, s, f, SendJobs(c, f, 0), Admit(c, s))
  {
    hide Good, Evolves, Grows, Shape, FilledFrom, SentOnly, DrainedJob;
    var f := FillStacks(c, s, 0);
    var u := SendJobs(c, f, 0);
    FillPass(c, s, 0);
    SendPassOnly(c, f, 0);
    DrainPass(c, u, 0);
    AdmitsShapes(c, s, f);
    AdmitsShapes(c, f, u);
    AdmitsShapes(c, u, GpuStacks(c, u, 0));
  }

  /** A job is moved by one of the loops only, the one for the link it waits for. */
  lemma MovedOnce(c: Config, s: State, f: State, u: State, r: State, i: nat)
    requires Phases(c, s, f, u, r) && i < |s.jobs|
    ensures JobOk(c, s.jobs[i]) && JobOk(c, r.jobs[i]) && StaysOrStarts(c, s.jobs[i], r.jobs[i])
    ensures !s.jobs[i].state.MediaReady? ==> f.jobs[i] == s.jobs[i]
    ensures !s.jobs[i].state.MediaReady? && !s.jobs[i].state.ReadyHbf? ==> u.jobs[i] == s.jobs[i]
    ensures s.jobs[i].state.MediaReady? ==> r.jobs[i] == f.jobs[i]
    ensures s.jobs[i].state.ReadyHbf? ==> r.jobs[i] == u.jobs[i]
  {
    hide Good, Grows, SendJobs;
    assert FilledJob(c, s, f, 0, i) && DrainedJob(c, u, r, 0, i);
    assert JobOk(c, s.jobs[i]) && JobOk(c, f.jobs[i]) && JobOk(c, u.jobs[i]) && JobOk(c, r.jobs[i]);
  }

  /** Job `i` does not go past job `n`, if that waits at all. */
  ghost predicate Yields(c: Config, s: State, r: State, n: nat, i: nat) {
    && n < |s.jobs| && i < |s.jobs| && JobOk(c, s.jobs[n]) && JobOk(c, s.jobs[i])
    && (Awaits(c, s.jobs[n]).None? || Awaits(c, s.jobs[n]) != Awaits(c, s.jobs[i]))
    && forall m :: WaitsToRelay(c, s.jobs[i], m) && WaitsToRelay(c, s.jobs[n], m) ==>
         Holder(r, OnLink(RelayLink(s.jobs[n].source.k))).Some?
  }

  lemma SendsInTurn(c: Config, s: State, f: State, u: State, r: State, n: nat, i: nat)
    requires Good(c, f) && Shape(c, s) && n < i < |s.jobs| == |f.jobs| == |u.jobs| == |r.jobs|
    requires u == SendJobs(c, f, 0) && Grows(u, r) && s.jobs[n].state.ReadyHbf?
    requires f.jobs[n] == s.jobs[n] && f.jobs[i] == s.jobs[i] && u.jobs[i] == r.jobs[i] && Starts(s, r, i)
    ensures Yields(c, s, r, n, i)
  {
    hide Good, SendJobs, Grows;
    SendPair(c, f, 0, n, i);
    assert JobOk(c, s.jobs[n]) && JobOk(c, s.jobs[i]);
    forall m | WaitsToRelay(c, s.jobs[i], m) && WaitsToRelay(c, s.jobs[n], m)
      ensures Holder(r, OnLink(RelayLink(s.jobs[n].source.k))).Some?
    {
      StaysHeld(u, r, OnLink(RelayLink(s.jobs[n].source.k)));
    }
  }

  lemma StaysHeld(u: State, r: State, slot: Slot)
    requires Grows(u, r)
    ensures Holder(u, slot).Some? ==> Holder(r, slot) == Holder(u, slot)
  {
  }

  lemma FillsInTurn(c: Config, s: State, f: State, r: State, n: nat, i: nat)
    requires Shape(c, s) && Shape(c, f) && n < i < |s.jobs| == |f.jobs| == |r.jobs|
    requires FilledJob(c, s, f, 0, i) && r.jobs[i] == f.jobs[i] && Starts(s, r, i) && s.jobs[i].state.MediaReady?
    ensures Yields(c, s, r, n, i)
  {
    assert JobOk(c, s.jobs[n]) && JobOk(c, s.jobs[i]);
    assert !WaitsToFill(s.jobs[n], s.jobs[i].source.k);
  }

  lemma StartsInTurn(c: Config, s: State, f: State, u: State, r: State, n: nat, i: nat)
    requires Phases(c, s, f, u, r) && n < i < |s.jobs| && Starts(s, r, i)
    ensures Yields(c, s, r, n, i)
  {
    MovedOnce(c, s, f, u, r, i);
    MovedOnce(c, s, f, u, r, n);
    hide Good, SendJobs, Shape, Grows, Yields, StaysOrStarts, SentOnly, DrainedJob, FilledJob;
    if s.jobs[i].state.MediaReady? {
      FillsInTurn(c, s, f, r, n, i);
    } else if s.jobs[i].state.ReadyHbf? {
      if s.jobs[n].state.ReadyHbf? {
        SendsInTurn(c, s, f, u, r, n, i);
      } else {
        OtherQueue(c, s, r, n, i);
      }
    } else {
      DrainsInTurn(c, s, u, r, n, i);
    }
  }

  lemma OtherQueue(c: Config, s: State, r: State, n: nat, i: nat)
    requires Shape(c, s) && n < |s.jobs| && i < |s.jobs| && s.jobs[i].state.ReadyHbf? && !s.jobs[n].state.ReadyHbf?
    ensures Yields(c, s, r, n, i)
  {
    assert JobOk(c, s.jobs[n]) && JobOk(c, s.jobs[i]);
  }

  lemma DrainsInTurn(c: Config, s: State, u: State, r: State, n: nat, i: nat)
    requires Shape(c, s) && Shape(c, u) && Shape(c, r) && n < i < |s.jobs| == |u.jobs| == |r.jobs|
    requires DrainedJob(c, u, r, 0, i) && u.jobs[i] == s.jobs[i] && Starts(s, r, i)
    requires u.jobs[n] == s.jobs[n] || s.jobs[n].state.MediaReady? || s.jobs[n].state.ReadyHbf?
    ensures Yields(c, s, r, n, i)
  {
    var m :| 0 <= m < |u.hbm| && IsGpuCandidate(c, u.jobs[i], m) && forall q :: 0 <= q < i ==> !IsGpuCandidate(c, u.jobs[q], m);
    assert JobOk(c, s.jobs[n]) && JobOk(c, s.jobs[i]);
    assert u.jobs[n] == s.jobs[n] ==> !IsGpuCandidate(c, s.jobs[n], m);
  }

  lemma StartsInLowestBank(c: Config, s: State, f: State, u: State, r: State, i: nat)
    requires Phases(c, s, f, u, r) && i < |s.jobs| && Starts(s, r, i)
    ensures s.jobs[i].state.MediaReady? ==> LowestHbfBank(s, r, i)
    ensures JobOk(c, s.jobs[i])
    ensures s.jobs[i].state.ReadyHbf? && s.jobs[i].route.Relay? ==> LowestHbmBank(c, s, r, i)
  {
    MovedOnce(c, s, f, u, r, i);
    hide Good, SendJobs, Shape, Grows, StaysOrStarts, SentOnly, DrainedJob, LowestHbmBank;
    if s.jobs[i].state.MediaReady? {
      assert FilledJob(c, s, f, 0, i);
    } else if s.jobs[i].state.ReadyHbf? && s.jobs[i].route.Relay? {
      SendBank(c, f, 0, i);
      BankThroughout(c, s, f, u, r, i);
    }
  }

  lemma BankThroughout(c: Config, s: State, f: State, u: State, r: State, i: nat)
    requires i < |s.jobs| == |f.jobs| == |u.jobs| == |r.jobs| && JobOk(c, s.jobs[i]) && f.hbm == s.hbm && Grows(u, r)
    requires f.jobs[i] == s.jobs[i] && r.jobs[i] == u.jobs[i] && s.jobs[i].state.ReadyHbf? && s.jobs[i].route.Relay?
    requires LowestHbmBank(c, f, u, i)
    ensures LowestHbmBank(c, s, r, i)
  {
    var m := HbmOf(c, s.jobs[i]);
    forall b | 0 <= b < r.jobs[i].hbmBank.value ensures TakenBefore(s, r, HbmBank(m, b), i) {
      assert TakenBefore(f, u, HbmBank(m, b), i);
    }
  }

  lemma PhaseShapes(c: Config, s: State, f: State, u: State, r: State)
    requires Phases(c, s, f, u, r)
    ensures Shape(c, s) && Shape(c, r) && |s.jobs| == |r.jobs|
  {
  }

  /** Every pair yields. */
  ghost predicate AllYield(c: Config, s: State, r: State) {
    forall i, n :: 0 <= n < i < |s.jobs| && Starts(s, r, i) ==> Yields(c, s, r, n, i)
  }

  lemma YieldingIsOrder(c: Config, s: State, r: State)
    requires Shape(c, s) && Shape(c, r) && AllYield(c, s, r)
    ensures NoOvertaking(c, s, r) && BanksInTurn(c, s, r)
  {
    hide Starts, Awaits, WaitsToRelay;
    forall i, n | 0 <= n < i < |s.jobs| && Starts(s, r, i)
      ensures Awaits(c, s.jobs[n]).None? || Awaits(c, s.jobs[n]) != Awaits(c, s.jobs[i])
      ensures forall m :: WaitsToRelay(c, s.jobs[i], m) && WaitsToRelay(c, s.jobs[n], m) ==>
                Holder(r, OnLink(RelayLink(s.jobs[n].source.k))).Some?
    {
      assert Yields(c, s, r, n, i);
    }
  }

  lemma PhasesYield(c: Config, s: State, f: State, u: State, r: State)
    requires Phases(c, s, f, u, r)
    ensures AllYield(c, s, r)
  {
    hide Phases, Starts, Yields;
    forall i, n | 0 <= n < i < |s.jobs| && Starts(s, r, i) ensures Yields(c, s, r, n, i) {
      StartsInTurn(c, s, f, u, r, n, i);
    }
  }

  lemma PhasesBanks(c: Config, s: State, f: State, u: State, r: State)
    requires Phases(c, s, f, u, r)
    ensures Shape(c, s) && Shape(c, r) && LowestBanks(c, s, r)
  {
    hide Phases, Starts, LowestHbfBank, LowestHbmBank;
    PhaseShapes(c, s, f, u, r);
    forall i | 0 <= i < |s.jobs| && Starts(s, r, i)
      ensures s.jobs[i].state.MediaReady? ==> LowestHbfBank(s, r, i)
      ensures s.jobs[i].state.ReadyHbf? && s.jobs[i].route.Relay? ==> JobOk(c, s.jobs[i]) && LowestHbmBank(c, s, r, i)
    {
      StartsInLowestBank(c, s, f, u, r, i);
    }
  }

  lemma PhasesInOrder(c: Config, s: State, f: State, u: State, r: State)
    requires Phases(c, s, f, u, r)
    ensures Shape(c, s) && Shape(c, r) && FirstCome(c, s, r)
  {
    hide Phases, StaysOrStarts, AllYield, NoOvertaking, BanksInTurn, LowestBanks;
    PhaseShapes(c, s, f, u, r);
    forall i | 0 <= i < |s.jobs| ensures StaysOrStarts(c, s.jobs[i], r.jobs[i]) {
      MovedOnce(c, s, f, u, r, i);
    }
    PhasesYield(c, s, f, u, r);
    YieldingIsOrder(c, s, r);
    PhasesBanks(c, s, f, u, r);
  }

  /**
   First come, first served.  Of the jobs that wait for one link only the one with the lowest sequence number
   starts; a relay goes past an earlier one for the same HBM stack only if that one's own link is taken; and
   every bank taken is the lowest that is left.
   */
  lemma AdmitIsFirstCome(c: Config, s: State)
    requires Good(c, s)
    ensures Shape(c, s) && Shape(c, Admit(c, s)) && FirstCome(c, s, Admit(c, s))
  {
    hide Good, Phases, FirstCome, Evolves, Grows, Shape, Admit;
    AdmitHasPhases(c, s);
    var f := FillStacks(c, s, 0);
    PhasesInOrder(c, s, f, SendJobs(c, f, 0), Admit(c, s));
  }
}

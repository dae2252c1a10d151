/** Extracting the certain crossings of a whole trajectory, and the stretches that cannot be decided. */
module CrossingEvents {
  import opened Wrappers
  import opened Crossing

  /** A crossing problem: the samples, the threshold, and half the quantum. */
  datatype Problem = Problem(samples: seq<Sample>, threshold: real, half: real)

  predicate Sure(p: Problem, i: nat)
    requires i < |p.samples|
  {
    Side(p.samples[i].value, p.threshold, p.half) != 0
  }

  function SideAt(p: Problem, i: nat): int
    requires i < |p.samples|
  {
    Side(p.samples[i].value, p.threshold, p.half)
  }

  ghost predicate ProblemOk(p: Problem) {
    Increasing(p.samples) && p.half >= 0.0
  }

  // ---------------------------------------------------------------- brackets

  /** Consecutive sure samples: everything between them is undecided. */
  ghost predicate Consecutive(p: Problem, a: nat, b: nat) {
    && a < b < |p.samples| && Sure(p, a) && Sure(p, b)
    && forall i :: a < i < b ==> !Sure(p, i)
  }

  /** Consecutive sure samples on opposite sides. */
  ghost predicate IsBracket(p: Problem, a: nat, b: nat) {
    Consecutive(p, a, b) && SideAt(p, a) != SideAt(p, b)
  }

  /** The last sure sample before position `n`. */
  function LastSure(p: Problem, n: nat): (r: Option<nat>)
    requires n <= |p.samples|
    ensures r.Some? ==> r.value < n && Sure(p, r.value) && forall i :: r.value < i < n ==> !Sure(p, i)
    ensures r.None? ==> forall i :: 0 <= i < n ==> !Sure(p, i)
  {
    if n == 0 then None else if Sure(p, n - 1) then Some(n - 1) else LastSure(p, n - 1)
  }

  /** The brackets whose right end lies before position `n`, in order. */
  function Brackets(p: Problem, n: nat): seq<(nat, nat)>
    requires n <= |p.samples|
  {
    if n == 0 then []
    else
      var last := LastSure(p, n - 1);
      Brackets(p, n - 1)
      + if Sure(p, n - 1) && last.Some? && SideAt(p, n - 1) != SideAt(p, last.value) then [(last.value, n - 1)] else []
  }

  /** Exactly the brackets are listed. */
  lemma {:induction false} BracketsAreExact(p: Problem, n: nat, a: nat, b: nat)
    requires n <= |p.samples|
    ensures (a, b) in Brackets(p, n) <==> b < n && IsBracket(p, a, b)
  {
    if n > 0 {
      BracketsAreExact(p, n - 1, a, b);
      if b == n - 1 && IsBracket(p, a, b) {
        assert LastSure(p, n - 1) == Some(a);
      }
    }
  }

  ghost predicate InOrder(p: Problem, s: seq<(nat, nat)>) {
    && (forall k :: 0 <= k < |s| ==> IsBracket(p, s[k].0, s[k].1))
    && (forall k, m :: 0 <= k < m < |s| ==> s[k].1 <= s[m].0)
  }

  /** Brackets follow one another, and a new one starts on the side where the previous one ended. */
  ghost predicate Alternates(p: Problem, s: seq<(nat, nat)>) {
    forall k :: 0 < k < |s| && InRange(p, s[k - 1]) && InRange(p, s[k]) ==> SideAt(p, s[k].0) == SideAt(p, s[k - 1].1)
  }

  predicate InRange(p: Problem, b: (nat, nat)) {
    b.0 < b.1 < |p.samples|
  }

  lemma AppendFollows(p: Problem, s: seq<(nat, nat)>, b: (nat, nat))
    requires InOrder(p, s) && Alternates(p, s) && IsBracket(p, b.0, b.1)
    requires s != [] ==> s[|s| - 1].1 <= b.0 && SideAt(p, b.0) == SideAt(p, s[|s| - 1].1)
    ensures InOrder(p, s + [b]) && Alternates(p, s + [b])
  {
    var t := s + [b];
    forall k, m | 0 <= k < m < |t| ensures t[k].1 <= t[m].0 {
      if m == |s| && k < |s| - 1 {
        assert s[k].1 <= s[|s| - 1].0 && IsBracket(p, s[|s| - 1].0, s[|s| - 1].1);
      }
    }
  }

  lemma {:induction false} BracketsFollow(p: Problem, n: nat)
    requires n <= |p.samples|
    ensures InOrder(p, Brackets(p, n)) && Alternates(p, Brackets(p, n))
    ensures var s := Brackets(p, n);
            s != [] ==> s[|s| - 1].1 < |p.samples| && LastSure(p, n).Some? && s[|s| - 1].1 <= LastSure(p, n).value
                        && SideAt(p, s[|s| - 1].1) == SideAt(p, LastSure(p, n).value)
  {
    hide SideAt, InOrder, Alternates;
    if n == 0 {
      assert InOrder(p, []) && Alternates(p, []) by { NoBrackets(p); }
    } else {
      BracketsFollow(p, n - 1);
      var last := LastSure(p, n - 1);
      if Sure(p, n - 1) && last.Some? && SideAt(p, n - 1) != SideAt(p, last.value) {
        AppendFollows(p, Brackets(p, n - 1), (last.value, n - 1));
      } else {
        assert Brackets(p, n) == Brackets(p, n - 1);
      }
    }
  }

  lemma NoBrackets(p: Problem)
    ensures InOrder(p, []) && Alternates(p, [])
  {
  }

  // ---------------------------------------------------------------- events

  /** What the extraction reports about a bracket. */
  function EventOf(p: Problem, b: (nat, nat), id: nat): Event
    requires p.half >= 0.0 && InRange(p, b) && Opposite(p.samples[b.0], p.samples[b.1], p.threshold, p.half)
  {
    var corners := Corners(p.samples[b.0], p.samples[b.1], p.threshold, p.half);
    Event(id, SideAt(p, b.1) > 0, Lowest(corners).Floor, Ceiling(Highest(corners)), b.0 + 1 < b.1)
  }

  lemma BracketIsOpposite(p: Problem, a: nat, b: nat)
    requires IsBracket(p, a, b)
    ensures Opposite(p.samples[a], p.samples[b], p.threshold, p.half)
  {
  }

  /** `events` reports the brackets, in order and numbered from 1. */
  ghost predicate Reports(p: Problem, events: seq<Event>, brackets: seq<(nat, nat)>) {
    && p.half >= 0.0 && |events| == |brackets|
    && forall k :: 0 <= k < |brackets| ==>
         && InRange(p, brackets[k]) && Opposite(p.samples[brackets[k].0], p.samples[brackets[k].1], p.threshold, p.half)
         && events[k] == EventOf(p, brackets[k], k + 1)
  }

  /** An event's interval is ordered and lies inside its sample bracket. */
  lemma EventInside(p: Problem, b: (nat, nat), id: nat)
    requires ProblemOk(p) && IsBracket(p, b.0, b.1)
    ensures Opposite(p.samples[b.0], p.samples[b.1], p.threshold, p.half)
    ensures var e := EventOf(p, b, id);
            p.samples[b.0].time <= e.lo <= e.hi <= p.samples[b.1].time && (e.up <==> SideAt(p, b.1) > 0)
  {
    BracketIsOpposite(p, b.0, b.1);
    var left, right := p.samples[b.0], p.samples[b.1];
    var corners := Corners(left, right, p.threshold, p.half);
    CornersInside(left, right, p.threshold, p.half);
    var lowest, highest := Lowest(corners), Highest(corners);
    assert left.time as real < lowest <= highest < right.time as real;
    FloorCeiling(left.time, right.time, lowest, highest);
  }

  lemma FloorCeiling(a: int, b: int, x: real, y: real)
    requires a as real < x <= y < b as real
    ensures a <= x.Floor <= Ceiling(y) <= b
  {
  }

  /** Events alternate in direction, and each interval ends before the next begins. */
  lemma EventsAlternate(p: Problem, events: seq<Event>, k: nat)
    requires ProblemOk(p) && Reports(p, events, Brackets(p, |p.samples|)) && 0 < k < |events|
    ensures events[k].up != events[k - 1].up && events[k - 1].hi <= events[k].lo
  {
    hide EventOf, Side, SideAt, Brackets, IsBracket, Opposite;
    var brackets := Brackets(p, |p.samples|);
    var b, e := brackets[k - 1], brackets[k];
    BracketPair(p, k);
    EventInside(p, b, k);
    EventInside(p, e, k + 1);
    assert p.samples[b.1].time <= p.samples[e.0].time;
  }

  lemma BracketPair(p: Problem, k: nat)
    requires 0 < k < |Brackets(p, |p.samples|)|
    ensures var (b, e) := (Brackets(p, |p.samples|)[k - 1], Brackets(p, |p.samples|)[k]);
            && IsBracket(p, b.0, b.1) && IsBracket(p, e.0, e.1) && b.1 <= e.0 && InRange(p, b) && InRange(p, e)
            && (SideAt(p, b.1) > 0 <==> SideAt(p, e.1) < 0) && SideAt(p, e.1) != 0
  {
    BracketsFollow(p, |p.samples|);
    var brackets := Brackets(p, |p.samples|);
    assert IsBracket(p, brackets[k].0, brackets[k].1) && IsBracket(p, brackets[k - 1].0, brackets[k - 1].1);
  }

  // ---------------------------------------------------------------- what the events say about the true trace

  /** The true values at the sample times: within half a quantum of the samples. */
  ghost predicate Within(p: Problem, truth: seq<real>) {
    && |truth| == |p.samples|
    && forall i :: 0 <= i < |truth| ==> p.samples[i].value - p.half <= truth[i] <= p.samples[i].value + p.half
  }

  /**
   Every event is real: whatever the true trace is, it is on one side of the threshold at the
   start of the event's bracket and on the other at its end, in the reported direction; and
   between adjacent samples the straight segment crosses within the reported interval.
   */
  lemma EventsAreReal(p: Problem, events: seq<Event>, k: nat, truth: seq<real>)
    requires ProblemOk(p) && Reports(p, events, Brackets(p, |p.samples|)) && k < |events| && Within(p, truth)
    ensures var (a, b) := Brackets(p, |p.samples|)[k];
            && a < b < |p.samples|
            && (if events[k].up then truth[a] < p.threshold < truth[b] else truth[b] < p.threshold < truth[a])
            && p.samples[a].time <= events[k].lo <= events[k].hi <= p.samples[b].time
            && (events[k].bridged <==> a + 1 < b)
            && (!events[k].bridged ==>
                  events[k].lo as real <= CrossTime(p.samples[a].time, p.samples[b].time, truth[a], truth[b], p.threshold)
                    <= events[k].hi as real)
  {
    BracketsFollow(p, |p.samples|);
    var b := Brackets(p, |p.samples|)[k];
    assert IsBracket(p, b.0, b.1);
    EventInside(p, b, k + 1);
    OppositeBetween(p.samples[b.0], p.samples[b.1], p.threshold, p.half, truth[b.0], truth[b.1]);
    CornersBound(p.samples[b.0], p.samples[b.1], p.threshold, p.half, truth[b.0], truth[b.1]);
  }

  /**
   What an event says about samples `a` and `b`: which of them is certainly below and which certainly above, whether
   undecided samples lie between, and the tightest whole nanoseconds around every crossing their true values allow.
   */
  ghost predicate Describes(p: Problem, e: Event, a: nat, b: nat) {
    && a < b < |p.samples| && (e.bridged <==> a + 1 < b)
    && (var low, high := if e.up then p.samples[a].value else p.samples[b].value, if e.up then p.samples[b].value else p.samples[a].value;
        low + p.half < p.threshold < high - p.half)
    && IsTightest(p.samples[a], p.samples[b], p.threshold, p.half, e.lo, e.hi)
  }

  ghost predicate AllDescribed(p: Problem, events: seq<Event>, brackets: seq<(nat, nat)>) {
    && |events| == |brackets|
    && forall k :: 0 <= k < |events| ==> events[k].id == k + 1 && Describes(p, events[k], brackets[k].0, brackets[k].1)
  }

  lemma EventsAreTight(p: Problem, events: seq<Event>)
    requires ProblemOk(p) && Reports(p, events, Brackets(p, |p.samples|))
    ensures AllDescribed(p, events, Brackets(p, |p.samples|))
  {
    var brackets := Brackets(p, |p.samples|);
    BracketsFollow(p, |p.samples|);
    hide IsTightest, Corners, Brackets;
    forall k | 0 <= k < |events| ensures events[k].id == k + 1 && Describes(p, events[k], brackets[k].0, brackets[k].1) {
      var b := brackets[k];
      assert IsBracket(p, b.0, b.1);
      CornersAreTight(p.samples[b.0], p.samples[b.1], p.threshold, p.half);
    }
  }

  // ---------------------------------------------------------------- stretches that cannot be decided

  /** Where the current run of undecided samples began. */
  function UndecidedFrom(p: Problem, n: nat): Option<nat>
    requires n <= |p.samples|
  {
    if n == 0 || Sure(p, n - 1) then None
    else Some(if LastSure(p, n).None? then 0 else LastSure(p, n).value + 1)
  }

  /** Undecided runs before position `n` that ended without a crossing. */
  function Gaps(p: Problem, n: nat): seq<Gap>
    requires n <= |p.samples|
  {
    if n == 0 then []
    else
      var last, from := LastSure(p, n - 1), UndecidedFrom(p, n - 1);
      Gaps(p, n - 1)
      + if Sure(p, n - 1) && from.Some? && (last.None? || SideAt(p, n - 1) == SideAt(p, last.value))
        then [Gap(p.samples[from.value].time, p.samples[n - 1].time, ReturnedToSameSide)] else []
  }

  function AllGaps(p: Problem): seq<Gap>
    requires p.samples != []
  {
    var n := |p.samples|;
    if LastSure(p, n).None? then [Gap(p.samples[0].time, p.samples[n - 1].time, EntireTrajectory)]
    else
      Gaps(p, n)
      + if UndecidedFrom(p, n).Some?
        then [Gap(p.samples[UndecidedFrom(p, n).value].time, p.samples[n - 1].time, TrajectoryEnd)] else []
  }

  predicate Covers(g: Gap, t: int) {
    g.lo <= t <= g.hi
  }

  ghost predicate InGap(gaps: seq<Gap>, t: int) {
    exists k :: 0 <= k < |gaps| && Covers(gaps[k], t)
  }

  ghost predicate InBracket(brackets: seq<(nat, nat)>, i: nat) {
    exists k :: 0 <= k < |brackets| && brackets[k].0 < i < brackets[k].1
  }

  lemma {:induction false} AccountedUpTo(p: Problem, n: nat, i: nat)
    requires Increasing(p.samples) && i < n <= |p.samples| && !Sure(p, i)
    ensures InBracket(Brackets(p, n), i) || InGap(Gaps(p, n), p.samples[i].time)
            || (UndecidedFrom(p, n).Some? && UndecidedFrom(p, n).value <= i)
  {
    hide Side, Increasing, Covers;
    if i < n - 1 {
      AccountedUpTo(p, n - 1, i);
      var gaps, brackets := Gaps(p, n - 1), Brackets(p, n - 1);
      if InBracket(brackets, i) {
        var k :| 0 <= k < |brackets| && brackets[k].0 < i < brackets[k].1;
        assert Brackets(p, n)[k] == brackets[k];
      } else if InGap(gaps, p.samples[i].time) {
        var k :| 0 <= k < |gaps| && Covers(gaps[k], p.samples[i].time);
        assert Gaps(p, n)[k] == gaps[k];
      } else if Sure(p, n - 1) {
        StretchEnds(p, n, i);
      }
    }
  }

  /** A sure sample ends the undecided stretch before it, with a crossing or with a gap. */
  lemma StretchEnds(p: Problem, n: nat, i: nat)
    requires Increasing(p.samples) && i < n - 1 < |p.samples| && Sure(p, n - 1)
    requires UndecidedFrom(p, n - 1).Some? && UndecidedFrom(p, n - 1).value <= i
    ensures InBracket(Brackets(p, n), i) || InGap(Gaps(p, n), p.samples[i].time)
  {
    var last, from := LastSure(p, n - 1), UndecidedFrom(p, n - 1);
    if last.Some? && SideAt(p, n - 1) != SideAt(p, last.value) {
      assert Brackets(p, n)[|Brackets(p, n - 1)|] == (last.value, n - 1);
    } else {
      assert Covers(Gaps(p, n)[|Gaps(p, n - 1)|], p.samples[i].time);
    }
  }

  /** Every undecided sample lies inside an event's bracket or in a reported gap. */
  lemma UndecidedIsAccounted(p: Problem, i: nat)
    requires Increasing(p.samples) && i < |p.samples| && !Sure(p, i)
    ensures InBracket(Brackets(p, |p.samples|), i) || InGap(AllGaps(p), p.samples[i].time)
  {
    var n, gaps := |p.samples|, AllGaps(p);
    AccountedUpTo(p, n, i);
    if LastSure(p, n).None? {
      assert Covers(gaps[0], p.samples[i].time);
    } else if InGap(Gaps(p, n), p.samples[i].time) {
      var k :| 0 <= k < |Gaps(p, n)| && Covers(Gaps(p, n)[k], p.samples[i].time);
      assert gaps[k] == Gaps(p, n)[k];
    } else if UndecidedFrom(p, n).Some? {
      assert UndecidedFrom(p, n).value <= i ==> Covers(gaps[|Gaps(p, n)|], p.samples[i].time);
    }
  }

  /** The threshold is within half a quantum of the sample. */
  ghost predicate Undecided(p: Problem, i: nat)
    requires i < |p.samples|
  {
    p.samples[i].value - p.half <= p.threshold <= p.samples[i].value + p.half
  }

  ghost predicate Under(p: Problem, i: nat)
    requires i < |p.samples|
  {
    p.samples[i].value + p.half < p.threshold
  }

  ghost predicate Over(p: Problem, i: nat)
    requires i < |p.samples|
  {
    p.samples[i].value - p.half > p.threshold
  }

  lemma Kinds(p: Problem, i: nat)
    requires i < |p.samples| && p.half >= 0.0
    ensures Sure(p, i) <==> !Undecided(p, i)
    ensures SideAt(p, i) == (if Under(p, i) then -1 else if Over(p, i) then 1 else 0)
    ensures !(Under(p, i) && Over(p, i)) && (Undecided(p, i) <==> !Under(p, i) && !Over(p, i))
  {
  }

  lemma AllKinds(p: Problem)
    requires p.half >= 0.0
    ensures forall i :: 0 <= i < |p.samples| ==> (Sure(p, i) <==> !Undecided(p, i))
    ensures forall i, j :: 0 <= i < |p.samples| && 0 <= j < |p.samples| && Sure(p, i) && Sure(p, j) ==>
              (SideAt(p, i) == SideAt(p, j) <==> (Under(p, i) <==> Under(p, j)))
  {
    forall i | 0 <= i < |p.samples|
      ensures Sure(p, i) <==> !Undecided(p, i)
      ensures SideAt(p, i) == (if Under(p, i) then -1 else if Over(p, i) then 1 else 0)
      ensures !(Under(p, i) && Over(p, i)) && (Undecided(p, i) <==> !Under(p, i) && !Over(p, i))
    {
      Kinds(p, i);
    }
  }

  /** An event stands for samples on certain and opposite sides with only undecided ones between, and each such pair has one. */
  lemma BracketsOnValues(p: Problem, a: nat, b: nat)
    requires p.half >= 0.0
    ensures (a, b) in Brackets(p, |p.samples|) <==>
              && a < b < |p.samples| && ((Under(p, a) && Over(p, b)) || (Over(p, a) && Under(p, b)))
              && forall i :: a < i < b ==> Undecided(p, i)
  {
    hide Brackets, Side, Sure, SideAt, Under, Over, Undecided;
    BracketsAreExact(p, |p.samples|, a, b);
    AllKinds(p);
    if a < b < |p.samples| {
      Kinds(p, a);
      Kinds(p, b);
    }
  }

  /** Undecided samples `i..j` that began after a sure one, or at the start, and ended at `j` on the same side, or at first sight. */
  ghost predicate ReturnsAt(p: Problem, i: nat, j: nat) {
    && i < j < |p.samples| && !Undecided(p, j) && (forall m :: i <= m < j ==> Undecided(p, m))
    && (i > 0 ==> !Undecided(p, i - 1) && (Under(p, i - 1) <==> Under(p, j)))
  }

  /** The loop's test at sample `j` finds exactly the stretch that returns there. */
  lemma ReturnIsSeen(p: Problem, i: nat, j: nat)
    requires j < |p.samples| && p.half >= 0.0
    ensures ReturnsAt(p, i, j) <==>
              && Sure(p, j) && UndecidedFrom(p, j) == Some(i)
              && (LastSure(p, j).None? || SideAt(p, j) == SideAt(p, LastSure(p, j).value))
  {
    hide SideAt, Sure, Under, Undecided;
    AllKinds(p);
    if ReturnsAt(p, i, j) {
      assert !Sure(p, j - 1);
      var last := LastSure(p, j);
      assert i > 0 ==> last.Some? && last.value == i - 1;
    }
  }

  ghost predicate IsReturn(p: Problem, n: nat, g: Gap) {
    exists i: nat, j: nat :: j < n && IsReturnAt(p, i, j, g)
  }

  ghost predicate IsReturnAt(p: Problem, i: nat, j: nat, g: Gap) {
    ReturnsAt(p, i, j) && g == Gap(p.samples[i].time, p.samples[j].time, ReturnedToSameSide)
  }

  lemma {:induction false} GapsAreReturns(p: Problem, n: nat, g: Gap)
    requires n <= |p.samples| && p.half >= 0.0
    ensures g in Gaps(p, n) <==> IsReturn(p, n, g)
  {
    hide Side, Undecided, Under;
    if n > 0 {
      GapsAreReturns(p, n - 1, g);
      var from := UndecidedFrom(p, n - 1);
      if from.Some? {
        ReturnIsSeen(p, from.value, n - 1);
      }
      hide ReturnsAt, SideAt, LastSure, UndecidedFrom, Sure;
      if IsReturn(p, n, g) {
        var i: nat, j: nat :| j < n && IsReturnAt(p, i, j, g);
        ReturnIsSeen(p, i, j);
        if j < n - 1 {
          assert IsReturn(p, n - 1, g);
        }
      }
      if g in Gaps(p, n) && g !in Gaps(p, n - 1) {
        assert IsReturnAt(p, from.value, n - 1, g);
      }
      if IsReturn(p, n - 1, g) {
        var i: nat, j: nat :| j < n - 1 && IsReturnAt(p, i, j, g);
        assert IsReturn(p, n, g);
      }
    }
  }

  /** A gap is a stretch that came back to the side it left, one that never ended, or the whole trajectory. */
  lemma GapsAreExact(p: Problem, g: Gap)
    requires p.samples != [] && p.half >= 0.0
    ensures g in AllGaps(p) <==>
              var n := |p.samples|;
              if forall i :: 0 <= i < n ==> Undecided(p, i)
              then g == Gap(p.samples[0].time, p.samples[n - 1].time, EntireTrajectory)
              else
                || IsReturn(p, n, g)
                || (exists i: nat :: EndsUndecided(p, i) && g == Gap(p.samples[i].time, p.samples[n - 1].time, TrajectoryEnd))
  {
    var n := |p.samples|;
    GapsAreReturns(p, n, g);
    AllKinds(p);
    hide Sure, Undecided, Gaps, IsReturn;
    if LastSure(p, n).Some? {
      var last, from := LastSure(p, n).value, UndecidedFrom(p, n);
      assert Sure(p, last);
      if from.Some? {
        assert EndsUndecided(p, from.value);
      }
      forall i: nat | EndsUndecided(p, i) ensures from == Some(i) {
        assert !Sure(p, n - 1) && last == i - 1;
      }
    }
  }

  /** Everything from `i` on is undecided, and the sample before is not. */
  ghost predicate EndsUndecided(p: Problem, i: nat) {
    0 < i < |p.samples| && !Undecided(p, i - 1) && forall m :: i <= m < |p.samples| ==> Undecided(p, m)
  }

  // ---------------------------------------------------------------- the extraction loop

  lemma CornerIndex(left: Sample, right: Sample, threshold: real, half: real, lefts: seq<real>, rights: seq<real>, i: nat, j: nat)
    requires half >= 0.0 && Opposite(left, right, threshold, half) && i < 2 && j < 2
    requires lefts == [left.value - half, left.value + half] && rights == [right.value - half, right.value + half]
    ensures lefts[i] != rights[j]
    ensures var corners := Corners(left, right, threshold, half);
            && |corners| == 4 && corners[2 * i + j] == CrossTime(left.time, right.time, lefts[i], rights[j], threshold)
            && corners[..2 * i + j + 1] == corners[..2 * i + j] + [corners[2 * i + j]]
  {
    OppositeBetween(left, right, threshold, half, lefts[i], rights[j]);
    hide CrossTime, Opposite;
    assert i == 0 || i == 1;
    assert j == 0 || j == 1;
  }

  /** Crossing times of all four corners; none of them is skipped, so the assertion on an empty list holds. */
  method CornerTimes(left: Sample, right: Sample, threshold: real, half: real) returns (possible: seq<real>)
    requires half >= 0.0 && Opposite(left, right, threshold, half)
    ensures possible == Corners(left, right, threshold, half)
  {
    hide Opposite, Corners;
    possible := [];
    var lefts := [left.value - half, left.value + half];
    var rights := [right.value - half, right.value + half];
    for i := 0 to 2
      invariant |possible| == 2 * i && possible == Corners(left, right, threshold, half)[..2 * i]
    {
      for j := 0 to 2
        invariant |possible| == 2 * i + j && possible == Corners(left, right, threshold, half)[..2 * i + j]
      {
        CornerIndex(left, right, threshold, half, lefts, rights, i, j);
        OppositeBetween(left, right, threshold, half, lefts[i], rights[j]);
        FractionInside(lefts[i], rights[j], threshold);
        if rights[j] != lefts[i] {
          var fraction := (threshold - lefts[i]) / (rights[j] - lefts[i]);
          if 0.0 <= fraction <= 1.0 {
            var time := left.time as real + (right.time - left.time) as real * fraction;
            assert time == CrossTime(left.time, right.time, lefts[i], rights[j], threshold);
            possible := possible + [time];
          }
        }
      }
    }
  }

  lemma ReportsGrow(p: Problem, events: seq<Event>, brackets: seq<(nat, nat)>, b: (nat, nat))
    requires Reports(p, events, brackets) && InRange(p, b)
    requires Opposite(p.samples[b.0], p.samples[b.1], p.threshold, p.half)
    ensures Reports(p, events + [EventOf(p, b, |events| + 1)], brackets + [b])
  {
  }

  lemma NothingToReport(p: Problem)
    requires p.half >= 0.0
    ensures Reports(p, [], [])
  {
  }

  method ExtractEvents(samples: seq<Sample>, threshold: real, quantization: real) returns (events: seq<Event>, gaps: seq<Gap>)
    requires samples != [] && Increasing(samples) && quantization >= 0.0
    ensures var p := Problem(samples, threshold, quantization / 2.0);
            && Reports(p, events, Brackets(p, |samples|)) && gaps == AllGaps(p)
            && AllDescribed(p, events, Brackets(p, |samples|))
  {
    hide Reports, Corners, Opposite, Increasing, AllDescribed, Side;
    NothingToReport(Problem(samples, threshold, quantization / 2.0));
    var half := quantization / 2.0;
    ghost var p := Problem(samples, threshold, half);
    events, gaps := [], [];
    var last: Option<nat>, from: Option<nat> := None, None;
    for index := 0 to |samples|
      invariant last == LastSure(p, index) && from == UndecidedFrom(p, index)
      invariant Reports(p, events, Brackets(p, index)) && gaps == Gaps(p, index)
    {
      var side := Side(samples[index].value, threshold, half);
      if side == 0 {
        if from.None? {
          from := Some(index);
        }
        assert Brackets(p, index + 1) == Brackets(p, index);
      } else {
        if last.Some? && side != Side(samples[last.value].value, threshold, half) {
          BracketIsOpposite(p, last.value, index);
          var possible := CornerTimes(samples[last.value], samples[index], threshold, half);
          if possible == [] {
            assert false;
          }
          var e := Event(|events| + 1, side > 0, Lowest(possible).Floor, Ceiling(Highest(possible)), from.Some?);
          assert e == EventOf(p, (last.value, index), |events| + 1);
          ReportsGrow(p, events, Brackets(p, index), (last.value, index));
          events := events + [e];
        } else {
          assert Brackets(p, index + 1) == Brackets(p, index);
          if from.Some? {
            gaps := gaps + [Gap(samples[from.value].time, samples[index].time, ReturnedToSameSide)];
          }
        }
        last, from := Some(index), None;
      }
    }
    if from.Some? {
      gaps := gaps + [Gap(samples[from.value].time, samples[|samples| - 1].time, TrajectoryEnd)];
    }
    if last.None? {
      gaps := [Gap(samples[0].time, samples[|samples| - 1].time, EntireTrajectory)];
    }
    EventsAreTight(p, events);
  }
}

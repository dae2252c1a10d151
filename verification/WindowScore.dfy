/** The score of a candidate trace against a reference trace over a window. */
module WindowScore {
  import opened Wrappers
  import opened Crossing
  import opened ErrorIntegral

  // ---------------------------------------------------------------- interpolation

  function Lerp(a: Sample, b: Sample, t: int): real
    requires a.time < b.time
  {
    var fraction := (t - a.time) as real / (b.time - a.time) as real;
    a.value + fraction * (b.value - a.value)
  }

  /** The value of the piecewise linear trace; `None` outside it. */
  function At(trace: seq<Sample>, t: int): Option<real>
    decreases |trace|
  {
    if trace == [] then None
    else if trace[0].time == t then Some(trace[0].value)
    else if |trace| > 1 && trace[0].time < t < trace[1].time then Some(Lerp(trace[0], trace[1], t))
    else At(trace[1..], t)
  }

  lemma {:induction false} AtSample(trace: seq<Sample>, i: nat)
    requires Increasing(trace) && i < |trace|
    ensures At(trace, trace[i].time) == Some(trace[i].value)
    decreases |trace|
  {
    if i > 0 {
      AtSample(trace[1..], i - 1);
    }
  }

  lemma {:induction false} AtBetween(trace: seq<Sample>, i: nat, t: int)
    requires Increasing(trace) && i < |trace| - 1 && trace[i].time < t < trace[i + 1].time
    ensures At(trace, t) == Some(Lerp(trace[i], trace[i + 1], t))
    decreases |trace|
  {
    if i > 0 {
      assert trace[1].time <= trace[i].time;
      AtBetween(trace[1..], i - 1, t);
    }
  }

  lemma {:induction false} AtOutside(trace: seq<Sample>, t: int)
    requires Increasing(trace) && (trace != [] ==> t < trace[0].time || t > trace[|trace| - 1].time)
    ensures At(trace, t).None?
    decreases |trace|
  {
    if |trace| > 1 {
      assert trace[0].time < trace[|trace| - 1].time;
      AtOutside(trace[1..], t);
    }
  }

  /** Search the samples, then the gaps between them. */
  method Interpolate(trace: seq<Sample>, tick: int) returns (r: Option<real>)
    requires Increasing(trace)
    ensures r == At(trace, tick)
  {
    for i := 0 to |trace|
      invariant forall j :: 0 <= j < i ==> trace[j].time != tick
    {
      if trace[i].time == tick {
        AtSample(trace, i);
        return Some(trace[i].value);
      }
    }
    var i := 0;
    while i < |trace| - 1
      invariant 0 <= i <= |trace|
      invariant forall j :: 0 <= j < i && j < |trace| - 1 ==> !(trace[j].time < tick < trace[j + 1].time)
    {
      if trace[i].time < tick < trace[i + 1].time {
        AtBetween(trace, i, tick);
        return Some(Lerp(trace[i], trace[i + 1], tick));
      }
      i := i + 1;
    }
    NowhereIsOutside(trace, tick);
    AtOutside(trace, tick);
    return None;
  }

  lemma NowhereIsOutside(trace: seq<Sample>, tick: int)
    requires Increasing(trace) && forall j :: 0 <= j < |trace| ==> trace[j].time != tick
    requires forall j :: 0 <= j < |trace| - 1 ==> !(trace[j].time < tick < trace[j + 1].time)
    ensures trace != [] ==> tick < trace[0].time || tick > trace[|trace| - 1].time
  {
    if trace != [] && trace[0].time < tick < trace[|trace| - 1].time {
      var i := Segment(trace, tick);
    }
  }

  /** The samples around a time inside the trace. */
  lemma {:induction false} Segment(trace: seq<Sample>, t: int) returns (i: nat)
    requires Increasing(trace) && |trace| > 1 && trace[0].time <= t <= trace[|trace| - 1].time
    ensures i < |trace| - 1 && trace[i].time <= t <= trace[i + 1].time
    decreases |trace|
  {
    if t <= trace[1].time {
      i := 0;
    } else {
      i := Segment(trace[1..], t);
      i := i + 1;
    }
  }

  /** The trace as a function of time. */
  function Value(trace: seq<Sample>, t: int): real {
    if At(trace, t).Some? then At(trace, t).value else 0.0
  }

  predicate Spans(trace: seq<Sample>, t: int) {
    trace != [] && trace[0].time <= t <= trace[|trace| - 1].time
  }

  // ---------------------------------------------------------------- the trace is linear between samples

  ghost predicate NoSampleBetween(trace: seq<Sample>, a: int, b: int) {
    forall i :: 0 <= i < |trace| ==> !(a < trace[i].time < b)
  }

  function Slope(a: Sample, b: Sample): real
    requires a.time < b.time
  {
    (b.value - a.value) / (b.time - a.time) as real
  }

  lemma LerpIsLine(a: Sample, b: Sample, t: int)
    requires a.time < b.time
    ensures Lerp(a, b, t) == a.value + Slope(a, b) * (t - a.time) as real
    ensures a.value + Slope(a, b) * (b.time - a.time) as real == b.value
  {
    var x, y, v := (t - a.time) as real, (b.time - a.time) as real, b.value - a.value;
    assert (x / y * v - v / y * x) * y == 0.0;
  }

  lemma OnSegment(trace: seq<Sample>, i: nat, t: int)
    requires Increasing(trace) && i < |trace| - 1 && trace[i].time <= t <= trace[i + 1].time
    ensures Value(trace, t) == trace[i].value + Slope(trace[i], trace[i + 1]) * (t - trace[i].time) as real
  {
    assert trace[i].time < trace[i + 1].time;
    LerpIsLine(trace[i], trace[i + 1], t);
    if t == trace[i].time {
      AtSample(trace, i);
    } else if t == trace[i + 1].time {
      AtSample(trace, i + 1);
    } else {
      AtBetween(trace, i, t);
    }
  }

  lemma SegmentAround(trace: seq<Sample>, a: int, b: int) returns (i: nat)
    requires Increasing(trace) && a < b && Spans(trace, a) && Spans(trace, b) && NoSampleBetween(trace, a, b)
    ensures i < |trace| - 1 && trace[i].time <= a && b <= trace[i + 1].time
  {
    assert |trace| > 1;
    i := Segment(trace, b);
    if trace[i].time == b && i > 0 {
      i := i - 1;
    }
  }

  lemma LinearBetween(trace: seq<Sample>, a: int, b: int)
    requires Increasing(trace) && a < b && Spans(trace, a) && Spans(trace, b) && NoSampleBetween(trace, a, b)
    ensures Linear(t => Value(trace, t), a, b)
  {
    var i := SegmentAround(trace, a, b);
    hide Value, Slope, Increasing, NoSampleBetween;
    var k := Slope(trace[i], trace[i + 1]);
    var f := t => Value(trace, t);
    OnSegment(trace, i, a);
    forall t | a <= t <= b ensures f(t) == f(a) + k * (t - a) as real {
      OnSegment(trace, i, t);
      Distribute(k, (t - a) as real, (a - trace[i].time) as real);
    }
    assert Sloped(f, a, b, k);
  }

  lemma Distribute(k: real, x: real, y: real)
    ensures k * (x + y) == k * x + k * y
  {
  }

  // ---------------------------------------------------------------- refinement of a trace

  /** `fine` has the samples of `trace` and possibly more, all of them on the trace. */
  ghost predicate Refines(trace: seq<Sample>, fine: seq<Sample>) {
    && Increasing(trace) && Increasing(fine) && trace != []
    && (forall i :: 0 <= i < |trace| ==> trace[i] in fine)
    && (forall j :: 0 <= j < |fine| ==> At(trace, fine[j].time) == Some(fine[j].value))
  }

  lemma SpannedOnly(trace: seq<Sample>, t: int)
    requires Increasing(trace) && At(trace, t).Some?
    ensures Spans(trace, t)
  {
    if !Spans(trace, t) {
      AtOutside(trace, t);
    }
  }

  lemma SameEnds(trace: seq<Sample>, fine: seq<Sample>)
    requires Refines(trace, fine)
    ensures fine != [] && fine[0].time == trace[0].time && fine[|fine| - 1].time == trace[|trace| - 1].time
  {
    var n := |trace| - 1;
    assert trace[0] in fine && trace[n] in fine;
    SpannedOnly(trace, fine[0].time);
    SpannedOnly(trace, fine[|fine| - 1].time);
    var i :| 0 <= i < |fine| && fine[i] == trace[0];
    var j :| 0 <= j < |fine| && fine[j] == trace[n];
    assert fine[0].time <= fine[i].time && fine[j].time <= fine[|fine| - 1].time;
  }

  /** A refined trace is the same function of time. */
  lemma RefinedIsSame(trace: seq<Sample>, fine: seq<Sample>, t: int)
    requires Refines(trace, fine)
    ensures Value(fine, t) == Value(trace, t)
  {
    SameEnds(trace, fine);
    if !Spans(trace, t) {
      AtOutside(trace, t);
      AtOutside(fine, t);
    } else if |fine| == 1 {
      AtSample(fine, 0);
    } else {
      var j := Segment(fine, t);
      NoneSkipped(trace, fine, j);
      assert Value(trace, fine[j].time) == fine[j].value && Value(trace, fine[j + 1].time) == fine[j + 1].value;
      assert Spans(trace, fine[j].time) && Spans(trace, fine[j + 1].time);
      LinearBetween(trace, fine[j].time, fine[j + 1].time);
      OnSegment(fine, j, t);
      SameLine(trace, fine[j], fine[j + 1], t);
    }
  }

  lemma SameLine(trace: seq<Sample>, a: Sample, b: Sample, t: int)
    requires a.time < b.time && a.time <= t <= b.time && Linear(u => Value(trace, u), a.time, b.time)
    requires Value(trace, a.time) == a.value && Value(trace, b.time) == b.value
    ensures Value(trace, t) == a.value + Slope(a, b) * (t - a.time) as real
  {
    var f := u => Value(trace, u);
    assert Linear(f, a.time, b.time);
    var k :| Sloped(f, a.time, b.time, k);
    assert f(b.time) == f(a.time) + k * (b.time - a.time) as real;
    assert f(t) == f(a.time) + k * (t - a.time) as real;
    LerpIsLine(a, b, t);
    SlopeIs(k, Slope(a, b), (b.time - a.time) as real);
  }

  lemma SlopeIs(k: real, m: real, y: real)
    requires y != 0.0 && k * y == m * y
    ensures k == m
  {
  }

  lemma NoneSkipped(trace: seq<Sample>, fine: seq<Sample>, j: nat)
    requires Refines(trace, fine) && j < |fine| - 1
    ensures NoSampleBetween(trace, fine[j].time, fine[j + 1].time)
  {
    forall i | 0 <= i < |trace| ensures !(fine[j].time < trace[i].time < fine[j + 1].time) {
      assert trace[i] in fine;
      var n :| 0 <= n < |fine| && fine[n] == trace[i];
    }
  }

  // ---------------------------------------------------------------- the comparison grid

  /** The grid holds the window's ends and every sample time of either trace strictly inside it. */
  ghost predicate IsTick(reference: seq<Sample>, candidate: seq<Sample>, start: int, end: int, t: int) {
    t == start || t == end || (start < t < end && (HasTime(reference, t) || HasTime(candidate, t)))
  }

  ghost predicate HasTime(trace: seq<Sample>, t: int) {
    exists i :: 0 <= i < |trace| && trace[i].time == t
  }

  ghost predicate IsGrid(reference: seq<Sample>, candidate: seq<Sample>, start: int, end: int, ticks: seq<int>) {
    Sorted(ticks) && forall t :: t in ticks <==> IsTick(reference, candidate, start, end, t)
  }

  predicate Available(trace: seq<Sample>, start: int, end: int) {
    trace != [] && trace[0].time <= start && end <= trace[|trace| - 1].time
  }

  lemma GridEnds(reference: seq<Sample>, candidate: seq<Sample>, start: int, end: int, ticks: seq<int>)
    requires IsGrid(reference, candidate, start, end, ticks) && start < end
    ensures |ticks| > 1 && ticks[0] == start && ticks[|ticks| - 1] == end
    ensures forall i :: 0 <= i < |ticks| ==> start <= ticks[i] <= end
  {
    assert start in ticks && end in ticks;
    var i :| 0 <= i < |ticks| && ticks[i] == start;
    var j :| 0 <= j < |ticks| && ticks[j] == end;
    forall n | 0 <= n < |ticks| ensures start <= ticks[n] <= end {
      assert ticks[n] in ticks;
    }
    assert ticks[0] <= ticks[i] && ticks[j] <= ticks[|ticks| - 1];
  }

  lemma GridSkipsNothing(reference: seq<Sample>, candidate: seq<Sample>, start: int, end: int, ticks: seq<int>, i: nat)
    requires IsGrid(reference, candidate, start, end, ticks) && start < end && i < |ticks| - 1
    ensures NoSampleBetween(reference, ticks[i], ticks[i + 1]) && NoSampleBetween(candidate, ticks[i], ticks[i + 1])
  {
    GridEnds(reference, candidate, start, end, ticks);
    forall t | ticks[i] < t < ticks[i + 1] ensures !HasTime(reference, t) && !HasTime(candidate, t) {
      if t in ticks {
        var n :| 0 <= n < |ticks| && ticks[n] == t;
      }
    }
    forall n | 0 <= n < |reference| ensures !(ticks[i] < reference[n].time < ticks[i + 1]) {
      assert HasTime(reference, reference[n].time);
    }
    forall n | 0 <= n < |candidate| ensures !(ticks[i] < candidate[n].time < ticks[i + 1]) {
      assert HasTime(candidate, candidate[n].time);
    }
  }

  // ---------------------------------------------------------------- the score

  datatype Score = Score(area: real, mae: real, limit: real, amplitude: real, maximum: real, pass: bool)

  const V2_ABSOLUTE_CAP_K := 1.0
  const V2_BASE_K := 0.25
  const V2_AMPLITUDE_FRACTION := 0.05
  const MAX_HOTSPOT_CONTROL_ERROR_K := 2.0

  function Limit(amplitude: real): real {
    var scaled := V2_BASE_K + V2_AMPLITUDE_FRACTION * amplitude;
    if scaled < V2_ABSOLUTE_CAP_K then scaled else V2_ABSOLUTE_CAP_K
  }

  function Error(reference: seq<Sample>, candidate: seq<Sample>): int -> real {
    t => Value(candidate, t) - Value(reference, t)
  }

  function AbsError(reference: seq<Sample>, candidate: seq<Sample>): int -> real {
    t => Abs(Value(candidate, t) - Value(reference, t))
  }

  function Temperature(trace: seq<Sample>): int -> real {
    t => Value(trace, t)
  }

  function Mirror(trace: seq<Sample>): int -> real {
    t => -Value(trace, t)
  }

  /** The score over a grid: mean of the error integral, amplitude of the reference, largest error, verdict. */
  function ScoreOn(reference: seq<Sample>, candidate: seq<Sample>, ticks: seq<int>, strict: bool): Score
    requires ticks != [] && ticks[0] < ticks[|ticks| - 1]
  {
    var area := Area(Error(reference, candidate), ticks);
    var duration := Seconds(ticks[0], ticks[|ticks| - 1]);
    PositiveSeconds(ticks[0], ticks[|ticks| - 1]);
    var mae := area / duration;
    var amplitude := MaxOver(Temperature(reference), ticks) + MaxOver(Mirror(reference), ticks);
    var maximum := MaxOver(AbsError(reference, candidate), ticks);
    Score(area, mae, Limit(amplitude), amplitude, maximum,
          mae <= Limit(amplitude) && (!strict || maximum <= MAX_HOTSPOT_CONTROL_ERROR_K))
  }

  /** The mean error is never negative and never exceeds the largest error. */
  lemma MeanIsBelowMaximum(reference: seq<Sample>, candidate: seq<Sample>, ticks: seq<int>, strict: bool)
    requires Sorted(ticks) && |ticks| > 1
    ensures 0.0 <= ScoreOn(reference, candidate, ticks, strict).mae <= ScoreOn(reference, candidate, ticks, strict).maximum
  {
    hide Value, Seconds, Area, MaxOver, Limit;
    var f, g := Error(reference, candidate), AbsError(reference, candidate);
    var bound := MaxOver(g, ticks);
    var n := MaxIsReached(g, ticks);
    forall i | 0 <= i < |ticks| ensures Abs(f(ticks[i])) <= bound {
      assert g(ticks[i]) <= bound;
    }
    AreaBound(f, ticks, bound);
    PositiveSeconds(ticks[0], ticks[|ticks| - 1]);
    MeanBound(Area(f, ticks), Seconds(ticks[0], ticks[|ticks| - 1]), bound);
  }

  lemma MeanBound(area: real, duration: real, bound: real)
    requires duration > 0.0 && 0.0 <= area <= duration * bound
    ensures 0.0 <= area / duration <= bound
  {
    Divided(area / duration, area, duration);
    MeanFits(area / duration, duration, bound);
  }

  lemma MeanFits(q: real, duration: real, bound: real)
    requires duration > 0.0 && 0.0 <= q * duration <= duration * bound
    ensures 0.0 <= q <= bound
  {
  }

  // ---------------------------------------------------------------- refinement invariance

  lemma GridIsLinear(reference: seq<Sample>, candidate: seq<Sample>, start: int, end: int, ticks: seq<int>, i: nat)
    requires Increasing(reference) && Increasing(candidate) && start < end && i < |ticks| - 1
    requires Available(reference, start, end) && Available(candidate, start, end)
    requires IsGrid(reference, candidate, start, end, ticks)
    ensures Linear(Temperature(reference), ticks[i], ticks[i + 1]) && Linear(Temperature(candidate), ticks[i], ticks[i + 1])
    ensures Linear(Error(reference, candidate), ticks[i], ticks[i + 1])
  {
    GridSkipsNothing(reference, candidate, start, end, ticks, i);
    GridEnds(reference, candidate, start, end, ticks);
    var a, b := ticks[i], ticks[i + 1];
    LinearBetween(reference, a, b);
    LinearBetween(candidate, a, b);
    SameLinear(t => Value(reference, t), Temperature(reference), a, b);
    SameLinear(t => Value(candidate, t), Temperature(candidate), a, b);
    DifferenceIsLinear(reference, candidate, a, b);
  }

  lemma SameLinear(f: int -> real, g: int -> real, a: int, b: int)
    requires Linear(f, a, b) && a <= b && forall t :: f(t) == g(t)
    ensures Linear(g, a, b)
  {
    var k :| Sloped(f, a, b, k);
    assert Sloped(g, a, b, k);
  }

  lemma DifferenceIsLinear(reference: seq<Sample>, candidate: seq<Sample>, a: int, b: int)
    requires Linear(Temperature(reference), a, b) && Linear(Temperature(candidate), a, b) && a <= b
    ensures Linear(Error(reference, candidate), a, b)
  {
    var f, g, e := Temperature(reference), Temperature(candidate), Error(reference, candidate);
    var k :| Sloped(f, a, b, k);
    var m :| Sloped(g, a, b, m);
    forall t | a <= t <= b ensures e(t) == e(a) + (m - k) * (t - a) as real {
      assert f(t) == f(a) + k * (t - a) as real && g(t) == g(a) + m * (t - a) as real;
      Distribute((t - a) as real, m, -k);
    }
    assert Sloped(e, a, b, m - k);
  }

  /** Both traces and the size of their difference peak at the ticks. */
  lemma GridPeaks(reference: seq<Sample>, candidate: seq<Sample>, start: int, end: int, ticks: seq<int>)
    requires Increasing(reference) && Increasing(candidate) && start < end
    requires Available(reference, start, end) && Available(candidate, start, end)
    requires IsGrid(reference, candidate, start, end, ticks)
    ensures PiecewiseLinear(Error(reference, candidate), ticks)
    ensures Peaks(Temperature(reference), ticks) && Peaks(Mirror(reference), ticks) && Peaks(AbsError(reference, candidate), ticks)
  {
    hide Linear, IsGrid, Value;
    forall i | 0 <= i < |ticks| - 1
      ensures Linear(Error(reference, candidate), ticks[i], ticks[i + 1]) && Linear(Temperature(reference), ticks[i], ticks[i + 1])
    {
      GridIsLinear(reference, candidate, start, end, ticks, i);
    }
    forall i | 0 <= i < |ticks| - 1
      ensures PeaksOn(Temperature(reference), ticks[i], ticks[i + 1]) && PeaksOn(Mirror(reference), ticks[i], ticks[i + 1])
      ensures PeaksOn(AbsError(reference, candidate), ticks[i], ticks[i + 1])
    {
      SegmentPeaks(reference, candidate, ticks[i], ticks[i + 1]);
    }
  }

  lemma SegmentPeaks(reference: seq<Sample>, candidate: seq<Sample>, a: int, b: int)
    requires Linear(Temperature(reference), a, b) && Linear(Error(reference, candidate), a, b)
    ensures PeaksOn(Temperature(reference), a, b) && PeaksOn(Mirror(reference), a, b) && PeaksOn(AbsError(reference, candidate), a, b)
  {
    hide Linear, Value;
    forall t | a <= t <= b
      ensures Value(reference, t) <= Max(Value(reference, a), Value(reference, b))
      ensures -Value(reference, t) <= Max(-Value(reference, a), -Value(reference, b))
      ensures AbsError(reference, candidate)(t) <= Max(AbsError(reference, candidate)(a), AbsError(reference, candidate)(b))
    {
      LinearPeaks(Temperature(reference), a, b, t);
      LinearPeaks(Error(reference, candidate), a, b, t);
    }
  }

  lemma RefinedGridIsFiner(reference: seq<Sample>, candidate: seq<Sample>, fineReference: seq<Sample>, fineCandidate: seq<Sample>,
                           start: int, end: int, ticks: seq<int>, fine: seq<int>)
    requires Refines(reference, fineReference) && Refines(candidate, fineCandidate) && start < end
    requires IsGrid(reference, candidate, start, end, ticks) && IsGrid(fineReference, fineCandidate, start, end, fine)
    ensures Finer(ticks, fine)
  {
    GridEnds(reference, candidate, start, end, ticks);
    GridEnds(fineReference, fineCandidate, start, end, fine);
    forall i | 0 <= i < |ticks| ensures ticks[i] in fine {
      var t := ticks[i];
      assert t in ticks && IsTick(reference, candidate, start, end, t);
      if HasTime(reference, t) {
        TimeKept(reference, fineReference, t);
      }
      if HasTime(candidate, t) {
        TimeKept(candidate, fineCandidate, t);
      }
      assert IsTick(fineReference, fineCandidate, start, end, t);
    }
  }

  lemma TimeKept(trace: seq<Sample>, fine: seq<Sample>, t: int)
    requires Refines(trace, fine) && HasTime(trace, t)
    ensures HasTime(fine, t)
  {
    var i :| 0 <= i < |trace| && trace[i].time == t;
    assert trace[i] in fine;
  }

  /** The score depends on the traces only through their values. */
  lemma SameScore(reference: seq<Sample>, candidate: seq<Sample>, otherReference: seq<Sample>, otherCandidate: seq<Sample>,
                  ticks: seq<int>, strict: bool)
    requires ticks != [] && ticks[0] < ticks[|ticks| - 1]
    requires forall t :: Value(otherReference, t) == Value(reference, t)
    requires forall t :: Value(otherCandidate, t) == Value(candidate, t)
    ensures ScoreOn(otherReference, otherCandidate, ticks, strict) == ScoreOn(reference, candidate, ticks, strict)
  {
    hide Value, Area, MaxOver, Limit, Seconds;
    SameArea(Error(otherReference, otherCandidate), Error(reference, candidate), ticks);
    SameMax(Temperature(otherReference), Temperature(reference), ticks);
    SameMax(Mirror(otherReference), Mirror(reference), ticks);
    SameMax(AbsError(otherReference, otherCandidate), AbsError(reference, candidate), ticks);
  }

  /** The score is the same over a finer grid. */
  lemma FinerScore(reference: seq<Sample>, candidate: seq<Sample>, start: int, end: int, ticks: seq<int>, fine: seq<int>, strict: bool)
    requires Increasing(reference) && Increasing(candidate) && start < end
    requires Available(reference, start, end) && Available(candidate, start, end)
    requires IsGrid(reference, candidate, start, end, ticks) && Finer(ticks, fine) && ticks[0] < ticks[|ticks| - 1]
    ensures ScoreOn(reference, candidate, fine, strict) == ScoreOn(reference, candidate, ticks, strict)
  {
    GridPeaks(reference, candidate, start, end, ticks);
    hide Value, IsGrid, Area, MaxOver, PiecewiseLinear, Peaks, Limit, Seconds, Sorted;
    AreaRefines(Error(reference, candidate), ticks, fine);
    MaxRefines(Temperature(reference), ticks, fine);
    MaxRefines(Mirror(reference), ticks, fine);
    MaxRefines(AbsError(reference, candidate), ticks, fine);
  }

  /**
   Adding samples that lie on the traces, to either or both, changes neither the error area, the
   mean, the amplitude, the largest error nor the verdict.
   */
  lemma RefinementInvariance(reference: seq<Sample>, candidate: seq<Sample>, fineReference: seq<Sample>, fineCandidate: seq<Sample>,
                             start: int, end: int, ticks: seq<int>, fine: seq<int>, strict: bool)
    requires Refines(reference, fineReference) && Refines(candidate, fineCandidate) && start < end
    requires Available(reference, start, end) && Available(candidate, start, end)
    requires IsGrid(reference, candidate, start, end, ticks) && IsGrid(fineReference, fineCandidate, start, end, fine)
    ensures ticks != [] && fine != [] && ticks[0] < ticks[|ticks| - 1] && fine[0] < fine[|fine| - 1]
    ensures ScoreOn(fineReference, fineCandidate, fine, strict) == ScoreOn(reference, candidate, ticks, strict)
  {
    hide Value, IsGrid, Area, MaxOver, Finer, Limit, Seconds;
    GridEnds(reference, candidate, start, end, ticks);
    GridEnds(fineReference, fineCandidate, start, end, fine);
    RefinedGridIsFiner(reference, candidate, fineReference, fineCandidate, start, end, ticks, fine);
    FinerScore(reference, candidate, start, end, ticks, fine, strict);
    forall t ensures Value(fineReference, t) == Value(reference, t) && Value(fineCandidate, t) == Value(candidate, t) {
      RefinedIsSame(reference, fineReference, t);
      RefinedIsSame(candidate, fineCandidate, t);
    }
    SameScore(reference, candidate, fineReference, fineCandidate, fine, strict);
  }

  // ---------------------------------------------------------------- the method

  /** Put a time into its place in a sorted grid, once. */
  function InsertTick(ticks: seq<int>, t: int): (r: seq<int>)
    requires Sorted(ticks)
    ensures Sorted(r) && forall u :: u in r <==> u in ticks || u == t
  {
    if ticks == [] then [t]
    else if t < ticks[0] then [t] + ticks
    else if t == ticks[0] then ticks
    else
      var rest := InsertTick(ticks[1..], t);
      assert ticks == [ticks[0]] + ticks[1..];
      assert forall j :: 0 <= j < |rest| ==> rest[j] in rest;
      [ticks[0]] + rest
  }

  /** Add the sample times strictly inside the window. */
  method CollectTicks(trace: seq<Sample>, start: int, end: int, ticks: seq<int>) returns (r: seq<int>)
    requires Sorted(ticks)
    ensures Sorted(r) && forall t :: t in r <==> t in ticks || (start < t < end && HasTime(trace, t))
  {
    r := ticks;
    for i := 0 to |trace|
      invariant Sorted(r) && forall t :: t in r <==> t in ticks || (start < t < end && HasTime(trace[..i], t))
    {
      forall t ensures HasTime(trace[..i + 1], t) <==> HasTime(trace[..i], t) || t == trace[i].time {
        TimeAdded(trace, i, t);
      }
      if start < trace[i].time < end {
        r := InsertTick(r, trace[i].time);
      }
    }
    assert trace[..|trace|] == trace;
  }

  lemma TimeAdded(trace: seq<Sample>, i: nat, t: int)
    requires i < |trace|
    ensures HasTime(trace[..i + 1], t) <==> HasTime(trace[..i], t) || t == trace[i].time
  {
    if HasTime(trace[..i], t) {
      var n :| 0 <= n < i && trace[..i][n].time == t;
      assert trace[..i + 1][n].time == t;
    }
    if t == trace[i].time {
      assert trace[..i + 1][i].time == t;
    }
    if HasTime(trace[..i + 1], t) && t != trace[i].time {
      var n :| 0 <= n < i + 1 && trace[..i + 1][n].time == t;
      assert trace[..i][n].time == t;
    }
  }

  /** Values of a trace at all ticks. */
  method Interpolated(trace: seq<Sample>, ticks: seq<int>) returns (values: seq<real>)
    requires Increasing(trace) && forall i :: 0 <= i < |ticks| ==> Spans(trace, ticks[i])
    ensures |values| == |ticks| && forall i :: 0 <= i < |ticks| ==> values[i] == Value(trace, ticks[i])
  {
    values := [];
    for i := 0 to |ticks|
      invariant |values| == i && forall j :: 0 <= j < i ==> values[j] == Value(trace, ticks[j])
    {
      var v := Interpolate(trace, ticks[i]);
      SpannedIsDefined(trace, ticks[i]);
      values := values + [v.value];
    }
  }

  lemma SpannedIsDefined(trace: seq<Sample>, t: int)
    requires Increasing(trace) && Spans(trace, t)
    ensures At(trace, t).Some?
  {
    if |trace| == 1 {
      AtSample(trace, 0);
    } else {
      var i := Segment(trace, t);
      if t == trace[i].time {
        AtSample(trace, i);
      } else if t == trace[i + 1].time {
        AtSample(trace, i + 1);
      } else {
        AtBetween(trace, i, t);
      }
    }
  }

  /** The largest entry. */
  method Largest(values: seq<real>, ghost f: int -> real, ghost ticks: seq<int>) returns (m: real)
    requires |values| == |ticks| > 0 && forall i :: 0 <= i < |ticks| ==> values[i] == f(ticks[i])
    ensures m == MaxOver(f, ticks)
  {
    var i := |values| - 1;
    m := values[i];
    assert ticks[i..] == [ticks[i]];
    while i > 0
      invariant 0 <= i < |values| && m == MaxOver(f, ticks[i..])
    {
      i := i - 1;
      assert ticks[i..][1..] == ticks[i + 1..];
      m := Max(values[i], m);
    }
    assert ticks[0..] == ticks;
  }

  /** The area of one segment: a trapezium, or two triangles if the error changes sign. */
  method Piece(duration: real, left: real, right: real) returns (area: real)
    ensures area == SegmentArea(duration, left, right)
  {
    if left * right >= 0.0 {
      area := duration * (Abs(left) + Abs(right)) / 2.0;
    } else {
      area := duration * (left * left + right * right) / (2.0 * (Abs(left) + Abs(right)));
    }
  }

  /** The error integral, segment by segment. */
  method Integrate(signed: seq<real>, ticks: seq<int>, ghost f: int -> real) returns (area: real)
    requires |signed| == |ticks| > 0 && forall i :: 0 <= i < |ticks| ==> signed[i] == f(ticks[i])
    ensures area == Area(f, ticks)
  {
    hide SegmentArea;
    area := 0.0;
    assert ticks[..1] == [ticks[0]];
    for i := 0 to |ticks| - 1
      invariant area == Area(f, ticks[..i + 1])
    {
      var left, right := signed[i], signed[i + 1];
      var duration := (ticks[i + 1] - ticks[i]) as real / 1000000000.0;
      var piece := Piece(duration, left, right);
      area := area + piece;
      AreaAppends(f, ticks[..i + 1], ticks[i + 1]);
      assert ticks[..i + 1] + [ticks[i + 1]] == ticks[..i + 2];
    }
    assert ticks[..|ticks|] == ticks;
  }

  lemma {:induction false} AreaAppends(f: int -> real, ticks: seq<int>, t: int)
    requires ticks != []
    ensures var last := ticks[|ticks| - 1];
            Area(f, ticks + [t]) == Area(f, ticks) + SegmentArea(Seconds(last, t), f(last), f(t))
    decreases |ticks|
  {
    hide SegmentArea, Seconds;
    if |ticks| == 1 {
      assert (ticks + [t])[1..] == [t];
    } else {
      AreaAppends(f, ticks[1..], t);
      assert (ticks + [t])[1..] == ticks[1..] + [t];
    }
  }

  // ---------------------------------------------------------------- what the verdict means

  /** No error in the window is larger than `m`, and one is as large. */
  ghost predicate IsLargestError(reference: seq<Sample>, candidate: seq<Sample>, start: int, end: int, m: real) {
    && (forall t :: start <= t <= end ==> -m <= Value(candidate, t) - Value(reference, t) <= m)
    && (exists t :: start <= t <= end && (Value(candidate, t) - Value(reference, t) == m || Value(reference, t) - Value(candidate, t) == m))
  }

  /** No two temperatures in the window differ by more than `a`, and two differ by as much. */
  ghost predicate IsSwing(trace: seq<Sample>, start: int, end: int, a: real) {
    && (forall t, u :: start <= t <= end && start <= u <= end ==> Value(trace, t) - Value(trace, u) <= a)
    && (exists t, u :: start <= t <= end && start <= u <= end && Value(trace, t) - Value(trace, u) == a)
  }

  /**
   The mean is the area over the window's seconds.  The window passes when the mean is at most one kelvin and at most a
   quarter kelvin and a twentieth of the reference's swing, and at a hotspot or control no error is above two kelvin.
   */
  ghost predicate IsVerdict(reference: seq<Sample>, candidate: seq<Sample>, start: int, end: int, strict: bool, r: Score) {
    && r.mae * ((end - start) as real / 1000000000.0) == r.area
    && IsLargestError(reference, candidate, start, end, r.maximum) && IsSwing(reference, start, end, r.amplitude)
    && (r.pass <==> r.mae <= 1.0 && r.mae <= 0.25 + 0.05 * r.amplitude && (strict ==> r.maximum <= 2.0))
  }

  lemma LargestOfWindow(f: int -> real, start: int, end: int, ticks: seq<int>) returns (n: nat)
    requires |ticks| > 1 && ticks[0] == start && ticks[|ticks| - 1] == end && Peaks(f, ticks)
    ensures n < |ticks| && f(ticks[n]) == MaxOver(f, ticks)
    ensures forall t :: start <= t <= end ==> f(t) <= MaxOver(f, ticks)
  {
    n := MaxIsReached(f, ticks);
    forall t | start <= t <= end ensures f(t) <= MaxOver(f, ticks) {
      var i := Around(ticks, t);
      assert PeaksOn(f, ticks[i], ticks[i + 1]);
    }
  }

  lemma ScoreIsVerdict(reference: seq<Sample>, candidate: seq<Sample>, start: int, end: int, ticks: seq<int>, strict: bool)
    requires Increasing(reference) && Increasing(candidate) && start < end
    requires Available(reference, start, end) && Available(candidate, start, end)
    requires IsGrid(reference, candidate, start, end, ticks)
    ensures ticks != [] && ticks[0] < ticks[|ticks| - 1]
    ensures IsVerdict(reference, candidate, start, end, strict, ScoreOn(reference, candidate, ticks, strict))
  {
    hide Value, Increasing, IsGrid, Available, MaxOver, Area, Peaks, IsLargestError, IsSwing, PiecewiseLinear;
    GridEnds(reference, candidate, start, end, ticks);
    GridPeaks(reference, candidate, start, end, ticks);
    var r := ScoreOn(reference, candidate, ticks, strict);
    LargestErrorOn(reference, candidate, start, end, ticks);
    SwingOn(reference, start, end, ticks);
    PositiveSeconds(start, end);
    Divided(r.mae, r.area, Seconds(start, end));
  }

  lemma LargestErrorOn(reference: seq<Sample>, candidate: seq<Sample>, start: int, end: int, ticks: seq<int>)
    requires |ticks| > 1 && ticks[0] == start && ticks[|ticks| - 1] == end && Peaks(AbsError(reference, candidate), ticks)
    requires forall i :: 0 <= i < |ticks| ==> start <= ticks[i] <= end
    ensures IsLargestError(reference, candidate, start, end, MaxOver(AbsError(reference, candidate), ticks))
  {
    hide Value, MaxOver, Peaks;
    var f := AbsError(reference, candidate);
    var n := LargestOfWindow(f, start, end, ticks);
    forall t | start <= t <= end ensures Abs(Value(candidate, t) - Value(reference, t)) <= MaxOver(f, ticks) {
      assert f(t) <= MaxOver(f, ticks);
    }
    assert start <= ticks[n] <= end && f(ticks[n]) == Abs(Value(candidate, ticks[n]) - Value(reference, ticks[n]));
  }

  lemma SwingOn(trace: seq<Sample>, start: int, end: int, ticks: seq<int>)
    requires |ticks| > 1 && ticks[0] == start && ticks[|ticks| - 1] == end
    requires Peaks(Temperature(trace), ticks) && Peaks(Mirror(trace), ticks)
    requires forall i :: 0 <= i < |ticks| ==> start <= ticks[i] <= end
    ensures IsSwing(trace, start, end, MaxOver(Temperature(trace), ticks) + MaxOver(Mirror(trace), ticks))
  {
    hide Value, MaxOver, Peaks;
    var f, g := Temperature(trace), Mirror(trace);
    var top := LargestOfWindow(f, start, end, ticks);
    var bottom := LargestOfWindow(g, start, end, ticks);
    forall t, u | start <= t <= end && start <= u <= end
      ensures Value(trace, t) - Value(trace, u) <= MaxOver(f, ticks) + MaxOver(g, ticks)
    {
      assert f(t) <= MaxOver(f, ticks) && g(u) <= MaxOver(g, ticks);
    }
    assert f(ticks[top]) + g(ticks[bottom]) == Value(trace, ticks[top]) - Value(trace, ticks[bottom]);
  }

  /** `None` is the error for a window outside the available data. */
  method ScoreWindow(reference: seq<Sample>, candidate: seq<Sample>, start: int, end: int, isHotspot: bool, isControl: bool)
    returns (r: Option<Score>, ticks: seq<int>)
    requires Increasing(reference) && Increasing(candidate) && reference != [] && candidate != [] && start < end
    ensures r.None? <==> start < reference[0].time || start < candidate[0].time
                         || reference[|reference| - 1].time < end || candidate[|candidate| - 1].time < end
    ensures r.Some? ==> IsGrid(reference, candidate, start, end, ticks) && ticks != [] && ticks[0] < ticks[|ticks| - 1]
    ensures r.Some? ==> r.value == ScoreOn(reference, candidate, ticks, isHotspot || isControl)
    ensures r.Some? ==> IsVerdict(reference, candidate, start, end, isHotspot || isControl, r.value)
  {
    if start < reference[0].time || start < candidate[0].time
       || end > reference[|reference| - 1].time || end > candidate[|candidate| - 1].time
    {
      return None, [];
    }
    ticks := CollectTicks(reference, start, end, [start, end]);
    ticks := CollectTicks(candidate, start, end, ticks);
    assert IsGrid(reference, candidate, start, end, ticks);
    GridEnds(reference, candidate, start, end, ticks);
    var score := ScoreTicks(reference, candidate, ticks, isHotspot || isControl);
    ScoreIsVerdict(reference, candidate, start, end, ticks, isHotspot || isControl);
    hide IsVerdict;
    r := Some(score);
  }

  method ScoreTicks(reference: seq<Sample>, candidate: seq<Sample>, ticks: seq<int>, strict: bool) returns (r: Score)
    requires Increasing(reference) && Increasing(candidate) && ticks != [] && ticks[0] < ticks[|ticks| - 1]
    requires forall i :: 0 <= i < |ticks| ==> Spans(reference, ticks[i]) && Spans(candidate, ticks[i])
    ensures r == ScoreOn(reference, candidate, ticks, strict)
  {
    hide Value, Area, MaxOver, Spans, Increasing;
    var refs := Interpolated(reference, ticks);
    var cands := Interpolated(candidate, ticks);
    var signed := seq(|ticks|, i requires 0 <= i < |ticks| => cands[i] - refs[i]);
    var area := Integrate(signed, ticks, Error(reference, candidate));
    var duration := (ticks[|ticks| - 1] - ticks[0]) as real / 1000000000.0;
    var mae := area / duration;
    var mirrored := seq(|ticks|, i requires 0 <= i < |ticks| => -refs[i]);
    var top := Largest(refs, Temperature(reference), ticks);
    var bottom := Largest(mirrored, Mirror(reference), ticks);
    var amplitude := top - -bottom;
    var sizes := seq(|ticks|, i requires 0 <= i < |ticks| => Abs(signed[i]));
    var maximum := Largest(sizes, AbsError(reference, candidate), ticks);
    var limit := Limit(amplitude);
    r := Score(area, mae, limit, amplitude, maximum, mae <= limit && (!strict || maximum <= MAX_HOTSPOT_CONTROL_ERROR_K));
  }
}

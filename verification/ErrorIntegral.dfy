/**
 The exact integral of the absolute value of a piecewise linear error, and why it does
 not depend on which grid of times it is taken over.
 */
module ErrorIntegral {

  function Abs(x: real): real {
    if x < 0.0 then -x else x
  }

  function Max(a: real, b: real): real {
    if a < b then b else a
  }

  // ---------------------------------------------------------------- one segment

  /** The area under the absolute value of a straight segment of the given duration. */
  function SegmentArea(duration: real, left: real, right: real): real {
    if left * right >= 0.0 then duration * (Abs(left) + Abs(right)) / 2.0
    else
      assert Abs(left) + Abs(right) > 0.0;
      duration * (left * left + right * right) / (2.0 * (Abs(left) + Abs(right)))
  }

  /** A primitive of the absolute value. */
  function Primitive(x: real): real {
    x * Abs(x) / 2.0
  }

  /** The formula is the integral: its product with the slope is the difference of the primitive. */
  lemma SegmentIsIntegral(d: real, l: real, r: real, slope: real)
    requires d > 0.0 && r == l + slope * d
    ensures SegmentArea(d, l, r) * slope == Primitive(r) - Primitive(l)
  {
    var area := SegmentArea(d, l, r);
    if l * r >= 0.0 {
      SameSign(l, r);
      assert area * slope == slope * d * (Abs(l) + Abs(r)) / 2.0;
      assert area * slope == (r - l) * (Abs(l) + Abs(r)) / 2.0;
    } else {
      OppositeSign(l, r);
      var width := Abs(l) + Abs(r);
      Divided(area, d * (l * l + r * r), 2.0 * width);
      assert area * (2.0 * width) == d * (l * l + r * r);
      if l < 0.0 {
        assert width == slope * d;
        assert (area * slope * 2.0 - (l * l + r * r)) * d == 0.0;
      } else {
        assert width == -(slope * d);
        assert (area * slope * 2.0 + (l * l + r * r)) * d == 0.0;
      }
    }
  }

  lemma SameSign(l: real, r: real)
    requires l * r >= 0.0
    ensures (l >= 0.0 && r >= 0.0) || (l <= 0.0 && r <= 0.0)
  {
  }

  lemma OppositeSign(l: real, r: real)
    requires l * r < 0.0
    ensures l < 0.0 < r || r < 0.0 < l
  {
  }

  lemma Divided(q: real, a: real, b: real)
    requires b != 0.0 && q == a / b
    ensures q * b == a
  {
  }

  lemma FlatSegment(d: real, l: real)
    ensures SegmentArea(d, l, l) == d * Abs(l)
  {
    assert l * l >= 0.0;
    assert d * (Abs(l) + Abs(l)) == 2.0 * (d * Abs(l));
  }

  /** Splitting a segment at a point on it leaves the area as it was. */
  lemma SegmentSplits(d: real, e: real, l: real, m: real, r: real, slope: real)
    requires d > 0.0 && e > 0.0 && m == l + slope * d && r == m + slope * e
    ensures SegmentArea(d + e, l, r) == SegmentArea(d, l, m) + SegmentArea(e, m, r)
  {
    hide SegmentArea, Primitive;
    if slope == 0.0 {
      FlatSegment(d, l);
      FlatSegment(e, l);
      FlatSegment(d + e, l);
    } else {
      assert r == l + slope * (d + e);
      SegmentIsIntegral(d, l, m, slope);
      SegmentIsIntegral(e, m, r, slope);
      SegmentIsIntegral(d + e, l, r, slope);
      Spread(SegmentArea(d + e, l, r), SegmentArea(d, l, m), SegmentArea(e, m, r), slope);
      Cancel(SegmentArea(d + e, l, r) - SegmentArea(d, l, m) - SegmentArea(e, m, r), slope);
    }
  }

  lemma Spread(a: real, b: real, c: real, k: real)
    ensures (a - b - c) * k == a * k - b * k - c * k
  {
  }

  lemma Cancel(x: real, k: real)
    requires x * k == 0.0 && k != 0.0
    ensures x == 0.0
  {
  }

  lemma Scaled(d: real, x: real, y: real)
    requires d >= 0.0 && x <= y
    ensures d * x <= d * y
  {
  }

  lemma SquareBound(x: real, bound: real)
    requires Abs(x) <= bound
    ensures 0.0 <= x * x <= bound * Abs(x)
  {
    Scaled(Abs(x), Abs(x), bound);
  }

  lemma QuotientBound(q: real, bound: real, width: real)
    requires width > 0.0 && bound >= 0.0 && 0.0 <= q * (2.0 * width) <= bound * width
    ensures 0.0 <= q <= bound
  {
    Scaled(width, if q < bound then 0.0 else bound, q);
  }

  /** No segment has more area than its duration times its larger end. */
  lemma SegmentBound(d: real, l: real, r: real, bound: real)
    requires d > 0.0 && Abs(l) <= bound && Abs(r) <= bound
    ensures 0.0 <= SegmentArea(d, l, r) <= d * bound
  {
    var area, width := SegmentArea(d, l, r), Abs(l) + Abs(r);
    if l * r >= 0.0 {
      assert area == d * (width / 2.0);
      Scaled(d, width / 2.0, bound);
      Scaled(d, 0.0, width / 2.0);
    } else {
      MixedBound(d, l, r, bound);
    }
  }

  lemma MixedBound(d: real, l: real, r: real, bound: real)
    requires d > 0.0 && Abs(l) <= bound && Abs(r) <= bound && l * r < 0.0
    ensures 0.0 <= SegmentArea(d, l, r) <= d * bound
  {
    OppositeSign(l, r);
    var width, squares := Abs(l) + Abs(r), l * l + r * r;
    Divided(SegmentArea(d, l, r), d * squares, 2.0 * width);
    hide SegmentArea;
    SquareBound(l, bound);
    SquareBound(r, bound);
    assert bound * width == bound * Abs(l) + bound * Abs(r);
    QuotientChain(SegmentArea(d, l, r), d, squares, bound, width);
  }

  lemma QuotientChain(area: real, d: real, squares: real, bound: real, width: real)
    requires d > 0.0 && width > 0.0 && bound >= 0.0 && 0.0 <= squares <= bound * width && area * (2.0 * width) == d * squares
    ensures 0.0 <= area <= d * bound
  {
    Scaled(d, squares, bound * width);
    Scaled(d, 0.0, squares);
    Scaled(d, 0.0, bound);
    Associate(d, bound, width);
    QuotientBound(area, d * bound, width);
  }

  lemma Associate(a: real, b: real, c: real)
    ensures a * (b * c) == (a * b) * c
  {
  }

  // ---------------------------------------------------------------- grids

  ghost predicate Sorted(ticks: seq<int>) {
    forall i, j :: 0 <= i < j < |ticks| ==> ticks[i] < ticks[j]
  }

  function Seconds(from: int, to: int): real {
    (to - from) as real / 1000000000.0
  }

  /** The integral of the absolute error over the grid. */
  function Area(error: int -> real, ticks: seq<int>): real {
    if |ticks| < 2 then 0.0
    else SegmentArea(Seconds(ticks[0], ticks[1]), error(ticks[0]), error(ticks[1])) + Area(error, ticks[1..])
  }

  function MaxOver(f: int -> real, ticks: seq<int>): real
    requires ticks != []
  {
    if |ticks| == 1 then f(ticks[0]) else Max(f(ticks[0]), MaxOver(f, ticks[1..]))
  }

  /** `f` has slope `k` per nanosecond from `a` to `b`. */
  ghost predicate Sloped(f: int -> real, a: int, b: int, k: real) {
    forall t :: a <= t <= b ==> f(t) == f(a) + k * (t - a) as real
  }

  ghost predicate Linear(f: int -> real, a: int, b: int) {
    exists k :: Sloped(f, a, b, k)
  }

  /** `f` is linear between neighbouring ticks. */
  ghost predicate PiecewiseLinear(f: int -> real, ticks: seq<int>) {
    forall i :: 0 <= i < |ticks| - 1 ==> Linear(f, ticks[i], ticks[i + 1])
  }

  /** Between neighbouring ticks `f` does not exceed its values at them. */
  ghost predicate Peaks(f: int -> real, ticks: seq<int>) {
    forall i :: 0 <= i < |ticks| - 1 ==> PeaksOn(f, ticks[i], ticks[i + 1])
  }

  ghost predicate PeaksOn(f: int -> real, a: int, b: int) {
    forall t :: a <= t <= b ==> f(t) <= Max(f(a), f(b))
  }

  /** The finer grid has every tick of the coarse one and the same ends. */
  ghost predicate Finer(ticks: seq<int>, fine: seq<int>) {
    && Sorted(ticks) && Sorted(fine) && ticks != [] && fine != []
    && ticks[0] == fine[0] && ticks[|ticks| - 1] == fine[|fine| - 1]
    && forall i :: 0 <= i < |ticks| ==> ticks[i] in fine
  }

  lemma SlopeInside(f: int -> real, a: int, b: int, x: int)
    requires a < x < b && Linear(f, a, b)
    ensures Linear(f, a, x) && Linear(f, x, b)
  {
    var k :| Sloped(f, a, b, k);
    assert Sloped(f, a, x, k);
    forall t | x <= t <= b ensures f(t) == f(x) + k * (t - x) as real {
      assert f(t) == f(a) + k * (t - a) as real && f(x) == f(a) + k * (x - a) as real;
      assert (t - a) as real == (x - a) as real + (t - x) as real;
    }
    assert Sloped(f, x, b, k);
  }

  lemma AreaSplits(f: int -> real, a: int, x: int, b: int)
    requires a < x < b && Linear(f, a, b)
    ensures SegmentArea(Seconds(a, b), f(a), f(b)) == SegmentArea(Seconds(a, x), f(a), f(x)) + SegmentArea(Seconds(x, b), f(x), f(b))
  {
    var k :| Sloped(f, a, b, k);
    var slope := k * 1000000000.0;
    assert f(x) == f(a) + slope * Seconds(a, x);
    assert f(b) == f(a) + k * (b - a) as real && (b - a) as real == (x - a) as real + (b - x) as real;
    assert f(b) == f(x) + slope * Seconds(x, b);
    assert Seconds(a, b) == Seconds(a, x) + Seconds(x, b);
    SegmentSplits(Seconds(a, x), Seconds(x, b), f(a), f(x), f(b), slope);
  }

  /** The grid from `x` on. */
  function From(x: int, ticks: seq<int>): seq<int>
    requires |ticks| > 1
  {
    if x == ticks[1] then ticks[1..] else [x] + ticks[1..]
  }

  lemma NextFine(ticks: seq<int>, fine: seq<int>)
    requires Finer(ticks, fine) && |fine| > 1
    ensures |ticks| > 1 && ticks[0] < fine[1] <= ticks[1]
  {
    assert fine[0] < fine[|fine| - 1];
    assert ticks[1] in fine;
    var j :| 0 <= j < |fine| && fine[j] == ticks[1];
  }

  lemma SortedFrom(ticks: seq<int>, x: int)
    requires Sorted(ticks) && |ticks| > 1 && x <= ticks[1]
    ensures Sorted(From(x, ticks)) && From(x, ticks)[0] == x
    ensures From(x, ticks)[|From(x, ticks)| - 1] == ticks[|ticks| - 1]
    ensures forall i :: 0 <= i < |From(x, ticks)| ==> From(x, ticks)[i] == x || From(x, ticks)[i] in ticks[1..]
  {
  }

  /** One step down a finer grid: drop the first tick, and continue from the next fine one. */
  lemma FinerStep(ticks: seq<int>, fine: seq<int>)
    requires Finer(ticks, fine) && |fine| > 1
    ensures |ticks| > 1 && ticks[0] < fine[1] <= ticks[1] && Finer(From(fine[1], ticks), fine[1..])
  {
    NextFine(ticks, fine);
    SortedFrom(ticks, fine[1]);
    hide From;
    var rest, tail := From(fine[1], ticks), fine[1..];
    assert Sorted(tail) && tail[0] == fine[1];
    forall i | 0 <= i < |rest| ensures rest[i] in tail {
      if rest[i] != fine[1] {
        LaterTick(ticks, fine, rest[i]);
      }
    }
  }

  lemma LaterTick(ticks: seq<int>, fine: seq<int>, t: int)
    requires Finer(ticks, fine) && |fine| > 1 && |ticks| > 1 && t in ticks[1..]
    ensures t in fine[1..]
  {
    var n :| 0 <= n < |ticks[1..]| && ticks[1..][n] == t;
    assert ticks[n + 1] == t && t in fine;
    var m :| 0 <= m < |fine| && fine[m] == t;
    assert fine[1..][m - 1] == t;
  }

  lemma LinearFrom(f: int -> real, ticks: seq<int>, x: int)
    requires Sorted(ticks) && PiecewiseLinear(f, ticks) && |ticks| > 1 && ticks[0] < x <= ticks[1]
    ensures PiecewiseLinear(f, From(x, ticks))
  {
    hide Linear;
    assert Linear(f, ticks[0], ticks[1]);
    var rest := From(x, ticks);
    if x < ticks[1] {
      SlopeInside(f, ticks[0], ticks[1], x);
    }
    forall i | 0 <= i < |rest| - 1 ensures Linear(f, rest[i], rest[i + 1]) {
      if x == ticks[1] {
        assert Linear(f, ticks[i + 1], ticks[i + 1 + 1]);
      } else if i > 0 {
        assert Linear(f, ticks[i], ticks[i + 1]);
      }
    }
  }

  lemma AreaFrom(f: int -> real, ticks: seq<int>, x: int)
    requires |ticks| > 1 && ticks[0] < x <= ticks[1] && Linear(f, ticks[0], ticks[1])
    ensures Area(f, ticks) == SegmentArea(Seconds(ticks[0], x), f(ticks[0]), f(x)) + Area(f, From(x, ticks))
  {
    hide SegmentArea, Linear, Seconds;
    if x < ticks[1] {
      AreaSplits(f, ticks[0], x, ticks[1]);
      assert From(x, ticks)[1..] == ticks[1..];
    }
  }

  /** The integral of a piecewise linear error is the same over every finer grid. */
  lemma {:induction false} AreaRefines(f: int -> real, ticks: seq<int>, fine: seq<int>)
    requires Finer(ticks, fine) && PiecewiseLinear(f, ticks)
    ensures Area(f, fine) == Area(f, ticks)
    decreases |fine|
  {
    if |fine| > 1 {
      FinerStep(ticks, fine);
      assert Linear(f, ticks[0], ticks[1]);
      hide Finer, Linear, From, SegmentArea, Seconds;
      LinearFrom(f, ticks, fine[1]);
      AreaRefines(f, From(fine[1], ticks), fine[1..]);
      AreaFrom(f, ticks, fine[1]);
    } else {
      assert |ticks| == 1;
    }
  }

  // ---------------------------------------------------------------- maxima

  lemma {:induction false} MaxIsReached(f: int -> real, ticks: seq<int>) returns (n: nat)
    requires ticks != []
    ensures n < |ticks| && MaxOver(f, ticks) == f(ticks[n])
    ensures forall i :: 0 <= i < |ticks| ==> f(ticks[i]) <= MaxOver(f, ticks)
    decreases |ticks|
  {
    n := 0;
    if |ticks| > 1 {
      var m := MaxIsReached(f, ticks[1..]);
      assert forall i :: 1 <= i < |ticks| ==> ticks[i] == ticks[1..][i - 1];
      if f(ticks[0]) < MaxOver(f, ticks[1..]) {
        n := m + 1;
      }
    }
  }

  /** The two ticks around a time inside the grid. */
  lemma {:induction false} Around(ticks: seq<int>, t: int) returns (i: nat)
    requires |ticks| > 1 && ticks[0] <= t <= ticks[|ticks| - 1]
    ensures i < |ticks| - 1 && ticks[i] <= t <= ticks[i + 1]
    decreases |ticks|
  {
    if t <= ticks[1] {
      i := 0;
    } else {
      i := Around(ticks[1..], t);
      i := i + 1;
    }
  }

  /** What peaks at the ticks has the same maximum over every finer grid. */
  lemma MaxRefines(f: int -> real, ticks: seq<int>, fine: seq<int>)
    requires Finer(ticks, fine) && Peaks(f, ticks)
    ensures MaxOver(f, fine) == MaxOver(f, ticks)
  {
    var n := MaxIsReached(f, ticks);
    var m := MaxIsReached(f, fine);
    assert ticks[n] in fine;
    if |ticks| > 1 {
      assert fine[0] <= fine[m] <= fine[|fine| - 1];
      var i := Around(ticks, fine[m]);
      assert PeaksOn(f, ticks[i], ticks[i + 1]);
    }
  }

  lemma LinearPeaks(f: int -> real, a: int, b: int, t: int)
    requires Linear(f, a, b) && a <= t <= b
    ensures f(t) <= Max(f(a), f(b)) && -f(t) <= Max(-f(a), -f(b))
  {
    var k :| Sloped(f, a, b, k);
    var x, y := (t - a) as real, (b - a) as real;
    assert f(t) == f(a) + k * x && f(b) == f(a) + k * y;
    if k >= 0.0 {
      Scaled(k, x, y);
      Scaled(k, 0.0, x);
    } else {
      Scaled(-k, x, y);
      Scaled(-k, 0.0, x);
    }
  }

  lemma SecondsAdd(a: int, b: int, c: int, bound: real)
    ensures Seconds(a, c) * bound == Seconds(a, b) * bound + Seconds(b, c) * bound
  {
    assert Seconds(a, c) == Seconds(a, b) + Seconds(b, c);
  }

  lemma PositiveSeconds(a: int, b: int)
    requires a < b
    ensures Seconds(a, b) > 0.0
  {
  }

  lemma NoSeconds(a: int)
    ensures Seconds(a, a) == 0.0
  {
  }

  /** The mean of the absolute value is at most its maximum. */
  lemma {:induction false} AreaBound(f: int -> real, ticks: seq<int>, bound: real)
    requires Sorted(ticks) && ticks != [] && forall i :: 0 <= i < |ticks| ==> Abs(f(ticks[i])) <= bound
    ensures 0.0 <= Area(f, ticks) <= Seconds(ticks[0], ticks[|ticks| - 1]) * bound
    decreases |ticks|
  {
    hide SegmentArea, Seconds, Abs;
    if |ticks| > 1 {
      AreaBound(f, ticks[1..], bound);
      PositiveSeconds(ticks[0], ticks[1]);
      SegmentBound(Seconds(ticks[0], ticks[1]), f(ticks[0]), f(ticks[1]), bound);
      SecondsAdd(ticks[0], ticks[1], ticks[|ticks| - 1], bound);
    } else {
      NoSeconds(ticks[0]);
    }
  }

  lemma SameArea(f: int -> real, g: int -> real, ticks: seq<int>)
    requires forall i :: 0 <= i < |ticks| ==> f(ticks[i]) == g(ticks[i])
    ensures Area(f, ticks) == Area(g, ticks)
  {
    if |ticks| > 1 {
      assert forall i :: 0 <= i < |ticks[1..]| ==> ticks[1..][i] == ticks[i + 1];
      SameArea(f, g, ticks[1..]);
    }
  }

  lemma SameMax(f: int -> real, g: int -> real, ticks: seq<int>)
    requires ticks != [] && forall i :: 0 <= i < |ticks| ==> f(ticks[i]) == g(ticks[i])
    ensures MaxOver(f, ticks) == MaxOver(g, ticks)
  {
    var n := MaxIsReached(f, ticks);
    var m := MaxIsReached(g, ticks);
    assert f(ticks[n]) == g(ticks[n]) && f(ticks[m]) == g(ticks[m]);
  }
}

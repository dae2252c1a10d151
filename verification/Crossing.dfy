/**
 Threshold crossings of a sampled temperature whose samples are known to half a quantum,
 over exact reals and integer nanoseconds.
 */
module Crossing {
  datatype Sample = Sample(time: int, value: real)

  datatype Event = Event(id: nat, up: bool, lo: int, hi: int, bridged: bool)

  datatype Reason = ReturnedToSameSide | TrajectoryEnd | EntireTrajectory

  datatype Gap = Gap(lo: int, hi: int, reason: Reason)

  ghost predicate Increasing(samples: seq<Sample>) {
    forall i, j :: 0 <= i < j < |samples| ==> samples[i].time < samples[j].time
  }

  /** -1 certainly below the threshold, 1 certainly above it, 0 undecided. */
  function Side(value: real, threshold: real, half: real): int {
    if value + half < threshold then -1 else if value - half > threshold then 1 else 0
  }

  /** A sample is certain of a side when every value within half a quantum is on it, and undecided when one is on the threshold. */
  lemma SideIsCertainty(value: real, threshold: real, half: real)
    requires half >= 0.0
    ensures Side(value, threshold, half) == -1 <==> forall x :: Rounded(x, value, half) ==> x < threshold
    ensures Side(value, threshold, half) == 1 <==> forall x :: Rounded(x, value, half) ==> x > threshold
    ensures Side(value, threshold, half) == 0 <==> Rounded(threshold, value, half)
  {
    assert Rounded(value - half, value, half) && Rounded(value + half, value, half);
  }

  /** A true value that is reported as `value`. */
  ghost predicate Rounded(x: real, value: real, half: real) {
    value - half <= x <= value + half
  }

  // ---------------------------------------------------------------- crossing times of straight segments

  /** Where the segment from `(lt, l)` to `(rt, r)` meets the threshold. */
  function CrossTime(lt: int, rt: int, l: real, r: real, threshold: real): real
    requires l != r
  {
    lt as real + (rt - lt) as real * ((threshold - l) / (r - l))
  }

  /** The threshold lies strictly between the two values. */
  predicate Between(l: real, r: real, threshold: real) {
    l < threshold < r || r < threshold < l
  }

  lemma FractionMonotone(l: real, r: real, l2: real, r2: real, threshold: real)
    requires l <= l2 < threshold < r <= r2
    ensures (threshold - l2) / (r - l2) <= (threshold - l) / (r - l)
    ensures (threshold - l) / (r2 - l) <= (threshold - l) / (r - l)
  {
    var a, b, d, e := threshold - l, threshold - l2, r - threshold, r2 - threshold;
    assert b / (b + d) <= a / (a + d) by { QuotientGrows(b, a, d); }
    assert a / (a + e) <= a / (a + d) by { QuotientShrinks(a, d, e); }
  }

  lemma QuotientGrows(b: real, a: real, d: real)
    requires 0.0 < b <= a && 0.0 < d
    ensures b / (b + d) <= a / (a + d)
  {
    assert b * (a + d) <= a * (b + d);
    CrossMultiply(b, b + d, a, a + d);
  }

  lemma QuotientShrinks(a: real, d: real, e: real)
    requires 0.0 < a && 0.0 < d <= e
    ensures a / (a + e) <= a / (a + d)
  {
    assert a * (a + d) <= a * (a + e);
    CrossMultiply(a, a + e, a, a + d);
  }

  lemma CrossMultiply(p: real, q: real, u: real, v: real)
    requires q > 0.0 && v > 0.0 && p * v <= u * q
    ensures p / q <= u / v
  {
    var x, y := p / q, u / v;
    assert x * q == p && y * v == u;
    assert x * (q * v) <= y * (q * v);
  }

  lemma NegatedQuotient(a: real, b: real)
    requires b != 0.0
    ensures -a / -b == a / b
  {
    var x, y := a / b, -a / -b;
    assert x * b == a && y * b == a;
    assert (x - y) * b == 0.0;
  }

  lemma ProperFraction(a: real, b: real)
    requires 0.0 < a < b
    ensures 0.0 < a / b < 1.0
  {
    PositiveQuotient(a, b);
    PositiveQuotient(b - a, b);
    var x, z := a / b, (b - a) / b;
    assert (x + z - 1.0) * b == 0.0;
    ZeroProduct(x + z - 1.0, b);
  }

  lemma ZeroProduct(u: real, b: real)
    requires u * b == 0.0 && b != 0.0
    ensures u == 0.0
  {
  }

  lemma PositiveQuotient(a: real, b: real)
    requires 0.0 < a && 0.0 < b
    ensures 0.0 < a / b && a / b * b == a
  {
  }

  lemma FractionInside(l: real, r: real, threshold: real)
    requires Between(l, r, threshold)
    ensures 0.0 < (threshold - l) / (r - l) < 1.0
  {
    if l < threshold {
      ProperFraction(threshold - l, r - l);
    } else {
      ProperFraction(l - threshold, l - r);
      NegatedQuotient(l - threshold, l - r);
      assert -(l - threshold) == threshold - l && -(l - r) == r - l;
    }
  }

  /** The crossing lies strictly inside the segment. */
  lemma CrossesInside(lt: int, rt: int, l: real, r: real, threshold: real)
    requires lt < rt && Between(l, r, threshold)
    ensures lt as real < CrossTime(lt, rt, l, r, threshold) < rt as real
  {
    FractionInside(l, r, threshold);
    var f, d := (threshold - l) / (r - l), (rt - lt) as real;
    assert 0.0 < d * f < d;
  }

  /** An upward crossing comes later the lower either end lies. */
  lemma UpwardMonotone(lt: int, rt: int, l: real, r: real, l2: real, r2: real, threshold: real)
    requires lt < rt && l <= l2 < threshold < r <= r2
    ensures CrossTime(lt, rt, l2, r2, threshold) <= CrossTime(lt, rt, l, r, threshold)
  {
    FractionMonotone(l, r, l2, r2, threshold);
    FractionMonotone(l2, r, l2, r2, threshold);
    var d := (rt - lt) as real;
    ScaleBound(d, (threshold - l2) / (r - l2), (threshold - l) / (r - l));
    ScaleBound(d, (threshold - l2) / (r2 - l2), (threshold - l2) / (r - l2));
  }

  lemma ScaleBound(d: real, x: real, y: real)
    requires d >= 0.0 && x <= y
    ensures d * x <= d * y
  {
  }

  /** Mirrored in the threshold, a downward crossing is an upward one at the same time. */
  lemma Mirrored(lt: int, rt: int, l: real, r: real, threshold: real)
    requires l != r
    ensures CrossTime(lt, rt, -l, -r, -threshold) == CrossTime(lt, rt, l, r, threshold)
  {
    NegatedQuotient(threshold - l, r - l);
    assert -(threshold - l) == -threshold - -l && -(r - l) == -r - -l;
  }

  lemma DownwardMonotone(lt: int, rt: int, l: real, r: real, l2: real, r2: real, threshold: real)
    requires lt < rt && r <= r2 < threshold < l <= l2
    ensures CrossTime(lt, rt, l, r, threshold) <= CrossTime(lt, rt, l2, r2, threshold)
  {
    UpwardMonotone(lt, rt, -l2, -r2, -l, -r, -threshold);
    Mirrored(lt, rt, l, r, threshold);
    Mirrored(lt, rt, l2, r2, threshold);
  }

  // ---------------------------------------------------------------- the four corners

  function Lowest(s: seq<real>): (m: real)
    requires s != []
    ensures m in s && forall x :: x in s ==> m <= x
  {
    if |s| == 1 then s[0]
    else
      var rest := Lowest(s[1..]);
      assert s == [s[0]] + s[1..];
      if s[0] <= rest then s[0] else rest
  }

  function Highest(s: seq<real>): (m: real)
    requires s != []
    ensures m in s && forall x :: x in s ==> x <= m
  {
    if |s| == 1 then s[0]
    else
      var rest := Highest(s[1..]);
      assert s == [s[0]] + s[1..];
      if rest <= s[0] then s[0] else rest
  }

  function Ceiling(x: real): (n: int)
    ensures n as real - 1.0 < x <= n as real
  {
    -(-x).Floor
  }

  /** Two samples certainly on opposite sides. */
  predicate Opposite(left: Sample, right: Sample, threshold: real, half: real) {
    Side(left.value, threshold, half) * Side(right.value, threshold, half) == -1
  }

  lemma OppositeBetween(left: Sample, right: Sample, threshold: real, half: real, l: real, r: real)
    requires Opposite(left, right, threshold, half)
    requires left.value - half <= l <= left.value + half && right.value - half <= r <= right.value + half
    ensures Between(l, r, threshold)
    ensures l < r <==> Side(right.value, threshold, half) == 1
  {
  }

  /** Crossing times for the extreme values of both samples. */
  function Corners(left: Sample, right: Sample, threshold: real, half: real): (s: seq<real>)
    requires half >= 0.0 && Opposite(left, right, threshold, half)
    ensures |s| == 4
  {
    var (a, b, c, d) := (left.value - half, left.value + half, right.value - half, right.value + half);
    [CrossTime(left.time, right.time, a, c, threshold), CrossTime(left.time, right.time, a, d, threshold),
     CrossTime(left.time, right.time, b, c, threshold), CrossTime(left.time, right.time, b, d, threshold)]
  }

  /**
   The corners bound the whole quantization box: whatever the true values are within half a
   quantum, the straight segment between them crosses within the event's interval.
   */
  lemma CornersBound(left: Sample, right: Sample, threshold: real, half: real, l: real, r: real)
    requires half >= 0.0 && left.time < right.time && Opposite(left, right, threshold, half)
    requires left.value - half <= l <= left.value + half && right.value - half <= r <= right.value + half
    ensures l != r
    ensures var corners := Corners(left, right, threshold, half);
            Lowest(corners) <= CrossTime(left.time, right.time, l, r, threshold) <= Highest(corners)
  {
    OppositeBetween(left, right, threshold, half, l, r);
    var corners := Corners(left, right, threshold, half);
    var (a, b, c, d) := (left.value - half, left.value + half, right.value - half, right.value + half);
    assert corners[0] in corners && corners[3] in corners;
    if Side(right.value, threshold, half) == 1 {
      UpwardMonotone(left.time, right.time, a, c, l, r, threshold);
      UpwardMonotone(left.time, right.time, l, r, b, d, threshold);
    } else {
      DownwardMonotone(left.time, right.time, a, c, l, r, threshold);
      DownwardMonotone(left.time, right.time, l, r, b, d, threshold);
    }
  }

  lemma CornersInside(left: Sample, right: Sample, threshold: real, half: real)
    requires half >= 0.0 && left.time < right.time && Opposite(left, right, threshold, half)
    ensures forall x :: x in Corners(left, right, threshold, half) ==> left.time as real < x < right.time as real
  {
    var (a, b, c, d) := (left.value - half, left.value + half, right.value - half, right.value + half);
    CrossesInside(left.time, right.time, a, c, threshold);
    CrossesInside(left.time, right.time, a, d, threshold);
    CrossesInside(left.time, right.time, b, c, threshold);
    CrossesInside(left.time, right.time, b, d, threshold);
  }

  // ---------------------------------------------------------------- the interval, without the corners

  /** The straight line through `(lt, l)` and `(rt, r)` is at the threshold at time `t`. */
  ghost predicate Meets(lt: int, rt: int, l: real, r: real, threshold: real, t: real) {
    l != r && (t - lt as real) * (r - l) == (threshold - l) * (rt - lt) as real
  }

  lemma MeetsOnce(lt: int, rt: int, l: real, r: real, threshold: real, t: real)
    requires l != r
    ensures Meets(lt, rt, l, r, threshold, t) <==> t == CrossTime(lt, rt, l, r, threshold)
  {
    var q, w, d := r - l, threshold - l, (rt - lt) as real;
    assert w / q * q == w;
    assert d * (w / q) * q == d * (w / q * q) == w * d;
    if Meets(lt, rt, l, r, threshold, t) {
      assert (t - lt as real - d * (w / q)) * q == 0.0;
      ZeroProduct(t - lt as real - d * (w / q), q);
    }
  }

  /** Some pair of true values has its straight line cross at time `t`. */
  ghost predicate CanCrossAt(left: Sample, right: Sample, threshold: real, half: real, t: real) {
    exists l, r :: Rounded(l, left.value, half) && Rounded(r, right.value, half)
                   && Meets(left.time, right.time, l, r, threshold, t)
  }

  /** `lo` and `hi` are the whole nanoseconds around all possible crossings, and no wider. */
  ghost predicate IsTightest(left: Sample, right: Sample, threshold: real, half: real, lo: int, hi: int) {
    && (forall t :: CanCrossAt(left, right, threshold, half, t) ==> lo as real <= t <= hi as real)
    && (exists t :: CanCrossAt(left, right, threshold, half, t) && t < lo as real + 1.0)
    && (exists t :: CanCrossAt(left, right, threshold, half, t) && hi as real - 1.0 < t)
  }

  lemma CornerCanBeMet(left: Sample, right: Sample, threshold: real, half: real, t: real)
    requires half >= 0.0 && Opposite(left, right, threshold, half) && t in Corners(left, right, threshold, half)
    ensures CanCrossAt(left, right, threshold, half, t)
  {
    var corners := Corners(left, right, threshold, half);
    var k :| 0 <= k < 4 && corners[k] == t;
    var l := if k < 2 then left.value - half else left.value + half;
    var r := if k == 0 || k == 2 then right.value - half else right.value + half;
    OppositeBetween(left, right, threshold, half, l, r);
    assert t == CrossTime(left.time, right.time, l, r, threshold);
    MeetsOnce(left.time, right.time, l, r, threshold, t);
    assert Rounded(l, left.value, half) && Rounded(r, right.value, half);
  }

  lemma CornersAreTight(left: Sample, right: Sample, threshold: real, half: real)
    requires half >= 0.0 && left.time < right.time && Opposite(left, right, threshold, half)
    ensures var corners := Corners(left, right, threshold, half);
            IsTightest(left, right, threshold, half, Lowest(corners).Floor, Ceiling(Highest(corners)))
  {
    hide Corners, Opposite, Meets, Rounded;
    var corners := Corners(left, right, threshold, half);
    var lowest, highest := Lowest(corners), Highest(corners);
    forall t | CanCrossAt(left, right, threshold, half, t) ensures lowest <= t <= highest {
      CrossingsAreBounded(left, right, threshold, half, t);
    }
    CornerCanBeMet(left, right, threshold, half, lowest);
    CornerCanBeMet(left, right, threshold, half, highest);
  }

  lemma CrossingsAreBounded(left: Sample, right: Sample, threshold: real, half: real, t: real)
    requires half >= 0.0 && left.time < right.time && Opposite(left, right, threshold, half)
    requires CanCrossAt(left, right, threshold, half, t)
    ensures var corners := Corners(left, right, threshold, half);
            Lowest(corners) <= t <= Highest(corners)
  {
    var l, r :| Rounded(l, left.value, half) && Rounded(r, right.value, half)
                && Meets(left.time, right.time, l, r, threshold, t);
    hide Corners, Opposite;
    MeetsOnce(left.time, right.time, l, r, threshold, t);
    CornersBound(left, right, threshold, half, l, r);
  }

  /** There is only one such interval. */
  lemma TightestIsUnique(left: Sample, right: Sample, threshold: real, half: real, lo: int, hi: int, lo2: int, hi2: int)
    requires IsTightest(left, right, threshold, half, lo, hi) && IsTightest(left, right, threshold, half, lo2, hi2)
    ensures lo == lo2 && hi == hi2
  {
    hide CanCrossAt;
    var a :| CanCrossAt(left, right, threshold, half, a) && a < lo as real + 1.0;
    var b :| CanCrossAt(left, right, threshold, half, b) && b < lo2 as real + 1.0;
    var c :| CanCrossAt(left, right, threshold, half, c) && hi as real - 1.0 < c;
    var e :| CanCrossAt(left, right, threshold, half, e) && hi2 as real - 1.0 < e;
  }
}

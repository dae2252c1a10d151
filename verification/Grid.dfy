/**
 The Cartesian discretization of a package: axis planes through every entity face, and cells
 owned by the entity that contains them.  Coordinates are exact reals.
 */
module Grid {
  import opened Wrappers

  /** The extent of a box along one axis. */
  datatype Extent = Extent(lo: real, size: real)

  datatype Box = Box(x: Extent, y: Extent, z: Extent)

  datatype Axes = Axes(x: seq<real>, y: seq<real>, z: seq<real>)

  datatype Cell = Cell(x: nat, y: nat, z: nat, owner: Option<nat>, volume: real)

  function Hi(e: Extent): real {
    e.lo + e.size
  }

  ghost predicate Ascending(planes: seq<real>) {
    forall i, j :: 0 <= i < j < |planes| ==> planes[i] < planes[j]
  }

  ghost predicate AxesOk(a: Axes) {
    Ascending(a.x) && Ascending(a.y) && Ascending(a.z) && a.x != [] && a.y != [] && a.z != []
  }

  // ---------------------------------------------------------------- ownership

  function Centre(planes: seq<real>, i: nat): real
    requires i < |planes| - 1
  {
    planes[i] + (planes[i + 1] - planes[i]) / 2.0
  }

  /** Along x and y a cell belongs to the extent that holds its centre. */
  predicate HoldsCentre(e: Extent, planes: seq<real>, i: nat)
    requires i < |planes| - 1
  {
    e.lo <= Centre(planes, i) < Hi(e)
  }

  /** Along z a slab belongs to the extent that contains it. */
  predicate HoldsSlab(e: Extent, planes: seq<real>, i: nat)
    requires i < |planes| - 1
  {
    e.lo <= planes[i] && planes[i + 1] <= Hi(e)
  }

  predicate Owns(b: Box, a: Axes, x: nat, y: nat, z: nat)
    requires x < |a.x| - 1 && y < |a.y| - 1 && z < |a.z| - 1
  {
    HoldsSlab(b.z, a.z, z) && HoldsCentre(b.x, a.x, x) && HoldsCentre(b.y, a.y, y)
  }

  /** Both faces of the extent are planes, at positions `p` and `q`. */
  predicate FacesAt(e: Extent, planes: seq<real>, p: nat, q: nat) {
    p < q < |planes| && planes[p] == e.lo && planes[q] == Hi(e)
  }

  ghost predicate OnPlanes(e: Extent, planes: seq<real>) {
    exists p, q :: FacesAt(e, planes, p, q)
  }

  ghost predicate BoxOnPlanes(b: Box, a: Axes) {
    OnPlanes(b.x, a.x) && OnPlanes(b.y, a.y) && OnPlanes(b.z, a.z)
  }

  lemma CentreByIndex(e: Extent, planes: seq<real>, p: nat, q: nat, i: nat)
    requires Ascending(planes) && FacesAt(e, planes, p, q) && i < |planes| - 1
    ensures HoldsCentre(e, planes, i) <==> p <= i < q
    ensures HoldsSlab(e, planes, i) <==> p <= i < q
  {
    assert planes[i] < Centre(planes, i) < planes[i + 1];
    assert p <= i ==> planes[p] <= planes[i];
    assert i < p ==> planes[i + 1] <= planes[p];
    assert i < q ==> planes[i + 1] <= planes[q];
    assert q <= i ==> planes[q] <= planes[i];
  }

  predicate Apart(e: Extent, f: Extent) {
    Hi(e) <= f.lo || Hi(f) <= e.lo
  }

  /** The boxes share no interior point. */
  predicate Separate(b: Box, c: Box) {
    Apart(b.x, c.x) || Apart(b.y, c.y) || Apart(b.z, c.z)
  }

  predicate Interior(e: Extent, u: real) {
    e.lo < u < e.lo + e.size
  }

  ghost predicate Meet(e: Extent, f: Extent) {
    exists u :: Interior(e, u) && Interior(f, u)
  }

  /** Extents are apart exactly when they have no inner point in common. */
  lemma ApartIsDisjoint(e: Extent, f: Extent)
    requires e.size > 0.0 && f.size > 0.0
    ensures Apart(e, f) <==> !Meet(e, f)
  {
    var lo := if e.lo < f.lo then f.lo else e.lo;
    var hi := if Hi(e) < Hi(f) then Hi(e) else Hi(f);
    if lo < hi {
      assert Interior(e, (lo + hi) / 2.0) && Interior(f, (lo + hi) / 2.0);
    }
  }

  ghost predicate InteriorPoint(b: Box, u: real, v: real, w: real) {
    Interior(b.x, u) && Interior(b.y, v) && Interior(b.z, w)
  }

  /** Boxes are separate exactly when no point lies inside both. */
  lemma SeparateIsDisjoint(b: Box, c: Box)
    requires b.x.size > 0.0 && b.y.size > 0.0 && b.z.size > 0.0 && c.x.size > 0.0 && c.y.size > 0.0 && c.z.size > 0.0
    ensures Separate(b, c) <==> !exists u, v, w :: InteriorPoint(b, u, v, w) && InteriorPoint(c, u, v, w)
  {
    hide Interior, Apart;
    ApartIsDisjoint(b.x, c.x);
    ApartIsDisjoint(b.y, c.y);
    ApartIsDisjoint(b.z, c.z);
    if !Separate(b, c) {
      var u :| Interior(b.x, u) && Interior(c.x, u);
      var v :| Interior(b.y, v) && Interior(c.y, v);
      var w :| Interior(b.z, w) && Interior(c.z, w);
      assert InteriorPoint(b, u, v, w) && InteriorPoint(c, u, v, w);
    }
  }

  /** Boxes that do not overlap never own the same cell, whatever the planes. */
  lemma OneOwner(b: Box, c: Box, a: Axes, x: nat, y: nat, z: nat)
    requires AxesOk(a) && Separate(b, c) && x < |a.x| - 1 && y < |a.y| - 1 && z < |a.z| - 1
    ensures !(Owns(b, a, x, y, z) && Owns(c, a, x, y, z))
  {
    assert a.z[z] < a.z[z + 1];
  }

  // ---------------------------------------------------------------- volumes

  function Width(planes: seq<real>, i: nat): real
    requires i < |planes| - 1
  {
    planes[i + 1] - planes[i]
  }

  function CellVolume(a: Axes, x: nat, y: nat, z: nat): real
    requires x < |a.x| - 1 && y < |a.y| - 1 && z < |a.z| - 1
  {
    Width(a.x, x) * (Width(a.y, y) * Width(a.z, z))
  }

  function Product(b: Box): real {
    b.x.size * (b.y.size * b.z.size)
  }

  /** Total width of the first `n` intervals whose centre the extent holds. */
  function HeldWidth(e: Extent, planes: seq<real>, n: nat): real
    requires n <= |planes| - 1
  {
    if n == 0 then 0.0
    else HeldWidth(e, planes, n - 1) + if HoldsCentre(e, planes, n - 1) then Width(planes, n - 1) else 0.0
  }

  function HeldHeight(e: Extent, planes: seq<real>, n: nat): real
    requires n <= |planes| - 1
  {
    if n == 0 then 0.0
    else HeldHeight(e, planes, n - 1) + if HoldsSlab(e, planes, n - 1) then Width(planes, n - 1) else 0.0
  }

  /** The held intervals telescope to the size of the extent. */
  lemma {:induction false} HeldTelescopes(e: Extent, planes: seq<real>, p: nat, q: nat, n: nat)
    requires Ascending(planes) && FacesAt(e, planes, p, q) && n <= |planes| - 1
    ensures HeldWidth(e, planes, n) == HeldHeight(e, planes, n)
    ensures HeldWidth(e, planes, n) == (if n <= p then 0.0 else if n <= q then planes[n] - planes[p] else planes[q] - planes[p])
  {
    if n > 0 {
      HeldTelescopes(e, planes, p, q, n - 1);
      CentreByIndex(e, planes, p, q, n - 1);
    }
  }

  lemma HeldIsSize(e: Extent, planes: seq<real>)
    requires Ascending(planes) && OnPlanes(e, planes)
    ensures HeldWidth(e, planes, |planes| - 1) == e.size && HeldHeight(e, planes, |planes| - 1) == e.size
  {
    var p, q :| FacesAt(e, planes, p, q);
    HeldTelescopes(e, planes, p, q, |planes| - 1);
  }

  /** Owned volume of the first `n` cells of a row. */
  function RowVolume(b: Box, a: Axes, n: nat, y: nat, z: nat): real
    requires n <= |a.x| - 1 && y < |a.y| - 1 && z < |a.z| - 1
  {
    if n == 0 then 0.0
    else RowVolume(b, a, n - 1, y, z) + if Owns(b, a, n - 1, y, z) then CellVolume(a, n - 1, y, z) else 0.0
  }

  /** Owned volume of the first `n` rows of a slab. */
  function SlabVolume(b: Box, a: Axes, n: nat, z: nat): real
    requires a.x != [] && n <= |a.y| - 1 && z < |a.z| - 1
  {
    if n == 0 then 0.0 else SlabVolume(b, a, n - 1, z) + RowVolume(b, a, |a.x| - 1, n - 1, z)
  }

  /** Owned volume of the first `n` slabs. */
  function OwnedVolume(b: Box, a: Axes, n: nat): real
    requires a.x != [] && a.y != [] && n <= |a.z| - 1
  {
    if n == 0 then 0.0 else OwnedVolume(b, a, n - 1) + SlabVolume(b, a, |a.y| - 1, n - 1)
  }

  lemma Spread(w: real, v: real, k: real)
    ensures (w + v) * k == w * k + v * k
  {
  }

  lemma {:induction false} RowIsProduct(b: Box, a: Axes, n: nat, y: nat, z: nat)
    requires n <= |a.x| - 1 && y < |a.y| - 1 && z < |a.z| - 1
    ensures RowVolume(b, a, n, y, z) ==
              if HoldsSlab(b.z, a.z, z) && HoldsCentre(b.y, a.y, y)
              then HeldWidth(b.x, a.x, n) * (Width(a.y, y) * Width(a.z, z)) else 0.0
  {
    if n > 0 {
      RowIsProduct(b, a, n - 1, y, z);
      Spread(HeldWidth(b.x, a.x, n - 1), Width(a.x, n - 1), Width(a.y, y) * Width(a.z, z));
    }
  }

  lemma {:induction false} SlabIsProduct(b: Box, a: Axes, n: nat, z: nat)
    requires a.x != [] && n <= |a.y| - 1 && z < |a.z| - 1
    ensures SlabVolume(b, a, n, z) ==
              if HoldsSlab(b.z, a.z, z)
              then HeldWidth(b.x, a.x, |a.x| - 1) * (HeldWidth(b.y, a.y, n) * Width(a.z, z)) else 0.0
  {
    hide HoldsSlab, HoldsCentre, Width, RowVolume;
    if n > 0 {
      SlabIsProduct(b, a, n - 1, z);
      RowIsProduct(b, a, |a.x| - 1, n - 1, z);
      var w, d := HeldWidth(b.x, a.x, |a.x| - 1), Width(a.z, z);
      Spread(HeldWidth(b.y, a.y, n - 1), Width(a.y, n - 1), d);
      Spread2(w, HeldWidth(b.y, a.y, n - 1) * d, Width(a.y, n - 1) * d);
    }
  }

  lemma Spread2(k: real, w: real, v: real)
    ensures k * (w + v) == k * w + k * v
  {
  }

  lemma {:induction false} OwnedIsProduct(b: Box, a: Axes, n: nat)
    requires a.x != [] && a.y != [] && n <= |a.z| - 1
    ensures OwnedVolume(b, a, n) ==
              HeldWidth(b.x, a.x, |a.x| - 1) * (HeldWidth(b.y, a.y, |a.y| - 1) * HeldHeight(b.z, a.z, n))
  {
    hide HoldsSlab, HoldsCentre, Width;
    if n > 0 {
      OwnedIsProduct(b, a, n - 1);
      SlabIsProduct(b, a, |a.y| - 1, n - 1);
      var w, v := HeldWidth(b.x, a.x, |a.x| - 1), HeldWidth(b.y, a.y, |a.y| - 1);
      Spread2(v, HeldHeight(b.z, a.z, n - 1), Width(a.z, n - 1));
      Spread2(w, v * HeldHeight(b.z, a.z, n - 1), v * Width(a.z, n - 1));
    }
  }

  /** The cells of an entity partition its box, for any planes that contain its faces. */
  lemma CellsFillTheBox(b: Box, a: Axes)
    requires AxesOk(a) && BoxOnPlanes(b, a)
    ensures OwnedVolume(b, a, |a.z| - 1) == Product(b)
  {
    hide HeldWidth, HeldHeight, OnPlanes, Ascending;
    HeldIsSize(b.x, a.x);
    HeldIsSize(b.y, a.y);
    HeldIsSize(b.z, a.z);
    OwnedIsProduct(b, a, |a.z| - 1);
  }
}

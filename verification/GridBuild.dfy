/** Building the axis planes and the cells. */
module GridBuild {
  import opened Wrappers
  import opened Grid

  // ---------------------------------------------------------------- planes

  /** Put a plane into its place, once. */
  function InsertPlane(planes: seq<real>, x: real): (r: seq<real>)
    requires Ascending(planes)
    ensures Ascending(r) && forall u :: u in r <==> u in planes || u == x
  {
    if planes == [] then [x]
    else if x < planes[0] then [x] + planes
    else if x == planes[0] then planes
    else
      var rest := InsertPlane(planes[1..], x);
      assert planes == [planes[0]] + planes[1..];
      assert forall j :: 0 <= j < |rest| ==> rest[j] in rest;
      [planes[0]] + rest
  }

  /** An extent inside the package. */
  predicate Inside(e: Extent, length: real) {
    0.0 <= e.lo && 0.0 < e.size && Hi(e) <= length
  }

  lemma FacesFound(e: Extent, planes: seq<real>)
    requires Ascending(planes) && e.size > 0.0 && e.lo in planes && Hi(e) in planes
    ensures OnPlanes(e, planes)
  {
    var p :| 0 <= p < |planes| && planes[p] == e.lo;
    var q :| 0 <= q < |planes| && planes[q] == Hi(e);
    assert FacesAt(e, planes, p, q);
  }

  ghost predicate HasFaces(planes: seq<real>, e: Extent) {
    e.lo in planes && Hi(e) in planes
  }

  ghost predicate Bounded(planes: seq<real>, length: real) {
    0.0 in planes && length in planes && forall u :: u in planes ==> 0.0 <= u <= length
  }

  /** The plane is an end of the package or a face of an entity. */
  ghost predicate IsFace(u: real, length: real, entities: seq<Extent>) {
    u == 0.0 || u == length || exists i :: 0 <= i < |entities| && FaceOf(entities[i], u)
  }

  predicate FaceOf(e: Extent, u: real) {
    u == e.lo || u == Hi(e)
  }

  /** Planes through both ends of the package and both faces of every entity, and no others. */
  method EdgePlanes(length: real, entities: seq<Extent>) returns (planes: seq<real>)
    requires length > 0.0 && forall i :: 0 <= i < |entities| ==> Inside(entities[i], length)
    ensures Ascending(planes) && Bounded(planes, length) && forall i :: 0 <= i < |entities| ==> HasFaces(planes, entities[i])
    ensures forall i :: 0 <= i < |entities| ==> OnPlanes(entities[i], planes)
    ensures forall u :: u in planes ==> IsFace(u, length, entities)
  {
    hide FaceOf, Ascending, Bounded, HasFaces, IsFace, Inside, OnPlanes;
    planes := [0.0, length];
    EndPlanes(length, entities, planes);
    for n := 0 to |entities|
      invariant Ascending(planes) && Bounded(planes, length)
      invariant forall i :: 0 <= i < n ==> HasFaces(planes, entities[i])
      invariant forall u :: u in planes ==> IsFace(u, length, entities)
    {
      ghost var before := planes;
      planes := AddFaces(planes, entities[n], length);
      forall u | u in planes ensures IsFace(u, length, entities) {
        if u !in before {
          NewFace(u, length, entities, n);
        }
      }
    }
    forall i | 0 <= i < |entities| ensures OnPlanes(entities[i], planes) {
      PlacedOnPlanes(entities[i], length, planes);
    }
  }

  lemma EndPlanes(length: real, entities: seq<Extent>, planes: seq<real>)
    requires length > 0.0 && planes == [0.0, length]
    ensures Ascending(planes) && Bounded(planes, length) && forall u :: u in planes ==> IsFace(u, length, entities)
  {
  }

  lemma NewFace(u: real, length: real, entities: seq<Extent>, n: nat)
    requires n < |entities| && FaceOf(entities[n], u)
    ensures IsFace(u, length, entities)
  {
  }

  lemma PlacedOnPlanes(e: Extent, length: real, planes: seq<real>)
    requires Ascending(planes) && HasFaces(planes, e) && Inside(e, length)
    ensures OnPlanes(e, planes)
  {
    FacesFound(e, planes);
  }

  method AddFaces(planes: seq<real>, e: Extent, length: real) returns (r: seq<real>)
    requires Ascending(planes) && Bounded(planes, length) && Inside(e, length)
    ensures Ascending(r) && Bounded(r, length) && HasFaces(r, e)
    ensures forall f :: HasFaces(planes, f) ==> HasFaces(r, f)
    ensures forall u :: u in r ==> u in planes || FaceOf(e, u)
  {
    hide Ascending;
    r := InsertPlane(planes, e.lo);
    r := InsertPlane(r, Hi(e));
  }

  /** Uniform planes from end to end, if every edge plane is a multiple of the mesh; `None` is the error. */
  method UniformPlanes(length: real, entities: seq<Extent>, mesh: real) returns (planes: Option<seq<real>>)
    requires length > 0.0 && forall i :: 0 <= i < |entities| ==> Inside(entities[i], length)
    ensures planes.None? <==> mesh <= 0.0 || exists u :: IsFace(u, length, entities) && forall k: int :: !IsTimes(u, k, mesh)
    ensures planes.Some? ==> Ascending(planes.value) && planes.value != []
    ensures planes.Some? ==> forall i :: 0 <= i < |entities| ==> OnPlanes(entities[i], planes.value)
    ensures planes.Some? ==> forall i :: 0 <= i < |planes.value| ==> planes.value[i] == i as real * mesh
    ensures planes.Some? ==> planes.value[0] == 0.0 && planes.value[|planes.value| - 1] == length
  {
    hide Ascending, IsMultiple, OnPlanes, Bounded, HasFaces, Inside, IsFace, IsTimes;
    if mesh <= 0.0 {
      return None;
    }
    var edges := EdgePlanes(length, entities);
    for k := 0 to |edges|
      invariant forall j :: 0 <= j < k ==> IsMultiple(edges[j], mesh)
    {
      MultipleMeans(edges[k], mesh);
      if !IsMultiple(edges[k], mesh) {
        assert edges[k] in edges;
        return None;
      }
    }
    forall u | IsFace(u, length, entities) ensures exists k: int :: IsTimes(u, k, mesh) {
      FaceIsPlane(u, length, entities, edges);
      MultipleMeans(u, mesh);
    }
    EndIsFace(length, entities);
    var n := (length / mesh).Floor;
    NotNegative(length, mesh, edges);
    var uniform := seq(n + 1, i requires 0 <= i < n + 1 => i as real * mesh);
    UniformAscends(uniform, mesh);
    forall i | 0 <= i < |entities| ensures OnPlanes(entities[i], uniform) {
      FacesInUniform(edges, uniform, mesh, length, n, entities[i]);
    }
    return Some(uniform);
  }

  lemma FaceIsPlane(u: real, length: real, entities: seq<Extent>, planes: seq<real>)
    requires IsFace(u, length, entities) && Bounded(planes, length)
    requires forall i :: 0 <= i < |entities| ==> HasFaces(planes, entities[i])
    ensures u in planes
  {
    if u != 0.0 && u != length {
      var i :| 0 <= i < |entities| && FaceOf(entities[i], u);
      assert HasFaces(planes, entities[i]);
    }
  }

  lemma EndIsFace(length: real, entities: seq<Extent>)
    ensures IsFace(length, length, entities)
  {
  }

  lemma NotNegative(length: real, mesh: real, edges: seq<real>)
    requires length > 0.0 && mesh > 0.0 && Bounded(edges, length) && forall j :: 0 <= j < |edges| ==> IsMultiple(edges[j], mesh)
    ensures 0 <= (length / mesh).Floor && length == (length / mesh).Floor as real * mesh
  {
    var j :| 0 <= j < |edges| && edges[j] == length;
    assert IsMultiple(edges[j], mesh);
    MultipleIs(length, mesh);
    Multiplied((length / mesh).Floor, mesh);
  }

  lemma FacesInUniform(edges: seq<real>, uniform: seq<real>, mesh: real, length: real, n: int, e: Extent)
    requires mesh > 0.0 && length == n as real * mesh && Bounded(edges, length) && Inside(e, length) && HasFaces(edges, e)
    requires forall j :: 0 <= j < |edges| ==> IsMultiple(edges[j], mesh)
    requires |uniform| == n + 1 && Ascending(uniform) && forall i :: 0 <= i < |uniform| ==> uniform[i] == i as real * mesh
    ensures OnPlanes(e, uniform)
  {
    hide Ascending, IsMultiple, OnPlanes;
    var p :| 0 <= p < |edges| && edges[p] == e.lo;
    var q :| 0 <= q < |edges| && edges[q] == Hi(e);
    FaceInUniform(uniform, mesh, length, n, edges[p]);
    FaceInUniform(uniform, mesh, length, n, edges[q]);
    FacesFound(e, uniform);
  }

  predicate IsMultiple(x: real, mesh: real)
    requires mesh > 0.0
  {
    x / mesh == (x / mesh).Floor as real
  }

  ghost predicate IsTimes(x: real, k: int, mesh: real) {
    x == k as real * mesh
  }

  lemma MultipleMeans(x: real, mesh: real)
    requires mesh > 0.0
    ensures IsMultiple(x, mesh) <==> exists k: int :: IsTimes(x, k, mesh)
  {
    if IsMultiple(x, mesh) {
      MultipleIs(x, mesh);
      assert IsTimes(x, (x / mesh).Floor, mesh);
    }
    if k: int :| IsTimes(x, k, mesh) {
      WholeQuotient(k as real, mesh);
      assert x / mesh == k as real && (k as real).Floor == k;
    }
  }

  lemma WholeQuotient(y: real, mesh: real)
    requires mesh > 0.0
    ensures y * mesh / mesh == y
  {
  }

  lemma MultipleIs(x: real, mesh: real)
    requires mesh > 0.0 && IsMultiple(x, mesh)
    ensures (x / mesh).Floor as real * mesh == x
  {
  }

  /** A product with a positive factor has the sign of the other. */
  lemma Multiplied(n: int, mesh: real)
    requires mesh > 0.0
    ensures n as real * mesh >= 0.0 <==> n >= 0
    ensures n as real * mesh > 0.0 <==> n > 0
  {
  }

  lemma UniformAscends(planes: seq<real>, mesh: real)
    requires mesh > 0.0 && forall i :: 0 <= i < |planes| ==> planes[i] == i as real * mesh
    ensures Ascending(planes)
  {
    forall i, j | 0 <= i < j < |planes| ensures planes[i] < planes[j] {
      Multiplied(j - i, mesh);
      assert (j - i) as real * mesh == j as real * mesh - i as real * mesh;
    }
  }

  lemma FaceInUniform(planes: seq<real>, mesh: real, length: real, n: int, x: real)
    requires mesh > 0.0 && 0.0 <= x <= length && IsMultiple(x, mesh) && length == n as real * mesh
    requires |planes| == n + 1 && forall i :: 0 <= i < |planes| ==> planes[i] == i as real * mesh
    ensures x in planes
  {
    var k := (x / mesh).Floor;
    MultipleIs(x, mesh);
    Multiplied(k, mesh);
    Multiplied(n - k, mesh);
    assert (n - k) as real * mesh == n as real * mesh - k as real * mesh;
    assert planes[k] == x;
  }

  // ---------------------------------------------------------------- cells

  /** The cells so far, and for each entity the indices of its cells. */
  datatype Mesh = Mesh(cells: seq<Cell>, owned: seq<seq<nat>>)

  function VolumeAt(cells: seq<Cell>, i: nat): real {
    if i < |cells| then cells[i].volume else 0.0
  }

  /** Volume of the first `n` cells of a list. */
  function ListVolume(cells: seq<Cell>, list: seq<nat>, n: nat): real
    requires n <= |list|
  {
    if n == 0 then 0.0 else ListVolume(cells, list, n - 1) + VolumeAt(cells, list[n - 1])
  }

  ghost predicate ListOk(m: Mesh, c: nat)
    requires c < |m.owned|
  {
    && (forall j :: 0 <= j < |m.owned[c]| ==> m.owned[c][j] < |m.cells| && m.cells[m.owned[c][j]].owner == Some(c))
    && (forall j, k :: 0 <= j < k < |m.owned[c]| ==> m.owned[c][j] < m.owned[c][k])
    && (forall i :: 0 <= i < |m.cells| && m.cells[i].owner == Some(c) ==> i in m.owned[c])
  }

  /** Every cell is listed under its owner, once, and nowhere else. */
  ghost predicate MeshOk(m: Mesh) {
    forall c :: 0 <= c < |m.owned| ==> ListOk(m, c)
  }

  predicate CellsPositive(m: Mesh) {
    forall i :: 0 <= i < |m.cells| ==> m.cells[i].volume > 0.0
  }

  function Add(m: Mesh, cell: Cell): Mesh
    requires cell.owner.Some? ==> cell.owner.value < |m.owned|
  {
    var cells := m.cells + [cell];
    if cell.owner.None? then Mesh(cells, m.owned)
    else Mesh(cells, m.owned[cell.owner.value := m.owned[cell.owner.value] + [|m.cells|]])
  }

  lemma {:induction false} ListVolumeKept(cells: seq<Cell>, more: seq<Cell>, list: seq<nat>, n: nat)
    requires n <= |list| && cells <= more && forall j :: 0 <= j < |list| ==> list[j] < |cells|
    ensures ListVolume(more, list, n) == ListVolume(cells, list, n)
  {
    if n > 0 {
      ListVolumeKept(cells, more, list, n - 1);
    }
  }

  lemma {:induction false} ListVolumePrefix(cells: seq<Cell>, list: seq<nat>, longer: seq<nat>, n: nat)
    requires n <= |list| && list <= longer
    ensures ListVolume(cells, longer, n) == ListVolume(cells, list, n)
  {
    if n > 0 {
      ListVolumePrefix(cells, list, longer, n - 1);
    }
  }

  lemma AddKeepsList(m: Mesh, cell: Cell, c: nat)
    requires c < |m.owned| && ListOk(m, c) && (cell.owner.Some? ==> cell.owner.value < |m.owned|)
    ensures ListOk(Add(m, cell), c)
  {
    var w := Add(m, cell);
    var list, longer := m.owned[c], w.owned[c];
    assert forall i :: 0 <= i < |m.cells| ==> w.cells[i] == m.cells[i];
    if cell.owner != Some(c) {
      assert longer == list;
      forall i | 0 <= i < |w.cells| && w.cells[i].owner == Some(c) ensures i in longer {
        assert m.cells[i].owner == Some(c);
      }
    } else {
      AppendKeepsList(m, cell, c);
    }
  }

  lemma AppendKeepsList(m: Mesh, cell: Cell, c: nat)
    requires c < |m.owned| && ListOk(m, c) && cell.owner == Some(c)
    ensures ListOk(Add(m, cell), c)
  {
    var w := Add(m, cell);
    var list, longer := m.owned[c], w.owned[c];
    assert longer == list + [|m.cells|] && w.cells == m.cells + [cell];
    forall i | 0 <= i < |w.cells| && w.cells[i].owner == Some(c) ensures i in longer {
      if i < |m.cells| {
        assert m.cells[i].owner == Some(c) && i in list;
      } else {
        assert longer[|list|] == i;
      }
    }
    assert forall j :: 0 <= j < |list| ==> longer[j] == list[j];
  }

  lemma AddVolume(m: Mesh, cell: Cell, c: nat)
    requires c < |m.owned| && ListOk(m, c) && (cell.owner.Some? ==> cell.owner.value < |m.owned|)
    ensures ListVolume(Add(m, cell).cells, Add(m, cell).owned[c], |Add(m, cell).owned[c]|)
            == ListVolume(m.cells, m.owned[c], |m.owned[c]|) + if cell.owner == Some(c) then cell.volume else 0.0
  {
    var w := Add(m, cell);
    ListVolumeKept(m.cells, w.cells, m.owned[c], |m.owned[c]|);
    if cell.owner == Some(c) {
      ListVolumePrefix(w.cells, m.owned[c], w.owned[c], |m.owned[c]|);
    }
  }

  /** Volume owned by the entity among the cells visited before `(x, y, z)`. */
  function Visited(b: Box, a: Axes, x: nat, y: nat, z: nat): real
    requires AxesSizes(a) && z <= |a.z| - 1
    requires (z < |a.z| - 1 && y <= |a.y| - 1) || y == 0
    requires (z < |a.z| - 1 && y < |a.y| - 1 && x <= |a.x| - 1) || x == 0
  {
    OwnedVolume(b, a, z)
    + (if y == 0 then 0.0 else SlabVolume(b, a, y, z))
    + (if x == 0 then 0.0 else RowVolume(b, a, x, y, z))
  }

  predicate AxesSizes(a: Axes) {
    a.x != [] && a.y != [] && a.z != []
  }

  /** The loop is about to visit cell `(x, y, z)`. */
  predicate Position(a: Axes, x: nat, y: nat, z: nat) {
    && AxesSizes(a) && z <= |a.z| - 1
    && ((z < |a.z| - 1 && y <= |a.y| - 1) || y == 0)
    && ((z < |a.z| - 1 && y < |a.y| - 1 && x <= |a.x| - 1) || x == 0)
  }

  ghost predicate Built(components: seq<Box>, a: Axes, m: Mesh, x: nat, y: nat, z: nat)
    requires Position(a, x, y, z)
  {
    && |m.owned| == |components| && MeshOk(m) && CellsPositive(m)
    && forall c :: 0 <= c < |components| ==>
         ListOk(m, c) && ListVolume(m.cells, m.owned[c], |m.owned[c]|) == Visited(components[c], a, x, y, z)
  }

  /** `owner` is the one entity that owns the cell, or `None` if none does. */
  ghost predicate IsOwner(components: seq<Box>, a: Axes, x: nat, y: nat, z: nat, owner: Option<nat>)
    requires x < |a.x| - 1 && y < |a.y| - 1 && z < |a.z| - 1
  {
    && (owner.Some? ==> owner.value < |components|)
    && forall c :: 0 <= c < |components| ==> (Owns(components[c], a, x, y, z) <==> owner == Some(c))
  }

  lemma RowGrows(b: Box, a: Axes, x: nat, y: nat, z: nat)
    requires AxesSizes(a) && x < |a.x| - 1 && y < |a.y| - 1 && z < |a.z| - 1
    ensures Visited(b, a, x + 1, y, z) == Visited(b, a, x, y, z) + if Owns(b, a, x, y, z) then CellVolume(a, x, y, z) else 0.0
  {
    hide Owns, CellVolume;
    var n := x + 1;
    assert RowVolume(b, a, n, y, z) == RowVolume(b, a, x, y, z) + (if Owns(b, a, x, y, z) then CellVolume(a, x, y, z) else 0.0);
    assert x == 0 ==> RowVolume(b, a, x, y, z) == 0.0;
  }

  lemma BuiltCell(components: seq<Box>, a: Axes, m: Mesh, x: nat, y: nat, z: nat, cell: Cell)
    requires AxesSizes(a) && x < |a.x| - 1 && y < |a.y| - 1 && z < |a.z| - 1 && Built(components, a, m, x, y, z)
    requires IsOwner(components, a, x, y, z, cell.owner) && cell.volume == CellVolume(a, x, y, z) > 0.0
    ensures (cell.owner.Some? ==> cell.owner.value < |m.owned|) && Built(components, a, Add(m, cell), x + 1, y, z)
  {
    hide Owns, CellVolume, ListOk;
    var w := Add(m, cell);
    forall c | 0 <= c < |components|
      ensures ListOk(w, c) && ListVolume(w.cells, w.owned[c], |w.owned[c]|) == Visited(components[c], a, x + 1, y, z)
    {
      AddKeepsList(m, cell, c);
      AddVolume(m, cell, c);
      RowGrows(components[c], a, x, y, z);
      assert Owns(components[c], a, x, y, z) <==> cell.owner == Some(c);
    }
  }

  lemma BuiltRow(components: seq<Box>, a: Axes, m: Mesh, y: nat, z: nat)
    requires AxesSizes(a) && y < |a.y| - 1 && z < |a.z| - 1 && Built(components, a, m, |a.x| - 1, y, z)
    ensures Built(components, a, m, 0, y + 1, z)
  {
  }

  lemma BuiltSlab(components: seq<Box>, a: Axes, m: Mesh, z: nat)
    requires AxesSizes(a) && z < |a.z| - 1 && Built(components, a, m, 0, |a.y| - 1, z)
    ensures Built(components, a, m, 0, 0, z + 1)
  {
  }

  // ---------------------------------------------------------------- the cells visited

  predicate InGrid(a: Axes, x: nat, y: nat, z: nat) {
    x < |a.x| - 1 && y < |a.y| - 1 && z < |a.z| - 1
  }

  /** A cell at the position, with its volume and its owner. */
  ghost predicate HasCell(components: seq<Box>, background: Option<Box>, a: Axes, cells: seq<Cell>, x: nat, y: nat, z: nat)
    requires InGrid(a, x, y, z)
  {
    exists i :: 0 <= i < |cells| && IsCell(components, background, a, cells[i], x, y, z)
  }

  ghost predicate IsCell(components: seq<Box>, background: Option<Box>, a: Axes, cell: Cell, x: nat, y: nat, z: nat)
    requires InGrid(a, x, y, z)
  {
    && cell.x == x && cell.y == y && cell.z == z && cell.volume == CellVolume(a, x, y, z)
    && IsOwner(components, a, x, y, z, cell.owner) && (cell.owner.None? ==> InBackground(background, a, x, y, z))
  }

  /** The position comes before `(x, y, z)` in the order of the loops. */
  predicate Earlier(px: nat, py: nat, pz: nat, x: nat, y: nat, z: nat) {
    pz < z || (pz == z && (py < y || (py == y && px < x)))
  }

  /** Exactly the positions before `(x, y, z)` have a cell, and the cells come in the order of the loops. */
  ghost predicate Covered(components: seq<Box>, background: Option<Box>, a: Axes, cells: seq<Cell>, x: nat, y: nat, z: nat) {
    && (forall px, py, pz :: InGrid(a, px, py, pz) && Earlier(px, py, pz, x, y, z) ==>
          HasCell(components, background, a, cells, px, py, pz))
    && OnlyBefore(a, cells, x, y, z)
  }

  ghost predicate OnlyBefore(a: Axes, cells: seq<Cell>, x: nat, y: nat, z: nat) {
    && InLoopOrder(cells)
    && forall i :: 0 <= i < |cells| ==>
         InGrid(a, cells[i].x, cells[i].y, cells[i].z) && Earlier(cells[i].x, cells[i].y, cells[i].z, x, y, z)
  }

  lemma OneMoreInOrder(a: Axes, cells: seq<Cell>, x: nat, y: nat, z: nat, cell: Cell)
    requires InGrid(a, x, y, z) && OnlyBefore(a, cells, x, y, z) && cell.x == x && cell.y == y && cell.z == z
    ensures OnlyBefore(a, cells + [cell], x + 1, y, z)
  {
    var more := cells + [cell];
    forall i, j | 0 <= i < j < |more|
      ensures Earlier(more[i].x, more[i].y, more[i].z, more[j].x, more[j].y, more[j].z)
    {
      assert more[i] == cells[i];
      assert j < |cells| ==> more[j] == cells[j];
    }
  }

  ghost predicate InLoopOrder(cells: seq<Cell>) {
    forall i, j :: 0 <= i < j < |cells| ==> Earlier(cells[i].x, cells[i].y, cells[i].z, cells[j].x, cells[j].y, cells[j].z)
  }

  lemma CoveredCell(components: seq<Box>, background: Option<Box>, a: Axes, cells: seq<Cell>, x: nat, y: nat, z: nat, cell: Cell)
    requires InGrid(a, x, y, z) && Covered(components, background, a, cells, x, y, z) && IsCell(components, background, a, cell, x, y, z)
    ensures Covered(components, background, a, cells + [cell], x + 1, y, z)
  {
    OneMoreInOrder(a, cells, x, y, z, cell);
    hide IsCell, OnlyBefore;
    var more := cells + [cell];
    forall px, py, pz | InGrid(a, px, py, pz) && Earlier(px, py, pz, x + 1, y, z)
      ensures HasCell(components, background, a, more, px, py, pz)
    {
      if Earlier(px, py, pz, x, y, z) {
        var i :| 0 <= i < |cells| && IsCell(components, background, a, cells[i], px, py, pz);
        assert more[i] == cells[i];
      } else {
        assert more[|cells|] == cell;
      }
    }
  }

  lemma CoveredRow(components: seq<Box>, background: Option<Box>, a: Axes, cells: seq<Cell>, y: nat, z: nat)
    requires AxesSizes(a) && Covered(components, background, a, cells, |a.x| - 1, y, z)
    ensures Covered(components, background, a, cells, 0, y + 1, z)
  {
    forall px, py, pz | InGrid(a, px, py, pz) && Earlier(px, py, pz, 0, y + 1, z)
      ensures HasCell(components, background, a, cells, px, py, pz)
    {
      assert Earlier(px, py, pz, |a.x| - 1, y, z);
    }
  }

  lemma CoveredSlab(components: seq<Box>, background: Option<Box>, a: Axes, cells: seq<Cell>, z: nat)
    requires AxesSizes(a) && Covered(components, background, a, cells, 0, |a.y| - 1, z)
    ensures Covered(components, background, a, cells, 0, 0, z + 1)
  {
    forall px, py, pz | InGrid(a, px, py, pz) && Earlier(px, py, pz, 0, 0, z + 1)
      ensures HasCell(components, background, a, cells, px, py, pz)
    {
      assert Earlier(px, py, pz, 0, |a.y| - 1, z);
    }
  }

  lemma CoveredAll(components: seq<Box>, background: Option<Box>, a: Axes, cells: seq<Cell>)
    requires AxesSizes(a) && Covered(components, background, a, cells, 0, 0, |a.z| - 1)
    ensures forall x, y, z :: InGrid(a, x, y, z) ==> HasCell(components, background, a, cells, x, y, z)
    ensures InLoopOrder(cells) && forall i :: 0 <= i < |cells| ==> InGrid(a, cells[i].x, cells[i].y, cells[i].z)
  {
    forall x, y, z | InGrid(a, x, y, z) ensures HasCell(components, background, a, cells, x, y, z) {
      assert Earlier(x, y, z, 0, 0, |a.z| - 1);
    }
  }

  // ---------------------------------------------------------------- the loops

  datatype Outcome = TooLarge | Overlapping | Unfilled | VolumeLost | Discretized(mesh: Mesh)

  ghost predicate PairwiseSeparate(components: seq<Box>) {
    forall i, j :: 0 <= i < j < |components| ==> Separate(components[i], components[j])
  }

  /** Entities whose box contains the slab and the cell's centre. */
  method Owners(components: seq<Box>, a: Axes, x: nat, y: nat, z: nat) returns (owners: seq<nat>)
    requires x < |a.x| - 1 && y < |a.y| - 1 && z < |a.z| - 1
    ensures forall c :: c in owners <==> 0 <= c < |components| && Owns(components[c], a, x, y, z)
    ensures forall i, j :: 0 <= i < j < |owners| ==> owners[i] < owners[j]
  {
    owners := [];
    for c := 0 to |components|
      invariant forall k :: k in owners <==> 0 <= k < c && Owns(components[k], a, x, y, z)
      invariant forall i, j :: 0 <= i < j < |owners| ==> owners[i] < owners[j]
      invariant forall i :: 0 <= i < |owners| ==> owners[i] < c
    {
      if Owns(components[c], a, x, y, z) {
        owners := owners + [c];
      }
    }
  }

  predicate InBackground(background: Option<Box>, a: Axes, x: nat, y: nat, z: nat)
    requires x < |a.x| - 1 && y < |a.y| - 1 && z < |a.z| - 1
  {
    background.Some? && var b := background.value;
    && b.x.lo <= Centre(a.x, x) <= Hi(b.x) && b.y.lo <= Centre(a.y, y) <= Hi(b.y) && b.z.lo <= Centre(a.z, z) <= Hi(b.z)
  }

  /** The owner of one cell; an error if there is more than one, or none and no background. */
  method OwnerOf(components: seq<Box>, background: Option<Box>, a: Axes, x: nat, y: nat, z: nat)
    returns (owner: Option<nat>, overlap: bool, gap: bool)
    requires AxesOk(a) && x < |a.x| - 1 && y < |a.y| - 1 && z < |a.z| - 1
    ensures overlap <==> TwoOwners(components, a, x, y, z)
    ensures PairwiseSeparate(components) ==> !overlap
    ensures !overlap && !gap ==> IsOwner(components, a, x, y, z, owner) && (owner.None? ==> InBackground(background, a, x, y, z))
    ensures !overlap ==> (gap <==> IsGap(components, background, a, x, y, z))
  {
    var owners := Owners(components, a, x, y, z);
    overlap := |owners| > 1;
    if overlap {
      assert owners[0] in owners && owners[1] in owners;
      TwoOwnersOverlap(components, a, x, y, z, owners[0], owners[1]);
      return None, true, false;
    }
    owner := if owners != [] then Some(owners[0]) else None;
    gap := owner.None? && !InBackground(background, a, x, y, z);
    if owners != [] {
      assert owners[0] in owners;
    }
  }

  ghost predicate TwoOwners(components: seq<Box>, a: Axes, x: nat, y: nat, z: nat)
    requires x < |a.x| - 1 && y < |a.y| - 1 && z < |a.z| - 1
  {
    exists i, j :: 0 <= i < j < |components| && Owns(components[i], a, x, y, z) && Owns(components[j], a, x, y, z)
  }

  /** No entity and no background fills the cell. */
  ghost predicate IsGap(components: seq<Box>, background: Option<Box>, a: Axes, x: nat, y: nat, z: nat)
    requires x < |a.x| - 1 && y < |a.y| - 1 && z < |a.z| - 1
  {
    !InBackground(background, a, x, y, z) && forall c :: 0 <= c < |components| ==> !Owns(components[c], a, x, y, z)
  }

  // ---------------------------------------------------------------- the same on coordinates

  /** The cell lies inside the box. */
  ghost predicate Contains(b: Box, a: Axes, x: nat, y: nat, z: nat)
    requires InGrid(a, x, y, z)
  {
    && b.x.lo <= a.x[x] && a.x[x + 1] <= b.x.lo + b.x.size && b.y.lo <= a.y[y] && a.y[y + 1] <= b.y.lo + b.y.size
    && b.z.lo <= a.z[z] && a.z[z + 1] <= b.z.lo + b.z.size
  }

  /** The middle of the cell lies in the box or on its surface. */
  ghost predicate HasMiddle(b: Box, a: Axes, x: nat, y: nat, z: nat)
    requires InGrid(a, x, y, z)
  {
    && b.x.lo <= (a.x[x] + a.x[x + 1]) / 2.0 <= b.x.lo + b.x.size && b.y.lo <= (a.y[y] + a.y[y + 1]) / 2.0 <= b.y.lo + b.y.size
    && b.z.lo <= (a.z[z] + a.z[z + 1]) / 2.0 <= b.z.lo + b.z.size
  }

  /** One entity contains the cell, or none does and its middle is in the background. */
  ghost predicate Filled(components: seq<Box>, background: Option<Box>, a: Axes, x: nat, y: nat, z: nat)
    requires InGrid(a, x, y, z)
  {
    && (forall i, j :: 0 <= i < j < |components| ==> !(Contains(components[i], a, x, y, z) && Contains(components[j], a, x, y, z)))
    && ((exists i :: 0 <= i < |components| && Contains(components[i], a, x, y, z))
        || (background.Some? && HasMiddle(background.value, a, x, y, z)))
  }

  lemma OwnsIsContains(b: Box, a: Axes, x: nat, y: nat, z: nat)
    requires AxesOk(a) && BoxOnPlanes(b, a) && InGrid(a, x, y, z)
    ensures Owns(b, a, x, y, z) <==> Contains(b, a, x, y, z)
  {
    var p, q :| FacesAt(b.x, a.x, p, q);
    var r, s :| FacesAt(b.y, a.y, r, s);
    hide FacesAt, OnPlanes;
    CentreByIndex(b.x, a.x, p, q, x);
    CentreByIndex(b.y, a.y, r, s, y);
  }

  lemma FilledMeans(components: seq<Box>, background: Option<Box>, a: Axes, x: nat, y: nat, z: nat)
    requires AxesOk(a) && InGrid(a, x, y, z) && forall c :: 0 <= c < |components| ==> BoxOnPlanes(components[c], a)
    ensures Filled(components, background, a, x, y, z)
            <==> !TwoOwners(components, a, x, y, z) && !IsGap(components, background, a, x, y, z)
  {
    hide Owns, Contains, AxesOk, BoxOnPlanes, HasMiddle, InBackground;
    forall c | 0 <= c < |components| ensures Owns(components[c], a, x, y, z) <==> Contains(components[c], a, x, y, z) {
      OwnsIsContains(components[c], a, x, y, z);
    }
    MiddleIsCentre(background, a, x, y, z);
    if exists i :: 0 <= i < |components| && Contains(components[i], a, x, y, z) {
      var i :| 0 <= i < |components| && Contains(components[i], a, x, y, z);
      assert Owns(components[i], a, x, y, z);
    }
  }

  lemma MiddleIsCentre(background: Option<Box>, a: Axes, x: nat, y: nat, z: nat)
    requires InGrid(a, x, y, z)
    ensures InBackground(background, a, x, y, z) <==> background.Some? && HasMiddle(background.value, a, x, y, z)
  {
    assert Centre(a.x, x) == (a.x[x] + a.x[x + 1]) / 2.0;
    assert Centre(a.y, y) == (a.y[y] + a.y[y + 1]) / 2.0;
    assert Centre(a.z, z) == (a.z[z] + a.z[z + 1]) / 2.0;
  }

  lemma AllFilled(components: seq<Box>, background: Option<Box>, a: Axes, cells: seq<Cell>)
    requires AxesOk(a) && forall c :: 0 <= c < |components| ==> BoxOnPlanes(components[c], a)
    requires forall x, y, z :: InGrid(a, x, y, z) ==> HasCell(components, background, a, cells, x, y, z)
    ensures forall x, y, z :: InGrid(a, x, y, z) ==> Filled(components, background, a, x, y, z)
  {
    hide AxesOk, BoxOnPlanes, Filled, Owns, InBackground;
    forall x, y, z | InGrid(a, x, y, z) ensures Filled(components, background, a, x, y, z) {
      assert HasCell(components, background, a, cells, x, y, z);
      var i :| 0 <= i < |cells| && IsCell(components, background, a, cells[i], x, y, z);
      FilledMeans(components, background, a, x, y, z);
      assert cells[i].owner.Some? ==> Owns(components[cells[i].owner.value], a, x, y, z);
    }
  }

  lemma TwoOwnersOverlap(components: seq<Box>, a: Axes, x: nat, y: nat, z: nat, i: nat, j: nat)
    requires AxesOk(a) && x < |a.x| - 1 && y < |a.y| - 1 && z < |a.z| - 1 && i < j < |components|
    requires Owns(components[i], a, x, y, z) && Owns(components[j], a, x, y, z)
    ensures !PairwiseSeparate(components)
  {
    hide Owns, Separate;
    if Separate(components[i], components[j]) {
      OneOwner(components[i], components[j], a, x, y, z);
    }
  }

  /**
   Cut the package into cells.  Entities that do not overlap are never reported as overlapping, and if
   their faces are planes the volume check cannot fail: each entity's cells fill its box.
   */
  method Discretize(components: seq<Box>, background: Option<Box>, a: Axes) returns (r: Outcome)
    requires AxesOk(a) && forall c :: 0 <= c < |components| ==> BoxOnPlanes(components[c], a)
    ensures r.TooLarge? <==> (|a.x| - 1) * (|a.y| - 1) * (|a.z| - 1) > 400000
    ensures PairwiseSeparate(components) ==> !r.Overlapping?
    ensures r.Discretized? <==> !r.TooLarge? && forall x, y, z :: InGrid(a, x, y, z) ==> Filled(components, background, a, x, y, z)
    ensures r.Overlapping? ==> exists x, y, z :: InGrid(a, x, y, z) && TwoOwners(components, a, x, y, z)
    ensures r.Unfilled? ==> exists x, y, z :: InGrid(a, x, y, z) && IsGap(components, background, a, x, y, z)
    ensures !r.VolumeLost?
    ensures r.Discretized? ==> forall x, y, z :: InGrid(a, x, y, z) ==> HasCell(components, background, a, r.mesh.cells, x, y, z)
    ensures r.Discretized? ==> InLoopOrder(r.mesh.cells)
    ensures r.Discretized? ==> forall i :: 0 <= i < |r.mesh.cells| ==> InGrid(a, r.mesh.cells[i].x, r.mesh.cells[i].y, r.mesh.cells[i].z)
    ensures r.Discretized? ==> |r.mesh.owned| == |components| && MeshOk(r.mesh) && CellsPositive(r.mesh)
    ensures r.Discretized? ==> forall c :: 0 <= c < |components| ==>
              ListOk(r.mesh, c) && ListVolume(r.mesh.cells, r.mesh.owned[c], |r.mesh.owned[c]|) == Product(components[c])
  {
    hide ListOk, MeshOk, AxesOk, BoxOnPlanes, Owns, Covered, IsOwner, InBackground, Built, TwoOwners, IsGap, Filled, InLoopOrder;
    if (|a.x| - 1) * (|a.y| - 1) * (|a.z| - 1) > 400000 {
      return TooLarge;
    }
    var m := Mesh([], seq(|components|, _ => []));
    StartBuilt(components, background, a, m);
    AxesSized(a);
    for z := 0 to |a.z| - 1
      invariant Built(components, a, m, 0, 0, z) && Covered(components, background, a, m.cells, 0, 0, z)
    {
      for y := 0 to |a.y| - 1
        invariant Built(components, a, m, 0, y, z) && Covered(components, background, a, m.cells, 0, y, z)
      {
        for x := 0 to |a.x| - 1
          invariant Built(components, a, m, x, y, z) && Covered(components, background, a, m.cells, x, y, z)
        {
          var owner, overlap, gap := OwnerOf(components, background, a, x, y, z);
          if overlap {
            assert InGrid(a, x, y, z) && !Filled(components, background, a, x, y, z) by {
              FilledMeans(components, background, a, x, y, z);
            }
            return Overlapping;
          }
          if gap {
            assert InGrid(a, x, y, z) && !Filled(components, background, a, x, y, z) by {
              FilledMeans(components, background, a, x, y, z);
            }
            return Unfilled;
          }
          var cell := Cell(x, y, z, owner, CellVolume(a, x, y, z));
          VolumeIsPositive(a, x, y, z);
          BuiltCell(components, a, m, x, y, z, cell);
          CoveredCell(components, background, a, m.cells, x, y, z, cell);
          m := Add(m, cell);
        }
        BuiltRow(components, a, m, y, z);
        CoveredRow(components, background, a, m.cells, y, z);
      }
      BuiltSlab(components, a, m, z);
      CoveredSlab(components, background, a, m.cells, z);
    }
    CoveredAll(components, background, a, m.cells);
    AllFilled(components, background, a, m.cells);
    BuiltFacts(components, a, m);
    for c := 0 to |components|
      invariant forall k :: 0 <= k < c ==> ListVolume(m.cells, m.owned[k], |m.owned[k]|) == Product(components[k])
    {
      CellsFillTheBox(components[c], a);
      var volume := VolumeOf(m.cells, m.owned[c]);
      if volume != Product(components[c]) {
        assert false;
      }
    }
    r := Discretized(m);
  }

  lemma VolumeIsPositive(a: Axes, x: nat, y: nat, z: nat)
    requires AxesOk(a) && x < |a.x| - 1 && y < |a.y| - 1 && z < |a.z| - 1
    ensures CellVolume(a, x, y, z) > 0.0
  {
    var w, v, u := Width(a.x, x), Width(a.y, y), Width(a.z, z);
    assert w > 0.0 && v > 0.0 && u > 0.0;
    assert v * u > 0.0;
  }

  lemma AxesSized(a: Axes)
    requires AxesOk(a)
    ensures AxesSizes(a)
  {
  }

  lemma StartBuilt(components: seq<Box>, background: Option<Box>, a: Axes, m: Mesh)
    requires AxesOk(a) && m == Mesh([], seq(|components|, _ => []))
    ensures AxesSizes(a) && Built(components, a, m, 0, 0, 0) && Covered(components, background, a, m.cells, 0, 0, 0)
  {
  }

  lemma BuiltFacts(components: seq<Box>, a: Axes, m: Mesh)
    requires AxesSizes(a) && Built(components, a, m, 0, 0, |a.z| - 1)
    ensures |m.owned| == |components| && MeshOk(m) && CellsPositive(m)
    ensures forall c :: 0 <= c < |components| ==>
              ListOk(m, c) && ListVolume(m.cells, m.owned[c], |m.owned[c]|) == OwnedVolume(components[c], a, |a.z| - 1)
  {
    hide ListOk, MeshOk;
  }

  method VolumeOf(cells: seq<Cell>, list: seq<nat>) returns (v: real)
    ensures v == ListVolume(cells, list, |list|)
  {
    v := 0.0;
    for j := 0 to |list|
      invariant v == ListVolume(cells, list, j)
    {
      v := v + VolumeAt(cells, list[j]);
    }
  }
}

/**
 The thermal RC network over exact reals: its matrices as the runner assembles
 them, the implicit-Euler step they define, and the comparison principle and energy
 balance that follow from their shape (a graph Laplacian plus a diagonal).
 */
module RcNetwork {
  type Vec = seq<real>

  datatype Node = Node(capacity: real, initial: real, staticPower: real, boundaryG: real, boundaryT: real)
  datatype Edge = Edge(a: nat, b: nat, g: real, interComponent: bool)
  datatype Network = Network(nodes: seq<Node>, edges: seq<Edge>, interComponentEnabled: bool)

  predicate NodeOk(node: Node) {
    node.capacity > 0.0 && node.initial > 0.0 && node.staticPower >= 0.0 && node.boundaryG >= 0.0 && node.boundaryT > 0.0
  }

  predicate EdgeOk(e: Edge, n: nat) {
    e.a < n && e.b < n && e.a != e.b && e.g > 0.0
  }

  /** What reading a model file guarantees. */
  ghost predicate ValidNetwork(m: Network) {
    && m.nodes != []
    && (forall i :: 0 <= i < |m.nodes| ==> NodeOk(m.nodes[i]))
    && (forall i :: 0 <= i < |m.edges| ==> EdgeOk(m.edges[i], |m.nodes|))
  }

  predicate IsActive(m: Network, e: Edge) {
    m.interComponentEnabled || !e.interComponent
  }

  /** A product under a name, so that linear steps of a proof can treat it as a value. */
  function Times(a: real, b: real): real {
    a * b
  }

  lemma TimesMinus(g: real, p: real, q: real)
    ensures Times(g, p - q) == Times(g, p) - Times(g, q)
  {
  }

  lemma TimesPlus(g: real, h: real, p: real)
    ensures Times(g + h, p) == Times(g, p) + Times(h, p)
  {
  }

  lemma TimesNegative(g: real, p: real)
    ensures Times(-g, p) == -Times(g, p)
  {
  }

  lemma TimesSign(g: real, d: real)
    requires g >= 0.0
    ensures d <= 0.0 ==> Times(g, d) <= 0.0
    ensures d >= 0.0 ==> Times(g, d) >= 0.0
  {
  }

  lemma TimesFactor(a: real, d: real)
    requires a > 0.0 && Times(a, d) >= 0.0
    ensures d >= 0.0
  {
  }

  // ---------------------------------------------------------------- matrices as lists of triplets

  datatype Triplet = Triplet(row: nat, col: nat, value: real)

  ghost predicate Square(entries: seq<Triplet>, n: nat) {
    forall i :: 0 <= i < |entries| ==> entries[i].row < n && entries[i].col < n
  }

  /** Row `r` of the matrix times `x`; triplets at the same place add up. */
  function Row(entries: seq<Triplet>, x: Vec, r: nat): real
    requires Square(entries, |x|)
  {
    if entries == [] then 0.0
    else
      var t := entries[|entries| - 1];
      Row(entries[..|entries| - 1], x, r) + if t.row == r then Times(t.value, x[t.col]) else 0.0
  }

  ghost predicate Solves(entries: seq<Triplet>, x: Vec, rhs: Vec) {
    |x| == |rhs| && Square(entries, |x|) && forall r :: 0 <= r < |x| ==> Row(entries, x, r) == rhs[r]
  }

  /** Heat that edge `e` carries out of node `r`. */
  function EdgeFlow(m: Network, e: Edge, x: Vec, r: nat): real
    requires e.a < |x| && e.b < |x|
  {
    if !IsActive(m, e) then 0.0
    else (if e.a == r then Times(e.g, x[e.a] - x[e.b]) else 0.0) + (if e.b == r then Times(e.g, x[e.b] - x[e.a]) else 0.0)
  }

  /** Heat the first `k` edges carry out of node `r`. */
  function Flow(m: Network, k: nat, x: Vec, r: nat): real
    requires k <= |m.edges| && forall i :: 0 <= i < k ==> m.edges[i].a < |x| && m.edges[i].b < |x|
  {
    if k == 0 then 0.0 else Flow(m, k - 1, x, r) + EdgeFlow(m, m.edges[k - 1], x, r)
  }

  ghost predicate Fits(m: Network, x: Vec) {
    |x| == |m.nodes| && forall i :: 0 <= i < |m.edges| ==> m.edges[i].a < |x| && m.edges[i].b < |x|
  }

  /** The assembled operator: a diagonal plus the flow along all active edges. */
  function Operator(m: Network, diagonal: Vec, x: Vec, r: nat): real
    requires Fits(m, x) && |diagonal| == |x| && r < |x|
  {
    Times(diagonal[r], x[r]) + Flow(m, |m.edges|, x, r)
  }

  function SystemDiagonal(m: Network, step: real): Vec
    requires step > 0.0
  {
    seq(|m.nodes|, i requires 0 <= i < |m.nodes| => m.nodes[i].capacity / step + m.nodes[i].boundaryG)
  }

  function SteadyDiagonal(m: Network): Vec {
    seq(|m.nodes|, i requires 0 <= i < |m.nodes| => m.nodes[i].boundaryG)
  }

  /** Entries as pushed: the diagonal first, then four per active edge. */
  function DiagonalEntries(diagonal: Vec, k: nat): seq<Triplet>
    requires k <= |diagonal|
  {
    if k == 0 then [] else DiagonalEntries(diagonal, k - 1) + [Triplet(k - 1, k - 1, diagonal[k - 1])]
  }

  function FourEntries(e: Edge): seq<Triplet> {
    [Triplet(e.a, e.a, e.g), Triplet(e.b, e.b, e.g), Triplet(e.a, e.b, -e.g), Triplet(e.b, e.a, -e.g)]
  }

  function MatrixEntries(m: Network, diagonal: Vec, k: nat): seq<Triplet>
    requires k <= |m.edges|
  {
    if k == 0 then DiagonalEntries(diagonal, |diagonal|)
    else MatrixEntries(m, diagonal, k - 1) + if IsActive(m, m.edges[k - 1]) then FourEntries(m.edges[k - 1]) else []
  }

  lemma RowOfOne(entries: seq<Triplet>, t: Triplet, x: Vec, r: nat)
    requires Square(entries, |x|) && t.row < |x| && t.col < |x|
    ensures Square(entries + [t], |x|)
    ensures Row(entries + [t], x, r) == Row(entries, x, r) + if t.row == r then Times(t.value, x[t.col]) else 0.0
  {
    hide Times;
    assert (entries + [t])[..|entries|] == entries;
  }

  lemma RowOfFour(entries: seq<Triplet>, e: Edge, x: Vec, r: nat)
    requires Square(entries, |x|) && e.a < |x| && e.b < |x|
    ensures Square(entries + FourEntries(e), |x|)
    ensures Row(entries + FourEntries(e), x, r) == Row(entries, x, r)
            + (if e.a == r then Times(e.g, x[e.a] - x[e.b]) else 0.0) + (if e.b == r then Times(e.g, x[e.b] - x[e.a]) else 0.0)
  {
    hide Times, Row, Square;
    var f := FourEntries(e);
    TimesMinus(e.g, x[e.a], x[e.b]);
    TimesMinus(e.g, x[e.b], x[e.a]);
    TimesNegative(e.g, x[e.a]);
    TimesNegative(e.g, x[e.b]);
    RowOfOne(entries, f[0], x, r);
    RowOfOne(entries + [f[0]], f[1], x, r);
    RowOfOne(entries + [f[0]] + [f[1]], f[2], x, r);
    RowOfOne(entries + [f[0]] + [f[1]] + [f[2]], f[3], x, r);
    assert entries + f == entries + [f[0]] + [f[1]] + [f[2]] + [f[3]];
  }

  lemma {:induction false} RowOfDiagonal(diagonal: Vec, k: nat, x: Vec, r: nat)
    requires k <= |diagonal| == |x|
    ensures Square(DiagonalEntries(diagonal, k), |x|)
    ensures Row(DiagonalEntries(diagonal, k), x, r) == if r < k then Times(diagonal[r], x[r]) else 0.0
  {
    hide Times;
    if k > 0 {
      RowOfDiagonal(diagonal, k - 1, x, r);
      RowOfOne(DiagonalEntries(diagonal, k - 1), Triplet(k - 1, k - 1, diagonal[k - 1]), x, r);
    }
  }

  /** The assembled triplets are the diagonal plus the Laplacian of the active edges. */
  lemma {:induction false} RowOfMatrix(m: Network, diagonal: Vec, k: nat, x: Vec, r: nat)
    requires Fits(m, x) && |diagonal| == |x| && k <= |m.edges| && r < |x|
    ensures Square(MatrixEntries(m, diagonal, k), |x|)
    ensures Row(MatrixEntries(m, diagonal, k), x, r) == Times(diagonal[r], x[r]) + Flow(m, k, x, r)
  {
    hide Times;
    if k == 0 {
      RowOfDiagonal(diagonal, |diagonal|, x, r);
    } else {
      RowOfMatrix(m, diagonal, k - 1, x, r);
      if IsActive(m, m.edges[k - 1]) {
        RowOfFour(MatrixEntries(m, diagonal, k - 1), m.edges[k - 1], x, r);
      } else {
        assert MatrixEntries(m, diagonal, k) == MatrixEntries(m, diagonal, k - 1);
      }
    }
  }

  // ---------------------------------------------------------------- the same on the fields of the network

  /**
   Heat that the first `k` edges carry out of node `r`: the conductance times the temperature difference for every
   edge at the node, and nothing for an edge between components while coupling is off.
   */
  function HeatOut(m: Network, k: nat, x: Vec, r: nat): real
    requires k <= |m.edges| && r < |x| && forall i :: 0 <= i < k ==> m.edges[i].a < |x| && m.edges[i].b < |x|
  {
    if k == 0 then 0.0
    else
      var e := m.edges[k - 1];
      var rest := HeatOut(m, k - 1, x, r);
      if e.interComponent && !m.interComponentEnabled then rest
      else if e.a == r then rest + e.g * (x[r] - x[e.b])
      else if e.b == r then rest + e.g * (x[r] - x[e.a])
      else rest
  }

  lemma {:induction false} FlowIsHeatOut(m: Network, k: nat, x: Vec, r: nat)
    requires ValidNetwork(m) && Fits(m, x) && k <= |m.edges| && r < |x|
    ensures Flow(m, k, x, r) == HeatOut(m, k, x, r)
  {
    if k > 0 {
      FlowIsHeatOut(m, k - 1, x, r);
      assert EdgeOk(m.edges[k - 1], |x|);
    }
  }

  /** A row of the assembled matrix is its diagonal term plus the heat that leaves the node. */
  lemma RowOnFields(m: Network, diagonal: Vec, x: Vec, r: nat)
    requires ValidNetwork(m) && |x| == |m.nodes| == |diagonal| && r < |x|
    ensures Fits(m, x) && Square(MatrixEntries(m, diagonal, |m.edges|), |x|)
    ensures Row(MatrixEntries(m, diagonal, |m.edges|), x, r) == diagonal[r] * x[r] + HeatOut(m, |m.edges|, x, r)
  {
    assert forall i :: 0 <= i < |m.edges| ==> EdgeOk(m.edges[i], |m.nodes|);
    RowOfMatrix(m, diagonal, |m.edges|, x, r);
    FlowIsHeatOut(m, |m.edges|, x, r);
  }

  // ---------------------------------------------------------------- comparison principle

  /** No heat flows out of a coldest node. */
  lemma {:induction false} FlowAtMinimum(m: Network, k: nat, x: Vec, r: nat)
    requires ValidNetwork(m) && Fits(m, x) && k <= |m.edges| && r < |x|
    requires forall i :: 0 <= i < |x| ==> x[r] <= x[i]
    ensures Flow(m, k, x, r) <= 0.0
  {
    hide Times;
    if k > 0 {
      FlowAtMinimum(m, k - 1, x, r);
      var e := m.edges[k - 1];
      assert EdgeOk(e, |x|);
      if e.a == r {
        TimesSign(e.g, x[r] - x[e.b]);
      } else if e.b == r {
        TimesSign(e.g, x[r] - x[e.a]);
      }
    }
  }

  function Minus(x: Vec, y: Vec): (d: Vec)
    requires |x| == |y|
    ensures |d| == |x| && forall i :: 0 <= i < |x| ==> d[i] == x[i] - y[i]
  {
    seq(|x|, i requires 0 <= i < |x| => x[i] - y[i])
  }

  lemma {:induction false} FlowOfDifference(m: Network, k: nat, x: Vec, y: Vec, r: nat)
    requires Fits(m, x) && Fits(m, y) && k <= |m.edges|
    ensures Fits(m, Minus(x, y)) && Flow(m, k, Minus(x, y), r) == Flow(m, k, x, r) - Flow(m, k, y, r)
  {
    hide Times;
    if k > 0 {
      FlowOfDifference(m, k - 1, x, y, r);
      var e := m.edges[k - 1];
      var d := Minus(x, y);
      assert d[e.a] - d[e.b] == (x[e.a] - x[e.b]) - (y[e.a] - y[e.b]);
      TimesMinus(e.g, x[e.a] - x[e.b], y[e.a] - y[e.b]);
      TimesMinus(e.g, x[e.b] - x[e.a], y[e.b] - y[e.a]);
    }
  }

  function ArgMin(x: Vec, k: nat): (r: nat)
    requires 1 <= k <= |x|
    ensures r < k && forall i :: 0 <= i < k ==> x[r] <= x[i]
  {
    if k == 1 then 0
    else
      var r := ArgMin(x, k - 1);
      if x[k - 1] < x[r] then k - 1 else r
  }

  ghost predicate Below(x: Vec, y: Vec) {
    |x| == |y| && forall i :: 0 <= i < |x| ==> x[i] <= y[i]
  }

  ghost predicate OperatorBelow(m: Network, diagonal: Vec, x: Vec, y: Vec)
    requires Fits(m, x) && Fits(m, y) && |diagonal| == |x|
  {
    forall r :: 0 <= r < |x| ==> Operator(m, diagonal, x, r) <= Operator(m, diagonal, y, r)
  }

  /** Comparison principle: with a positive diagonal, more heat input means nowhere a lower temperature. */
  lemma Comparison(m: Network, diagonal: Vec, x: Vec, y: Vec)
    requires ValidNetwork(m) && Fits(m, x) && Fits(m, y) && |diagonal| == |x|
    requires forall r :: 0 <= r < |diagonal| ==> diagonal[r] > 0.0
    requires OperatorBelow(m, diagonal, x, y)
    ensures Below(x, y)
  {
    hide Times;
    var d := Minus(y, x);
    var r := ArgMin(d, |d|);
    FlowOfDifference(m, |m.edges|, y, x, r);
    FlowAtMinimum(m, |m.edges|, d, r);
    assert Operator(m, diagonal, x, r) <= Operator(m, diagonal, y, r);
    TimesMinus(diagonal[r], y[r], x[r]);
    assert Times(diagonal[r], d[r]) >= 0.0;
    TimesFactor(diagonal[r], d[r]);
  }

  // ---------------------------------------------------------------- heat is neither made nor lost on edges

  function FlowTotal(m: Network, k: nat, x: Vec, n: nat): real
    requires Fits(m, x) && k <= |m.edges|
  {
    if n == 0 then 0.0 else FlowTotal(m, k, x, n - 1) + Flow(m, k, x, n - 1)
  }

  function EdgeTotal(m: Network, e: Edge, x: Vec, n: nat): real
    requires e.a < |x| && e.b < |x|
  {
    if n == 0 then 0.0 else EdgeTotal(m, e, x, n - 1) + EdgeFlow(m, e, x, n - 1)
  }

  lemma {:induction false} EdgeTotalIs(m: Network, e: Edge, x: Vec, n: nat)
    requires e.a < |x| && e.b < |x|
    ensures EdgeTotal(m, e, x, n) == if !IsActive(m, e) then 0.0 else
      (if e.a < n then Times(e.g, x[e.a] - x[e.b]) else 0.0) + (if e.b < n then Times(e.g, x[e.b] - x[e.a]) else 0.0)
  {
    hide Times;
    if n > 0 {
      EdgeTotalIs(m, e, x, n - 1);
    }
  }

  lemma {:induction false} FlowTotalSplits(m: Network, k: nat, x: Vec, n: nat)
    requires Fits(m, x) && 0 < k <= |m.edges|
    ensures FlowTotal(m, k, x, n) == FlowTotal(m, k - 1, x, n) + EdgeTotal(m, m.edges[k - 1], x, n)
  {
    if n > 0 {
      FlowTotalSplits(m, k, x, n - 1);
    }
  }

  lemma {:induction false} NoFlowTotal(m: Network, x: Vec, n: nat)
    requires Fits(m, x)
    ensures FlowTotal(m, 0, x, n) == 0.0
  {
    if n > 0 {
      NoFlowTotal(m, x, n - 1);
    }
  }

  /** What leaves one end of an edge enters the other. */
  lemma {:induction false} FlowConserved(m: Network, k: nat, x: Vec)
    requires Fits(m, x) && k <= |m.edges|
    ensures FlowTotal(m, k, x, |x|) == 0.0
  {
    hide Times;
    if k == 0 {
      NoFlowTotal(m, x, |x|);
    } else {
      var e := m.edges[k - 1];
      FlowConserved(m, k - 1, x);
      FlowTotalSplits(m, k, x, |x|);
      EdgeTotalIs(m, e, x, |x|);
      TimesMinus(e.g, x[e.a], x[e.b]);
      TimesMinus(e.g, x[e.b], x[e.a]);
    }
  }
}

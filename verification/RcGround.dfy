/** When the steady network has a solution: heat from every node must be able to reach a boundary. */
module RcGround {
  import opened RcNetwork
  import opened RcTheory

  /** Nodes that no active edge connects to the rest and that reject no heat themselves. */
  ghost predicate Island(m: Network, nodes: set<nat>) {
    && nodes != {} && (forall i :: i in nodes ==> i < |m.nodes| && m.nodes[i].boundaryG <= 0.0)
    && forall k :: 0 <= k < |m.edges| && IsActive(m, m.edges[k]) ==> (m.edges[k].a in nodes <==> m.edges[k].b in nodes)
  }

  /** Every node is connected, through active edges, to one that rejects heat. */
  ghost predicate Grounded(m: Network) {
    forall nodes :: !Island(m, nodes)
  }

  ghost predicate IsZero(x: Vec) {
    forall i :: 0 <= i < |x| ==> x[i] == 0.0
  }

  /** Some field other than zero is mapped to zero. */
  ghost predicate Singular(entries: seq<Triplet>, n: nat) {
    exists x: Vec :: |x| == n && !IsZero(x) && Solves(entries, x, Zeros(n))
  }

  function Zeros(n: nat): (z: Vec)
    ensures |z| == n && forall i :: 0 <= i < n ==> z[i] == 0.0
  {
    seq(n, _ => 0.0)
  }

  // ---------------------------------------------------------------- minimum principle

  /** If no heat flows out of a coldest node, its neighbours are as cold. */
  lemma {:induction false} NeighboursAtMinimum(m: Network, k: nat, x: Vec, r: nat, q: nat)
    requires ValidNetwork(m) && Fits(m, x) && k <= |m.edges| && r < |x| && q < k
    requires forall i :: 0 <= i < |x| ==> x[r] <= x[i]
    requires Flow(m, k, x, r) == 0.0 && IsActive(m, m.edges[q])
    ensures m.edges[q].a == r ==> x[m.edges[q].b] == x[r]
    ensures m.edges[q].b == r ==> x[m.edges[q].a] == x[r]
  {
    hide Times;
    FlowAtMinimum(m, k - 1, x, r);
    var e := m.edges[k - 1];
    assert EdgeOk(e, |x|);
    TimesSign(e.g, x[e.a] - x[e.b]);
    TimesSign(e.g, x[e.b] - x[e.a]);
    if q < k - 1 {
      NeighboursAtMinimum(m, k - 1, x, r, q);
    } else {
      TimesIsZero(e.g, x[e.a] - x[e.b]);
      TimesIsZero(e.g, x[e.b] - x[e.a]);
    }
  }

  lemma TimesIsZero(g: real, d: real)
    requires g != 0.0
    ensures Times(g, d) == 0.0 ==> d == 0.0
  {
  }

  ghost predicate SteadyAbove(m: Network, x: Vec)
    requires Fits(m, x)
  {
    forall r :: 0 <= r < |x| ==> Operator(m, SteadyDiagonal(m), x, r) >= 0.0
  }

  /** The coldest nodes of a field below zero, under nonnegative heating, reject no heat and pass none on. */
  lemma ColdestIsQuiet(m: Network, x: Vec, r: nat)
    requires ValidNetwork(m) && Fits(m, x) && SteadyAbove(m, x) && r < |x| && x[r] < 0.0
    requires forall i :: 0 <= i < |x| ==> x[r] <= x[i]
    ensures m.nodes[r].boundaryG == 0.0 && Flow(m, |m.edges|, x, r) == 0.0
  {
    hide Times;
    FlowAtMinimum(m, |m.edges|, x, r);
    assert NodeOk(m.nodes[r]);
    assert Operator(m, SteadyDiagonal(m), x, r) >= 0.0;
    TimesSign(m.nodes[r].boundaryG, x[r]);
    TimesVanishes(m.nodes[r].boundaryG, x[r]);
  }

  lemma TimesVanishes(g: real, d: real)
    requires d != 0.0
    ensures Times(g, d) == 0.0 ==> g == 0.0
  {
  }

  /** Minimum principle: in a grounded network nonnegative heating gives a nonnegative steady rise. */
  lemma SteadyIsNonnegative(m: Network, x: Vec)
    requires ValidNetwork(m) && Grounded(m) && Fits(m, x) && SteadyAbove(m, x)
    ensures forall i :: 0 <= i < |x| ==> x[i] >= 0.0
  {
    var r := ArgMin(x, |x|);
    if x[r] < 0.0 {
      var coldest := set i | 0 <= i < |x| && x[i] == x[r];
      assert r in coldest;
      forall i | i in coldest ensures i < |m.nodes| && m.nodes[i].boundaryG <= 0.0 {
        ColdestIsQuiet(m, x, i);
      }
      forall k | 0 <= k < |m.edges| && IsActive(m, m.edges[k])
        ensures m.edges[k].a in coldest <==> m.edges[k].b in coldest
      {
        ColdTogether(m, x, r, k);
      }
      assert Island(m, coldest);
    }
  }

  lemma ColdTogether(m: Network, x: Vec, r: nat, k: nat)
    requires ValidNetwork(m) && Fits(m, x) && SteadyAbove(m, x) && r < |x| && x[r] < 0.0
    requires forall i :: 0 <= i < |x| ==> x[r] <= x[i]
    requires k < |m.edges| && IsActive(m, m.edges[k])
    ensures x[m.edges[k].a] == x[r] <==> x[m.edges[k].b] == x[r]
  {
    var e := m.edges[k];
    if x[e.a] == x[r] {
      ColdestIsQuiet(m, x, e.a);
      NeighboursAtMinimum(m, |m.edges|, x, e.a, k);
    }
    if x[e.b] == x[r] {
      ColdestIsQuiet(m, x, e.b);
      NeighboursAtMinimum(m, |m.edges|, x, e.b, k);
    }
  }

  // ---------------------------------------------------------------- solvability

  lemma OperatorNegates(m: Network, diagonal: Vec, x: Vec, r: nat)
    requires Fits(m, x) && |diagonal| == |x| && r < |x|
    ensures Fits(m, Minus(Zeros(|x|), x))
    ensures Operator(m, diagonal, Minus(Zeros(|x|), x), r) == -Operator(m, diagonal, x, r)
  {
    hide Times;
    var z := Zeros(|x|);
    FlowOfDifference(m, |m.edges|, z, x, r);
    LevelFlow(m, |m.edges|, z, r);
    TimesMinus(diagonal[r], 0.0, x[r]);
    TimesZero(diagonal[r]);
  }

  /** No heat flows between nodes of one temperature. */
  lemma {:induction false} LevelFlow(m: Network, k: nat, x: Vec, r: nat)
    requires Fits(m, x) && k <= |m.edges|
    requires forall q :: 0 <= q < k && IsActive(m, m.edges[q]) ==> x[m.edges[q].a] == x[m.edges[q].b]
    ensures Flow(m, k, x, r) == 0.0
  {
    hide Times;
    if k > 0 {
      LevelFlow(m, k - 1, x, r);
      TimesZero(m.edges[k - 1].g);
    }
  }

  /** A field that the matrix maps to zero, and its negative, are steady without heating. */
  lemma KernelIsSteady(m: Network, diagonal: Vec, x: Vec, r: nat)
    requires Fits(m, x) && |diagonal| == |x| && r < |x|
    ensures Solves(MatrixEntries(m, diagonal, |m.edges|), x, Zeros(|x|)) ==> Operator(m, diagonal, x, r) == 0.0
  {
    hide Times;
    RowOfMatrix(m, diagonal, |m.edges|, x, r);
  }

  lemma KernelIsZero(m: Network, x: Vec)
    requires ValidNetwork(m) && Grounded(m) && Fits(m, x)
    requires Solves(MatrixEntries(m, SteadyDiagonal(m), |m.edges|), x, Zeros(|x|))
    ensures IsZero(x)
  {
    hide Operator;
    var minus := Minus(Zeros(|x|), x);
    forall r | 0 <= r < |x|
      ensures Fits(m, minus) && Operator(m, SteadyDiagonal(m), x, r) == 0.0 && Operator(m, SteadyDiagonal(m), minus, r) == 0.0
    {
      KernelIsSteady(m, SteadyDiagonal(m), x, r);
      OperatorNegates(m, SteadyDiagonal(m), x, r);
    }
    SteadyIsNonnegative(m, x);
    SteadyIsNonnegative(m, minus);
    forall i | 0 <= i < |x| ensures x[i] == 0.0 {
      assert minus[i] == -x[i];
    }
  }

  /** One on the island and zero elsewhere. */
  function Indicator(n: nat, nodes: set<nat>): (x: Vec)
    ensures |x| == n && forall i :: 0 <= i < n ==> x[i] == if i in nodes then 1.0 else 0.0
  {
    seq(n, i => if i in nodes then 1.0 else 0.0)
  }

  lemma IslandRow(m: Network, nodes: set<nat>, r: nat)
    requires ValidNetwork(m) && Island(m, nodes) && r < |m.nodes|
    ensures Square(MatrixEntries(m, SteadyDiagonal(m), |m.edges|), |m.nodes|)
    ensures Row(MatrixEntries(m, SteadyDiagonal(m), |m.edges|), Indicator(|m.nodes|, nodes), r) == 0.0
  {
    hide Times;
    var x := Indicator(|m.nodes|, nodes);
    assert forall k :: 0 <= k < |m.edges| ==> EdgeOk(m.edges[k], |m.nodes|);
    RowOfMatrix(m, SteadyDiagonal(m), |m.edges|, x, r);
    LevelFlow(m, |m.edges|, x, r);
    assert NodeOk(m.nodes[r]);
    TimesZero(m.nodes[r].boundaryG);
    TimesByZero(x[r]);
  }

  lemma IslandIsSingular(m: Network, nodes: set<nat>)
    requires ValidNetwork(m) && Island(m, nodes)
    ensures Singular(MatrixEntries(m, SteadyDiagonal(m), |m.edges|), |m.nodes|)
  {
    var n, entries := |m.nodes|, MatrixEntries(m, SteadyDiagonal(m), |m.edges|);
    hide MatrixEntries, Row, Square;
    var x := Indicator(n, nodes);
    IslandRow(m, nodes, 0);
    forall r | 0 <= r < n ensures Row(entries, x, r) == Zeros(n)[r] {
      IslandRow(m, nodes, r);
    }
    var i :| i in nodes;
    assert x[i] == 1.0;
    assert Solves(entries, x, Zeros(n));
  }

  /** The steady matrix is singular exactly when some nodes are cut off from every boundary. */
  lemma SingularIffNotGrounded(m: Network)
    requires ValidNetwork(m)
    ensures Singular(MatrixEntries(m, SteadyDiagonal(m), |m.edges|), |m.nodes|) <==> !Grounded(m)
  {
    var n, entries := |m.nodes|, MatrixEntries(m, SteadyDiagonal(m), |m.edges|);
    if !Grounded(m) {
      var nodes :| Island(m, nodes);
      IslandIsSingular(m, nodes);
    } else {
      forall x: Vec | |x| == n && Solves(entries, x, Zeros(n)) ensures IsZero(x) {
        assert forall k :: 0 <= k < |m.edges| ==> EdgeOk(m.edges[k], n);
        KernelIsZero(m, x);
      }
    }
  }

  /** A network in which nothing rejects heat is not grounded. */
  lemma NoBoundaryIsNotGrounded(m: Network)
    requires ValidNetwork(m) && forall i :: 0 <= i < |m.nodes| ==> m.nodes[i].boundaryG <= 0.0
    ensures !Grounded(m)
  {
    var all := set i | 0 <= i < |m.nodes| && m.nodes[i].boundaryG <= 0.0;
    assert 0 in all;
    assert forall k :: 0 <= k < |m.edges| ==> EdgeOk(m.edges[k], |m.nodes|);
    assert Island(m, all);
  }

  /** The system matrix of a step is never singular: its diagonal is positive. */
  lemma SystemIsRegular(m: Network, step: real)
    requires ValidNetwork(m) && step > 0.0
    ensures !Singular(MatrixEntries(m, SystemDiagonal(m, step), |m.edges|), |m.nodes|)
  {
    hide Operator;
    var n, diagonal := |m.nodes|, SystemDiagonal(m, step);
    assert forall k :: 0 <= k < |m.edges| ==> EdgeOk(m.edges[k], n);
    forall r | 0 <= r < n ensures diagonal[r] > 0.0 {
      assert NodeOk(m.nodes[r]);
    }
    forall x: Vec | |x| == n && Solves(MatrixEntries(m, diagonal, |m.edges|), x, Zeros(n)) ensures IsZero(x) {
      var minus := Minus(Zeros(n), x);
      forall r | 0 <= r < n
        ensures Fits(m, minus) && Operator(m, diagonal, x, r) == 0.0 && Operator(m, diagonal, minus, r) == 0.0
      {
        KernelIsSteady(m, diagonal, x, r);
        OperatorNegates(m, diagonal, x, r);
      }
      Comparison(m, diagonal, x, minus);
      Comparison(m, diagonal, minus, x);
      forall i | 0 <= i < n ensures x[i] == 0.0 {
        assert minus[i] == -x[i] && x[i] <= minus[i] && minus[i] <= x[i];
      }
    }
  }
}

/** The linear system of the minimal surface: the cotangent Laplacian with the
    boundary held at its load-time positions.

    A boundary vertex i contributes the single triplet (i, i, 1) and the
    right-hand side row p0_i (its position when the mesh was loaded). An
    interior vertex contributes one triplet (i, j, -w_e) per outgoing halfedge
    (to j, over edge e), then the diagonal (i, i, Σ w_e), and a zero
    right-hand side row. */
module MinimalSurface {
  import opened Geometry
  import opened MeshTopology
  import opened Weights
  import opened SparseSystem

  /** One (i, to(h), -w[edge(h)]) per halfedge of the first k of the ring. */
  function NegatedWeights(w: seq<real>, ring: seq<Halfedge>, i: nat, k: nat): (ts: seq<Triplet>)
    requires EdgesIn(ring, |w|) && k <= |ring|
    ensures |ts| == k
    ensures forall j | 0 <= j < k :: ts[j].row == i && ts[j].col == ring[j].to
  {
    if k == 0 then [] else NegatedWeights(w, ring, i, k - 1) + [Triplet(i, ring[k - 1].to, -w[ring[k - 1].edge])]
  }

  /** The triplets pushed for vertex i. */
  function Row(m: Mesh, w: seq<real>, i: nat): (ts: seq<Triplet>)
    requires WellFormed(m) && PerEdge(m, w) && i < |m.vertices|
    ensures forall j | 0 <= j < |ts| :: ts[j].row == i && ts[j].col < |m.vertices|
  {
    var ring := Ring(m, i);
    if IsBoundary(m, i) then [Triplet(i, i, 1.0)]
    else NegatedWeights(w, ring, i, |ring|) + [Triplet(i, i, WeightSum(w, ring, |ring|))]
  }

  function RowList(m: Mesh, w: seq<real>): (rows: seq<seq<Triplet>>)
    requires WellFormed(m) && PerEdge(m, w)
    ensures |rows| == |m.vertices|
    ensures RowsIndexed(rows) && RowsColumnsBelow(rows, |m.vertices|)
  {
    seq(|m.vertices|, i requires 0 <= i < |m.vertices| => Row(m, w, i))
  }

  /** The matrix L: the triplets in the order they are pushed. */
  function Triplets(m: Mesh, w: seq<real>): seq<Triplet>
    requires WellFormed(m) && PerEdge(m, w)
  {
    Flatten(RowList(m, w))
  }

  /** The right-hand side: the load-time position on the boundary, 0 inside. */
  function Rhs(m: Mesh, init: seq<Vec3>): (b: seq<Vec3>)
    requires PerVertex(m, init)
    ensures PerVertex(m, b)
  {
    seq(|m.vertices|, i requires 0 <= i < |m.vertices| => if IsBoundary(m, i) then init[i] else Zero)
  }

  lemma RowOfTriplets(m: Mesh, w: seq<real>, i: nat)
    requires WellFormed(m) && PerEdge(m, w) && i < |m.vertices|
    ensures RowOf(Triplets(m, w), i) == Row(m, w, i)
    ensures ColumnsBelow(Triplets(m, w), |m.vertices|)
  {
    var rows := RowList(m, w);
    RowOfFlatten(rows, i);
    FlattenColumnsBelow(rows, |m.vertices|);
  }

  lemma {:induction false} NegatedWeightsValueSum(w: seq<real>, ring: seq<Halfedge>, i: nat, k: nat)
    requires EdgesIn(ring, |w|) && k <= |ring|
    ensures ValueSum(NegatedWeights(w, ring, i, k)) == -WeightSum(w, ring, k)
  {
    if k > 0 {
      NegatedWeightsValueSum(w, ring, i, k - 1);
      ValueSumSnoc(NegatedWeights(w, ring, i, k - 1), Triplet(i, ring[k - 1].to, -w[ring[k - 1].edge]));
    }
  }

  /** A boundary row is the identity row with the load-time position on the
      right: its only coefficient is 1, on the diagonal. */
  lemma BoundaryRow(m: Mesh, w: seq<real>, init: seq<Vec3>, i: nat, j: nat)
    requires WellFormed(m) && PerEdge(m, w) && PerVertex(m, init) && i < |m.vertices| && IsBoundary(m, i)
    ensures RowOf(Triplets(m, w), i) == [Triplet(i, i, 1.0)]
    ensures Entry(Triplets(m, w), i, j) == if j == i then 1.0 else 0.0
    ensures Rhs(m, init)[i] == init[i]
  {
    RowOfTriplets(m, w, i);
    ColumnValueSnoc([], Triplet(i, i, 1.0), j);
  }

  /** An interior row has a zero right-hand side, its diagonal is Σ w_e and
      its off-diagonal coefficients add up to the negated diagonal, so the
      row sums to 0. */
  lemma InteriorRow(m: Mesh, w: seq<real>, init: seq<Vec3>, i: nat)
    requires WellFormed(m) && PerEdge(m, w) && PerVertex(m, init) && i < |m.vertices| && !IsBoundary(m, i)
    ensures Entry(Triplets(m, w), i, i) == WeightSum(w, Ring(m, i), |Ring(m, i)|)
    ensures OffDiagonalSum(Triplets(m, w), i) == -Entry(Triplets(m, w), i, i)
    ensures RowSum(Triplets(m, w), i) == 0.0
    ensures Rhs(m, init)[i] == Zero
  {
    RowOfTriplets(m, w, i);
    var ring := Ring(m, i);
    var off := NegatedWeights(w, ring, i, |ring|);
    var d := Triplet(i, i, WeightSum(w, ring, |ring|));
    ColumnValueAbsent(off, i);
    ColumnValueSnoc(off, d, i);
    NegatedWeightsValueSum(w, ring, i, |ring|);
    ValueSumSnoc(off, d);
  }

  /** Any solution of the system leaves every boundary vertex at its
      load-time position. */
  lemma SolutionKeepsBoundary(m: Mesh, w: seq<real>, init: seq<Vec3>, X: seq<Vec3>, i: nat)
    requires WellFormed(m) && PerEdge(m, w) && PerVertex(m, init)
    requires Solves(Triplets(m, w), Rhs(m, init), X)
    requires i < |m.vertices| && IsBoundary(m, i)
    ensures X[i] == init[i]
  {
    BoundaryRow(m, w, init, i, i);
    CombinationSnoc([], Triplet(i, i, 1.0), X);
  }
}

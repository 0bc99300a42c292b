/** The linear system of one backward-Euler step of mean-curvature flow.

    Row i of the matrix holds one triplet (i, j, -timestep * w_e) for each
    outgoing halfedge of vertex i (to j, over edge e) and one diagonal triplet
    (i, i, 1/a_i + timestep * Σ w_e), where a_i is the inverse-area weight of
    vertex i; row i of the right-hand side is p_i / a_i. */
module ImplicitFairing {
  import opened Geometry
  import opened MeshTopology
  import opened Weights
  import opened SparseSystem

  /** The off-diagonal triplets of row i for the first k halfedges of its
      one-ring: one (i, to(h), -timestep * w[edge(h)]) per halfedge, in order. */
  function OffDiagonal(w: seq<real>, ring: seq<Halfedge>, timestep: real, i: nat, k: nat): (ts: seq<Triplet>)
    requires EdgesIn(ring, |w|) && k <= |ring|
    ensures |ts| == k
    ensures forall j | 0 <= j < k :: ts[j].row == i && ts[j].col == ring[j].to
  {
    if k == 0 then []
    else OffDiagonal(w, ring, timestep, i, k - 1) + [Triplet(i, ring[k - 1].to, -timestep * w[ring[k - 1].edge])]
  }

  /** The diagonal triplet of row i: 1/a_i + timestep * Σ w_e. */
  function Diagonal(prim: Primitives, w: seq<real>, ring: seq<Halfedge>, ai: real, timestep: real, i: nat): Triplet
    requires EdgesIn(ring, |w|)
  {
    Triplet(i, i, Div(prim, 1.0, ai) + timestep * WeightSum(w, ring, |ring|))
  }

  /** The triplets pushed for vertex i: its off-diagonals, then its diagonal. */
  function Row(prim: Primitives, m: Mesh, w: seq<real>, a: seq<real>, timestep: real, i: nat): (ts: seq<Triplet>)
    requires WellFormed(m) && PerEdge(m, w) && PerVertex(m, a) && i < |m.vertices|
    ensures forall j | 0 <= j < |ts| :: ts[j].row == i && ts[j].col < |m.vertices|
  {
    var ring := Ring(m, i);
    OffDiagonal(w, ring, timestep, i, |ring|) + [Diagonal(prim, w, ring, a[i], timestep, i)]
  }

  /** The rows of all vertices, in vertex order. */
  function RowList(prim: Primitives, m: Mesh, w: seq<real>, a: seq<real>, timestep: real): (rows: seq<seq<Triplet>>)
    requires WellFormed(m) && PerEdge(m, w) && PerVertex(m, a)
    ensures |rows| == |m.vertices|
    ensures RowsIndexed(rows) && RowsColumnsBelow(rows, |m.vertices|)
  {
    seq(|m.vertices|, i requires 0 <= i < |m.vertices| => Row(prim, m, w, a, timestep, i))
  }

  /** The matrix A of the step: the triplets in the order they are pushed. */
  function Triplets(prim: Primitives, m: Mesh, w: seq<real>, a: seq<real>, timestep: real): seq<Triplet>
    requires WellFormed(m) && PerEdge(m, w) && PerVertex(m, a)
  {
    Flatten(RowList(prim, m, w, a, timestep))
  }

  /** The right-hand side B of the step: row i is p_i / a_i. */
  function Rhs(prim: Primitives, m: Mesh, pos: seq<Vec3>, a: seq<real>): (b: seq<Vec3>)
    requires PerVertex(m, pos) && PerVertex(m, a)
    ensures PerVertex(m, b)
  {
    seq(|m.vertices|, i requires 0 <= i < |m.vertices| => DivVec(prim, pos[i], a[i]))
  }

  /** Row i of the assembled list is exactly the row built for vertex i, and
      every column is a vertex. */
  lemma RowOfTriplets(prim: Primitives, m: Mesh, w: seq<real>, a: seq<real>, timestep: real, i: nat)
    requires WellFormed(m) && PerEdge(m, w) && PerVertex(m, a) && i < |m.vertices|
    ensures RowOf(Triplets(prim, m, w, a, timestep), i) == Row(prim, m, w, a, timestep, i)
    ensures ColumnsBelow(Triplets(prim, m, w, a, timestep), |m.vertices|)
  {
    var rows := RowList(prim, m, w, a, timestep);
    RowOfFlatten(rows, i);
    FlattenColumnsBelow(rows, |m.vertices|);
  }

  /** Extending the one-ring prefix by halfedge k appends its triplet. */
  lemma OffDiagonalSnoc(w: seq<real>, ring: seq<Halfedge>, timestep: real, i: nat, k: nat)
    requires EdgesIn(ring, |w|) && k < |ring|
    ensures OffDiagonal(w, ring, timestep, i, k + 1)
            == OffDiagonal(w, ring, timestep, i, k) + [Triplet(i, ring[k].to, -timestep * w[ring[k].edge])]
  {
  }

  /** Triplet j of the off-diagonal list is (i, to(h_j), -timestep * w[edge(h_j)]). */
  lemma {:induction false} OffDiagonalTriplets(w: seq<real>, ring: seq<Halfedge>, timestep: real, i: nat, k: nat)
    requires EdgesIn(ring, |w|) && k <= |ring|
    ensures forall j | 0 <= j < k ::
              OffDiagonal(w, ring, timestep, i, k)[j] == Triplet(i, ring[j].to, -timestep * w[ring[j].edge])
  {
    if k > 0 {
      OffDiagonalTriplets(w, ring, timestep, i, k - 1);
    }
  }

  /** The off-diagonal values of a row add up to -timestep times the sum of
      the edge weights of its one-ring. */
  lemma OffDiagonalValueSum(w: seq<real>, ring: seq<Halfedge>, timestep: real, i: nat, k: nat)
    requires EdgesIn(ring, |w|) && k <= |ring|
    ensures ValueSum(OffDiagonal(w, ring, timestep, i, k)) == -timestep * WeightSum(w, ring, k)
  {
    OffDiagonalValues(w, ring, timestep, i, k);
    ScaledWeightSumFactor(w, ring, timestep, k);
  }

  /** Σ -timestep * w[edge(h)] over the first k halfedges of a one-ring. */
  function ScaledWeightSum(w: seq<real>, ring: seq<Halfedge>, timestep: real, k: nat): real
    requires EdgesIn(ring, |w|) && k <= |ring|
  {
    if k == 0 then 0.0 else ScaledWeightSum(w, ring, timestep, k - 1) + -timestep * w[ring[k - 1].edge]
  }

  lemma {:induction false} OffDiagonalValues(w: seq<real>, ring: seq<Halfedge>, timestep: real, i: nat, k: nat)
    requires EdgesIn(ring, |w|) && k <= |ring|
    ensures ValueSum(OffDiagonal(w, ring, timestep, i, k)) == ScaledWeightSum(w, ring, timestep, k)
  {
    if k > 0 {
      OffDiagonalValues(w, ring, timestep, i, k - 1);
      OffDiagonalValueSnoc(w, ring, timestep, i, k);
    }
  }

  lemma {:induction false} ScaledWeightSumFactor(w: seq<real>, ring: seq<Halfedge>, timestep: real, k: nat)
    requires EdgesIn(ring, |w|) && k <= |ring|
    ensures ScaledWeightSum(w, ring, timestep, k) == -timestep * WeightSum(w, ring, k)
  {
    if k == 0 {
      ScaleZero(timestep, WeightSum(w, ring, k));
    } else {
      ScaledWeightSumFactor(w, ring, timestep, k - 1);
      SumStep(timestep, ScaledWeightSum(w, ring, timestep, k), ScaledWeightSum(w, ring, timestep, k - 1),
              WeightSum(w, ring, k), WeightSum(w, ring, k - 1), w[ring[k - 1].edge]);
    }
  }

  /** Appending the triplet of halfedge k - 1 adds its value to the sum. */
  lemma OffDiagonalValueSnoc(w: seq<real>, ring: seq<Halfedge>, timestep: real, i: nat, k: nat)
    requires EdgesIn(ring, |w|) && 0 < k <= |ring|
    ensures ValueSum(OffDiagonal(w, ring, timestep, i, k))
            == ValueSum(OffDiagonal(w, ring, timestep, i, k - 1)) + -timestep * w[ring[k - 1].edge]
  {
    ValueSumSnoc(OffDiagonal(w, ring, timestep, i, k - 1), Triplet(i, ring[k - 1].to, -timestep * w[ring[k - 1].edge]));
  }

  lemma ScaleZero(t: real, x: real)
    requires x == 0.0
    ensures -t * x == 0.0
  {
  }

  /** One step of a sum of negatively scaled terms. */
  lemma SumStep(t: real, total: real, prefix: real, weights: real, prefixWeights: real, last: real)
    requires prefix == -t * prefixWeights && total == prefix + -t * last && weights == prefixWeights + last
    ensures total == -t * weights
  {
  }

  lemma Cancel(t: real, sum: real, d: real)
    ensures -t * sum + (d + t * sum) == d
  {
  }

  /** The diagonal coefficient of row i is 1/a_i + timestep * Σ w_e: no
      off-diagonal triplet lands on the diagonal, since no vertex is its own
      neighbour. */
  lemma DiagonalEntry(prim: Primitives, m: Mesh, w: seq<real>, a: seq<real>, timestep: real, i: nat)
    requires WellFormed(m) && PerEdge(m, w) && PerVertex(m, a) && i < |m.vertices|
    ensures Entry(Triplets(prim, m, w, a, timestep), i, i)
              == Div(prim, 1.0, a[i]) + timestep * WeightSum(w, Ring(m, i), |Ring(m, i)|)
  {
    RowOfTriplets(prim, m, w, a, timestep, i);
    var ring := Ring(m, i);
    var off := OffDiagonal(w, ring, timestep, i, |ring|);
    ColumnValueAbsent(off, i);
    ColumnValueSnoc(off, Diagonal(prim, w, ring, a[i], timestep, i), i);
  }

  /** The row sums of A are the diagonal mass 1/a_i: the off-diagonal
      -timestep * w_e cancel the timestep * Σ w_e on the diagonal. */
  lemma RowSumIsMass(prim: Primitives, m: Mesh, w: seq<real>, a: seq<real>, timestep: real, i: nat)
    requires WellFormed(m) && PerEdge(m, w) && PerVertex(m, a) && i < |m.vertices|
    ensures RowSum(Triplets(prim, m, w, a, timestep), i) == Div(prim, 1.0, a[i])
    ensures OffDiagonalSum(Triplets(prim, m, w, a, timestep), i)
              == -timestep * WeightSum(w, Ring(m, i), |Ring(m, i)|)
  {
    RowOfTriplets(prim, m, w, a, timestep, i);
    DiagonalEntry(prim, m, w, a, timestep, i);
    var ring := Ring(m, i);
    var off := OffDiagonal(w, ring, timestep, i, |ring|);
    OffDiagonalValueSum(w, ring, timestep, i, |ring|);
    ValueSumSnoc(off, Diagonal(prim, w, ring, a[i], timestep, i));
    Cancel(timestep, WeightSum(w, ring, |ring|), Div(prim, 1.0, a[i]));
  }

  lemma ZeroTimes(x: real)
    ensures -0.0 * x == 0.0
  {
  }

  lemma ScaleByInverse(prim: Primitives, p: Vec3, a: real, sum: real)
    requires a != 0.0
    ensures Add(Zero, Scale(p, Div(prim, 1.0, a) + 0.0 * sum)) == DivVec(prim, p, a)
  {
  }

  /** With timestep 0 the off-diagonal triplets are all 0. */
  lemma ZeroStepOffDiagonal(w: seq<real>, ring: seq<Halfedge>, i: nat, X: seq<Vec3>, c: nat)
    requires EdgesIn(ring, |w|) && NeighborsIn(ring, i, |X|)
    ensures ColumnsBelow(OffDiagonal(w, ring, 0.0, i, |ring|), |X|)
    ensures ColumnValue(OffDiagonal(w, ring, 0.0, i, |ring|), c) == 0.0
    ensures Combination(OffDiagonal(w, ring, 0.0, i, |ring|), X) == Zero
  {
    var off := OffDiagonal(w, ring, 0.0, i, |ring|);
    OffDiagonalTriplets(w, ring, 0.0, i, |ring|);
    forall j | 0 <= j < |off|
      ensures off[j].value == 0.0
    {
      ZeroTimes(w[ring[j].edge]);
    }
    ZeroValues(off, c, X);
  }

  /** With timestep 0, row i reduces to the diagonal 1/a_i, and (when a_i is
      not 0) it maps the current positions to the right-hand side p_i / a_i. */
  lemma ZeroStepRow(prim: Primitives, m: Mesh, w: seq<real>, a: seq<real>, pos: seq<Vec3>, i: nat, j: nat)
    requires WellFormed(m) && PerEdge(m, w) && PerVertex(m, a) && PerVertex(m, pos) && i < |m.vertices|
    ensures Entry(Triplets(prim, m, w, a, 0.0), i, j) == if j == i then Div(prim, 1.0, a[i]) else 0.0
    ensures ColumnsBelow(Triplets(prim, m, w, a, 0.0), |pos|)
    ensures a[i] != 0.0 ==> Product(Triplets(prim, m, w, a, 0.0), pos, i) == Rhs(prim, m, pos, a)[i]
  {
    RowOfTriplets(prim, m, w, a, 0.0, i);
    var ring := Ring(m, i);
    var off := OffDiagonal(w, ring, 0.0, i, |ring|);
    var d := Diagonal(prim, w, ring, a[i], 0.0, i);
    ZeroStepOffDiagonal(w, ring, i, pos, j);
    ColumnValueSnoc(off, d, j);
    CombinationSnoc(off, d, pos);
    if a[i] != 0.0 {
      ScaleByInverse(prim, pos[i], a[i], WeightSum(w, ring, |ring|));
    }
  }

  /** With timestep 0 (and no vertex of zero inverse-area weight) the current
      positions solve the system. */
  lemma ZeroStepKeepsPositions(prim: Primitives, m: Mesh, w: seq<real>, a: seq<real>, pos: seq<Vec3>)
    requires WellFormed(m) && PerEdge(m, w) && PerVertex(m, a) && PerVertex(m, pos)
    requires forall i | 0 <= i < |a| :: a[i] != 0.0
    ensures Solves(Triplets(prim, m, w, a, 0.0), Rhs(prim, m, pos, a), pos)
  {
    var ts := Triplets(prim, m, w, a, 0.0);
    FlattenColumnsBelow(RowList(prim, m, w, a, 0.0), |m.vertices|);
    forall i | 0 <= i < |m.vertices|
      ensures Product(ts, pos, i) == Rhs(prim, m, pos, a)[i]
    {
      ZeroStepRow(prim, m, w, a, pos, i, i);
    }
  }
}

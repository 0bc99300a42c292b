/** Cotangent edge weights and inverse-area vertex weights, as functions of the
    vertex positions, and the one-ring sums built from them. */
module Weights {
  import opened Geometry
  import opened MeshTopology

  /** The cotangent of the angle at p2 in triangle (p0, p1, p2):
      `dot(d0, d1) / norm(cross(d0, d1))` with d0 = p0 - p2, d1 = p1 - p2. */
  function CotanTerm(prim: Primitives, p0: Vec3, p1: Vec3, p2: Vec3): real {
    var d0 := Sub(p0, p2);
    var d1 := Sub(p1, p2);
    Div(prim, Dot(d0, d1), prim.norm(Cross(d0, d1)))
  }

  /** What one halfedge of an edge contributes: nothing on the boundary,
      otherwise the cotangent of the corner opposite the edge. */
  function SideTerm(prim: Primitives, pos: seq<Vec3>, side: EdgeSide, p0: Vec3, p1: Vec3): real
    requires side.opposite < |pos|
  {
    if side.boundary then 0.0 else CotanTerm(prim, p0, p1, pos[side.opposite])
  }

  /** The cotangent weight of edge e: the sum of the terms of its halfedges
      that are not boundary halfedges. */
  function EdgeWeight(prim: Primitives, m: Mesh, pos: seq<Vec3>, e: nat): real
    requires WellFormed(m) && PerVertex(m, pos) && e < |m.edges|
  {
    var ed := m.edges[e];
    var p0 := pos[ed.h0.to];
    var p1 := pos[ed.h1.to];
    SideTerm(prim, pos, ed.h0, p0, p1) + SideTerm(prim, pos, ed.h1, p0, p1)
  }

  /** The edge weight attribute computed from the positions. */
  function EdgeWeights(prim: Primitives, m: Mesh, pos: seq<Vec3>): (w: seq<real>)
    requires WellFormed(m) && PerVertex(m, pos)
    ensures PerEdge(m, w)
  {
    seq(|m.edges|, e requires 0 <= e < |m.edges| => EdgeWeight(prim, m, pos, e))
  }

  /** An edge with both halfedges inside gets the two cotangents of its
      opposite corners; an edge with exactly one boundary halfedge gets only
      the other halfedge's cotangent; an edge whose halfedges are both on the
      boundary gets weight 0. */
  lemma EdgeWeightTerms(prim: Primitives, m: Mesh, pos: seq<Vec3>, e: nat)
    requires WellFormed(m) && PerVertex(m, pos) && e < |m.edges|
    ensures
      var ed := m.edges[e];
      var p0 := pos[ed.h0.to];
      var p1 := pos[ed.h1.to];
      && (!ed.h0.boundary && !ed.h1.boundary ==>
            EdgeWeight(prim, m, pos, e)
              == CotanTerm(prim, p0, p1, pos[ed.h0.opposite]) + CotanTerm(prim, p0, p1, pos[ed.h1.opposite]))
      && (!ed.h0.boundary && ed.h1.boundary ==>
            EdgeWeight(prim, m, pos, e) == CotanTerm(prim, p0, p1, pos[ed.h0.opposite]))
      && (ed.h0.boundary && !ed.h1.boundary ==>
            EdgeWeight(prim, m, pos, e) == CotanTerm(prim, p0, p1, pos[ed.h1.opposite]))
      && (ed.h0.boundary && ed.h1.boundary ==> EdgeWeight(prim, m, pos, e) == 0.0)
  {
  }

  /** An edge weight depends only on the positions of the edge's endpoints and
      of its opposite corners. */
  lemma EdgeWeightIsLocal(prim: Primitives, m: Mesh, pos: seq<Vec3>, pos': seq<Vec3>, e: nat)
    requires WellFormed(m) && PerVertex(m, pos) && PerVertex(m, pos') && e < |m.edges|
    requires
      var ed := m.edges[e];
      pos[ed.h0.to] == pos'[ed.h0.to] && pos[ed.h1.to] == pos'[ed.h1.to] &&
      pos[ed.h0.opposite] == pos'[ed.h0.opposite] && pos[ed.h1.opposite] == pos'[ed.h1.opposite]
    ensures EdgeWeight(prim, m, pos, e) == EdgeWeight(prim, m, pos', e)
  {
  }

  /** About a third of the area of a face: `norm(cross(Q-P, R-P)) * 0.5 * 0.3333`
      (the source's one-third is the constant 0.3333). */
  function FaceAreaTerm(prim: Primitives, pos: seq<Vec3>, f: Face): real
    requires FaceInRange(f, |pos|)
  {
    var p := pos[f.a];
    var q := pos[f.b];
    var r := pos[f.c];
    prim.norm(Cross(Sub(q, p), Sub(r, p))) * 0.5 * 0.3333
  }

  /** The area terms of the first k faces around v. */
  function AreaSum(prim: Primitives, m: Mesh, pos: seq<Vec3>, v: nat, k: nat): real
    requires WellFormed(m) && PerVertex(m, pos) && v < |m.vertices| && k <= |m.vertices[v].faces|
  {
    if k == 0 then 0.0
    else
      AreaSum(prim, m, pos, v, k - 1) + FaceAreaTerm(prim, pos, m.vertices[v].faces[k - 1])
  }

  /** The inverse-area weight of v: `0.5 / area` over its incident faces; a
      vertex without incident faces is skipped and keeps its previous weight. */
  function VertexWeight(prim: Primitives, m: Mesh, pos: seq<Vec3>, prev: seq<real>, v: nat): real
    requires WellFormed(m) && PerVertex(m, pos) && PerVertex(m, prev) && v < |m.vertices|
  {
    var faces := m.vertices[v].faces;
    if |faces| == 0 then prev[v] else Div(prim, 0.5, AreaSum(prim, m, pos, v, |faces|))
  }

  function VertexWeights(prim: Primitives, m: Mesh, pos: seq<Vec3>, prev: seq<real>): (a: seq<real>)
    requires WellFormed(m) && PerVertex(m, pos) && PerVertex(m, prev)
    ensures PerVertex(m, a)
  {
    seq(|m.vertices|, v requires 0 <= v < |m.vertices| => VertexWeight(prim, m, pos, prev, v))
  }

  /** With non-negative lengths, the accumulated area is never negative. */
  lemma {:induction false} AreaSumNonNegative(prim: Primitives, m: Mesh, pos: seq<Vec3>, v: nat, k: nat)
    requires NormNonNegative(prim)
    requires WellFormed(m) && PerVertex(m, pos) && v < |m.vertices| && k <= |m.vertices[v].faces|
    ensures AreaSum(prim, m, pos, v, k) >= 0.0
  {
    if k > 0 {
      AreaSumNonNegative(prim, m, pos, v, k - 1);
      var f := m.vertices[v].faces[k - 1];
      assert prim.norm(Cross(Sub(pos[f.b], pos[f.a]), Sub(pos[f.c], pos[f.a]))) >= 0.0;
    }
  }

  /** A vertex with incident faces of non-zero total area gets a positive
      weight; a vertex without faces keeps the weight it had. */
  lemma VertexWeightSign(prim: Primitives, m: Mesh, pos: seq<Vec3>, prev: seq<real>, v: nat)
    requires NormNonNegative(prim)
    requires WellFormed(m) && PerVertex(m, pos) && PerVertex(m, prev) && v < |m.vertices|
    ensures |m.vertices[v].faces| == 0 ==> VertexWeight(prim, m, pos, prev, v) == prev[v]
    ensures |m.vertices[v].faces| > 0 && AreaSum(prim, m, pos, v, |m.vertices[v].faces|) != 0.0 ==>
              VertexWeight(prim, m, pos, prev, v) > 0.0
  {
    if |m.vertices[v].faces| > 0 {
      AreaSumNonNegative(prim, m, pos, v, |m.vertices[v].faces|);
    }
  }

  /** Σ w[edge(h)] over the first k halfedges of a one-ring. */
  function WeightSum(w: seq<real>, ring: seq<Halfedge>, k: nat): real
    requires EdgesIn(ring, |w|) && k <= |ring|
  {
    if k == 0 then 0.0 else WeightSum(w, ring, k - 1) + w[ring[k - 1].edge]
  }

  /** Σ w[edge(h)] * (pos[to(h)] - pos[v]) over the first k halfedges of the
      one-ring of v: the weighted Laplacian before normalisation. */
  function CotanLaplaceSum(w: seq<real>, pos: seq<Vec3>, v: nat, ring: seq<Halfedge>, k: nat): Vec3
    requires EdgesIn(ring, |w|) && NeighborsIn(ring, v, |pos|) && k <= |ring|
  {
    if k == 0 then Zero
    else
      Add(CotanLaplaceSum(w, pos, v, ring, k - 1), Scale(Sub(pos[ring[k - 1].to], pos[v]), w[ring[k - 1].edge]))
  }

  /** Σ (pos[to(h)] - pos[v]) over the first k halfedges of the one-ring of v. */
  function UniformLaplaceSum(pos: seq<Vec3>, v: nat, ring: seq<Halfedge>, k: nat): Vec3
    requires NeighborsIn(ring, v, |pos|) && k <= |ring|
  {
    if k == 0 then Zero else Add(UniformLaplaceSum(pos, v, ring, k - 1), Sub(pos[ring[k - 1].to], pos[v]))
  }

  /** Both one-ring sums read only v and its neighbours: positions that agree
      there give the same sums. */
  lemma {:induction false} LaplaceSumsAreLocal(w: seq<real>, pos: seq<Vec3>, pos': seq<Vec3>, v: nat,
                                               ring: seq<Halfedge>, k: nat)
    requires EdgesIn(ring, |w|) && NeighborsIn(ring, v, |pos|) && |pos'| == |pos| && k <= |ring|
    requires pos[v] == pos'[v]
    requires forall j | 0 <= j < |ring| :: pos[ring[j].to] == pos'[ring[j].to]
    ensures UniformLaplaceSum(pos, v, ring, k) == UniformLaplaceSum(pos', v, ring, k)
    ensures CotanLaplaceSum(w, pos, v, ring, k) == CotanLaplaceSum(w, pos', v, ring, k)
  {
    if k > 0 {
      LaplaceSumsAreLocal(w, pos, pos', v, ring, k - 1);
    }
  }

  /** Moving the whole mesh by one offset changes no edge weight. */
  lemma EdgeWeightsTranslated(prim: Primitives, m: Mesh, pos: seq<Vec3>, t: Vec3)
    requires WellFormed(m) && PerVertex(m, pos)
    ensures EdgeWeights(prim, m, Translate(pos, t)) == EdgeWeights(prim, m, pos)
  {
    var pos' := Translate(pos, t);
    forall e | 0 <= e < |m.edges|
      ensures EdgeWeight(prim, m, pos', e) == EdgeWeight(prim, m, pos, e)
    {
      var ed := m.edges[e];
      SubTranslated(pos[ed.h0.to], pos[ed.h0.opposite], t);
      SubTranslated(pos[ed.h1.to], pos[ed.h0.opposite], t);
      SubTranslated(pos[ed.h0.to], pos[ed.h1.opposite], t);
      SubTranslated(pos[ed.h1.to], pos[ed.h1.opposite], t);
    }
  }

  lemma {:induction false} AreaSumTranslated(prim: Primitives, m: Mesh, pos: seq<Vec3>, t: Vec3, v: nat, k: nat)
    requires WellFormed(m) && PerVertex(m, pos) && v < |m.vertices| && k <= |m.vertices[v].faces|
    ensures AreaSum(prim, m, Translate(pos, t), v, k) == AreaSum(prim, m, pos, v, k)
  {
    if k > 0 {
      AreaSumTranslated(prim, m, pos, t, v, k - 1);
      var f := m.vertices[v].faces[k - 1];
      SubTranslated(pos[f.b], pos[f.a], t);
      SubTranslated(pos[f.c], pos[f.a], t);
    }
  }

  /** Moving the whole mesh by one offset changes no vertex weight. */
  lemma VertexWeightsTranslated(prim: Primitives, m: Mesh, pos: seq<Vec3>, prev: seq<real>, t: Vec3)
    requires WellFormed(m) && PerVertex(m, pos) && PerVertex(m, prev)
    ensures VertexWeights(prim, m, Translate(pos, t), prev) == VertexWeights(prim, m, pos, prev)
  {
    forall v | 0 <= v < |m.vertices|
      ensures VertexWeight(prim, m, Translate(pos, t), prev, v) == VertexWeight(prim, m, pos, prev, v)
    {
      AreaSumTranslated(prim, m, pos, t, v, |m.vertices[v].faces|);
    }
  }

  /** The one-ring sums are sums of differences, so a common offset of all
      positions leaves them unchanged. */
  lemma {:induction false} UniformLaplaceSumTranslated(pos: seq<Vec3>, t: Vec3, v: nat, ring: seq<Halfedge>, k: nat)
    requires NeighborsIn(ring, v, |pos|) && k <= |ring|
    ensures UniformLaplaceSum(Translate(pos, t), v, ring, k) == UniformLaplaceSum(pos, v, ring, k)
  {
    if k > 0 {
      UniformLaplaceSumTranslated(pos, t, v, ring, k - 1);
      SubTranslated(pos[ring[k - 1].to], pos[v], t);
    }
  }

  lemma {:induction false} CotanLaplaceSumTranslated(w: seq<real>, pos: seq<Vec3>, t: Vec3, v: nat,
                                                     ring: seq<Halfedge>, k: nat)
    requires EdgesIn(ring, |w|) && NeighborsIn(ring, v, |pos|) && k <= |ring|
    ensures CotanLaplaceSum(w, Translate(pos, t), v, ring, k) == CotanLaplaceSum(w, pos, v, ring, k)
  {
    if k > 0 {
      CotanLaplaceSumTranslated(w, pos, t, v, ring, k - 1);
      SubTranslated(pos[ring[k - 1].to], pos[v], t);
    }
  }
}

/** The three per-vertex curvature estimators.

    Each writes 0 at a boundary vertex. At an interior vertex:
    - the uniform mean curvature is 0.5 * |L_u|, L_u the average of
      p_j - p_v over the one-ring;
    - the Laplace-Beltrami mean curvature is 0.5 * |a_v * Σ w_e (p_j - p_v)|;
    - the Gaussian curvature is the angle defect (2π - Σ θ_j) * 2 * a_v, θ_j
      the angle at v between consecutive neighbours j and j + 1 (the last one
      paired with the first). */
module Curvature {
  import opened Geometry
  import opened MeshTopology
  import opened Weights

  function UniformMeanCurvature(prim: Primitives, m: Mesh, pos: seq<Vec3>, v: nat): real
    requires WellFormed(m) && PerVertex(m, pos) && v < |m.vertices|
  {
    if IsBoundary(m, v) then 0.0
    else
      var ring := Ring(m, v);
      0.5 * prim.norm(DivVec(prim, UniformLaplaceSum(pos, v, ring, |ring|), |ring| as real))
  }

  function MeanCurvature(prim: Primitives, m: Mesh, w: seq<real>, a: seq<real>, pos: seq<Vec3>, v: nat): real
    requires WellFormed(m) && PerEdge(m, w) && PerVertex(m, a) && PerVertex(m, pos) && v < |m.vertices|
  {
    if IsBoundary(m, v) then 0.0
    else
      var ring := Ring(m, v);
      0.5 * prim.norm(Scale(CotanLaplaceSum(w, pos, v, ring, |ring|), a[v]))
  }

  /** The angle at p_v between the directions to p_j and p_l, its cosine
      clamped to [-1, 1]. */
  function CornerAngle(prim: Primitives, pos: seq<Vec3>, v: nat, j: nat, l: nat): real
    requires v < |pos| && j < |pos| && l < |pos|
  {
    var d0 := prim.normalize(Sub(pos[j], pos[v]));
    var d1 := prim.normalize(Sub(pos[l], pos[v]));
    prim.acos(Clamp(Dot(d0, d1)))
  }

  /** The angles between the first k pairs of consecutive neighbours of v;
      the successor of the last neighbour is the first. */
  function AngleSum(prim: Primitives, pos: seq<Vec3>, v: nat, ring: seq<Halfedge>, k: nat): real
    requires NeighborsIn(ring, v, |pos|) && k <= |ring|
  {
    if k == 0 then 0.0
    else AngleSum(prim, pos, v, ring, k - 1) + CornerAngle(prim, pos, v, ring[k - 1].to, ring[k % |ring|].to)
  }

  function GaussCurvature(prim: Primitives, m: Mesh, a: seq<real>, pos: seq<Vec3>, v: nat): real
    requires WellFormed(m) && PerVertex(m, a) && PerVertex(m, pos) && v < |m.vertices|
  {
    if IsBoundary(m, v) then 0.0
    else
      var ring := Ring(m, v);
      (2.0 * prim.pi - AngleSum(prim, pos, v, ring, |ring|)) * 2.0 * a[v]
  }

  /** The arc cosine maps [-1, 1] into [0, π]. */
  ghost predicate AcosInRange(prim: Primitives) {
    forall c | -1.0 <= c <= 1.0 :: 0.0 <= prim.acos(c) <= prim.pi
  }

  /** All three estimators write 0 at a boundary vertex. */
  lemma BoundaryCurvatures(prim: Primitives, m: Mesh, w: seq<real>, a: seq<real>, pos: seq<Vec3>, v: nat)
    requires WellFormed(m) && PerEdge(m, w) && PerVertex(m, a) && PerVertex(m, pos) && v < |m.vertices|
    requires IsBoundary(m, v)
    ensures UniformMeanCurvature(prim, m, pos, v) == 0.0
    ensures MeanCurvature(prim, m, w, a, pos, v) == 0.0
    ensures GaussCurvature(prim, m, a, pos, v) == 0.0
  {
  }

  /** Both mean curvatures are half a length, so never negative. */
  lemma MeanCurvaturesNonNegative(prim: Primitives, m: Mesh, w: seq<real>, a: seq<real>, pos: seq<Vec3>, v: nat)
    requires NormNonNegative(prim)
    requires WellFormed(m) && PerEdge(m, w) && PerVertex(m, a) && PerVertex(m, pos) && v < |m.vertices|
    ensures UniformMeanCurvature(prim, m, pos, v) >= 0.0
    ensures MeanCurvature(prim, m, w, a, pos, v) >= 0.0
  {
    if !IsBoundary(m, v) {
      var ring := Ring(m, v);
      var lu := DivVec(prim, UniformLaplaceSum(pos, v, ring, |ring|), |ring| as real);
      var lc := Scale(CotanLaplaceSum(w, pos, v, ring, |ring|), a[v]);
      assert prim.norm(lu) >= 0.0 && prim.norm(lc) >= 0.0;
    }
  }

  lemma PartialAngleBound(prev: real, angle: real, k: nat, pi: real)
    requires 0.0 <= prev <= (k as real) * pi && 0.0 <= angle <= pi
    ensures 0.0 <= prev + angle <= ((k + 1) as real) * pi
  {
  }

  /** Each of the first k corner angles lies in [0, π], so their sum lies in
      [0, k π]. */
  lemma {:induction false} AngleSumBounds(prim: Primitives, pos: seq<Vec3>, v: nat, ring: seq<Halfedge>, k: nat)
    requires AcosInRange(prim)
    requires NeighborsIn(ring, v, |pos|) && k <= |ring|
    ensures 0.0 <= AngleSum(prim, pos, v, ring, k) <= (k as real) * prim.pi
  {
    if k > 0 {
      AngleSumBounds(prim, pos, v, ring, k - 1);
      var angle := CornerAngle(prim, pos, v, ring[k - 1].to, ring[k % |ring|].to);
      PartialAngleBound(AngleSum(prim, pos, v, ring, k - 1), angle, k - 1, prim.pi);
    }
  }

  /** With a non-negative vertex weight, an interior vertex whose corner
      angles add up to less than a full turn has positive-or-zero Gaussian
      curvature, and one whose angles add up to more has negative-or-zero
      curvature; at exactly a full turn (a flat vertex) it is 0. */
  lemma GaussCurvatureSign(prim: Primitives, m: Mesh, a: seq<real>, pos: seq<Vec3>, v: nat)
    requires WellFormed(m) && PerVertex(m, a) && PerVertex(m, pos) && v < |m.vertices|
    requires !IsBoundary(m, v) && a[v] >= 0.0
    ensures AngleSum(prim, pos, v, Ring(m, v), |Ring(m, v)|) <= 2.0 * prim.pi ==> GaussCurvature(prim, m, a, pos, v) >= 0.0
    ensures AngleSum(prim, pos, v, Ring(m, v), |Ring(m, v)|) >= 2.0 * prim.pi ==> GaussCurvature(prim, m, a, pos, v) <= 0.0
    ensures AngleSum(prim, pos, v, Ring(m, v), |Ring(m, v)|) == 2.0 * prim.pi ==> GaussCurvature(prim, m, a, pos, v) == 0.0
  {
    var s := AngleSum(prim, pos, v, Ring(m, v), |Ring(m, v)|);
    DefectSign(2.0 * prim.pi - s, a[v]);
  }

  lemma DefectSign(d: real, a: real)
    requires a >= 0.0
    ensures d >= 0.0 ==> d * 2.0 * a >= 0.0
    ensures d <= 0.0 ==> d * 2.0 * a <= 0.0
    ensures d == 0.0 ==> d * 2.0 * a == 0.0
  {
  }

  lemma {:induction false} AngleSumTranslated(prim: Primitives, pos: seq<Vec3>, t: Vec3, v: nat, ring: seq<Halfedge>, k: nat)
    requires NeighborsIn(ring, v, |pos|) && k <= |ring|
    ensures AngleSum(prim, Translate(pos, t), v, ring, k) == AngleSum(prim, pos, v, ring, k)
  {
    if k > 0 {
      AngleSumTranslated(prim, pos, t, v, ring, k - 1);
      SubTranslated(pos[ring[k - 1].to], pos[v], t);
      SubTranslated(pos[ring[k % |ring|].to], pos[v], t);
    }
  }

  /** Moving the whole mesh by one offset changes neither mean curvature
      (for the same edge and vertex weights, which the offset does not change
      either). */
  lemma MeanCurvaturesTranslated(prim: Primitives, m: Mesh, w: seq<real>, a: seq<real>, pos: seq<Vec3>, t: Vec3, v: nat)
    requires WellFormed(m) && PerEdge(m, w) && PerVertex(m, a) && PerVertex(m, pos) && v < |m.vertices|
    ensures UniformMeanCurvature(prim, m, Translate(pos, t), v) == UniformMeanCurvature(prim, m, pos, v)
    ensures MeanCurvature(prim, m, w, a, Translate(pos, t), v) == MeanCurvature(prim, m, w, a, pos, v)
  {
    if !IsBoundary(m, v) {
      var ring := Ring(m, v);
      UniformLaplaceSumTranslated(pos, t, v, ring, |ring|);
      CotanLaplaceSumTranslated(w, pos, t, v, ring, |ring|);
    }
  }

  /** Moving the whole mesh by one offset leaves every corner angle, hence
      the Gaussian curvature, unchanged. */
  lemma GaussCurvatureTranslated(prim: Primitives, m: Mesh, a: seq<real>, pos: seq<Vec3>, t: Vec3, v: nat)
    requires WellFormed(m) && PerVertex(m, a) && PerVertex(m, pos) && v < |m.vertices|
    ensures GaussCurvature(prim, m, a, Translate(pos, t), v) == GaussCurvature(prim, m, a, pos, v)
  {
    if !IsBoundary(m, v) {
      var ring := Ring(m, v);
      AngleSumTranslated(prim, pos, t, v, ring, |ring|);
    }
  }
}

/** Explicit Laplacian smoothing and feature enhancement.

    One smoothing iteration is a staged (Jacobi) update: every vertex gets
    p_v + d_v with d_v computed from the positions before the iteration, and
    all new positions are committed together. A boundary vertex has d_v = 0.
    At an interior vertex d_v is half the one-ring Laplacian, normalised by
    the number of neighbours (uniform) or by the sum of the cotangent weights
    (Laplace-Beltrami, with the weights recomputed from the current positions
    at the start of every iteration). */
module Smoothing {
  import opened Geometry
  import opened MeshTopology
  import opened Weights

  /** 0.5 * Σ (p_j - p_v) / |ring|, and 0 on the boundary. */
  function UniformDisplacement(prim: Primitives, m: Mesh, pos: seq<Vec3>, v: nat): Vec3
    requires WellFormed(m) && PerVertex(m, pos) && v < |m.vertices|
  {
    if IsBoundary(m, v) then Zero
    else
      var ring := Ring(m, v);
      Scale(DivVec(prim, UniformLaplaceSum(pos, v, ring, |ring|), |ring| as real), 0.5)
  }

  /** One iteration of uniform smoothing, every vertex moved from the old
      positions. */
  function UniformStep(prim: Primitives, m: Mesh, pos: seq<Vec3>): (next: seq<Vec3>)
    requires WellFormed(m) && PerVertex(m, pos)
    ensures PerVertex(m, next)
  {
    seq(|m.vertices|, v requires 0 <= v < |m.vertices| => Add(pos[v], UniformDisplacement(prim, m, pos, v)))
  }

  /** The positions after k iterations of uniform smoothing. */
  function UniformSmoothed(prim: Primitives, m: Mesh, pos: seq<Vec3>, k: nat): (r: seq<Vec3>)
    requires WellFormed(m) && PerVertex(m, pos)
    ensures PerVertex(m, r)
  {
    if k == 0 then pos else UniformStep(prim, m, UniformSmoothed(prim, m, pos, k - 1))
  }

  /** 0.5 * Σ w_e (p_j - p_v) / Σ w_e, and 0 on the boundary. */
  function CotanDisplacement(prim: Primitives, m: Mesh, w: seq<real>, pos: seq<Vec3>, v: nat): Vec3
    requires WellFormed(m) && PerEdge(m, w) && PerVertex(m, pos) && v < |m.vertices|
  {
    if IsBoundary(m, v) then Zero
    else
      var ring := Ring(m, v);
      Scale(DivVec(prim, CotanLaplaceSum(w, pos, v, ring, |ring|), WeightSum(w, ring, |ring|)), 0.5)
  }

  /** One iteration of Laplace-Beltrami smoothing: the edge weights are those
      of the positions before the iteration. */
  function CotanStep(prim: Primitives, m: Mesh, pos: seq<Vec3>): (next: seq<Vec3>)
    requires WellFormed(m) && PerVertex(m, pos)
    ensures PerVertex(m, next)
  {
    var w := EdgeWeights(prim, m, pos);
    seq(|m.vertices|, v requires 0 <= v < |m.vertices| => Add(pos[v], CotanDisplacement(prim, m, w, pos, v)))
  }

  /** The positions after k iterations of Laplace-Beltrami smoothing. */
  function CotanSmoothed(prim: Primitives, m: Mesh, pos: seq<Vec3>, k: nat): (r: seq<Vec3>)
    requires WellFormed(m) && PerVertex(m, pos)
    ensures PerVertex(m, r)
  {
    if k == 0 then pos else CotanStep(prim, m, CotanSmoothed(prim, m, pos, k - 1))
  }

  /** Feature enhancement: `p += (old - p) * c` applied to the smoothed
      positions p and the positions before smoothing. */
  function Enhanced(smoothed: seq<Vec3>, orig: seq<Vec3>, c: nat): (r: seq<Vec3>)
    requires |smoothed| == |orig|
    ensures |r| == |orig|
  {
    seq(|orig|, v requires 0 <= v < |orig| => Add(smoothed[v], Scale(Sub(orig[v], smoothed[v]), c as real)))
  }

  lemma AddZero(p: Vec3)
    ensures Add(p, Zero) == p
  {
  }

  /** Neither smoother ever moves a boundary vertex, whatever the number of
      iterations (0 iterations leave every vertex where it is). */
  lemma {:induction false} SmoothingKeepsBoundary(prim: Primitives, m: Mesh, pos: seq<Vec3>, k: nat, v: nat)
    requires WellFormed(m) && PerVertex(m, pos) && v < |m.vertices| && IsBoundary(m, v)
    ensures UniformSmoothed(prim, m, pos, k)[v] == pos[v]
    ensures CotanSmoothed(prim, m, pos, k)[v] == pos[v]
  {
    if k > 0 {
      SmoothingKeepsBoundary(prim, m, pos, k - 1, v);
      AddZero(pos[v]);
    }
  }

  /** A new position reads only the old positions of the vertex and of its
      neighbours: two position vectors that agree there give the same new
      position (for the cotangent step, with the same edge weights). */
  lemma StepIsLocal(prim: Primitives, m: Mesh, w: seq<real>, pos: seq<Vec3>, pos': seq<Vec3>, v: nat)
    requires WellFormed(m) && PerEdge(m, w) && PerVertex(m, pos) && PerVertex(m, pos') && v < |m.vertices|
    requires pos[v] == pos'[v]
    requires forall j | 0 <= j < |Ring(m, v)| :: pos[Ring(m, v)[j].to] == pos'[Ring(m, v)[j].to]
    ensures UniformStep(prim, m, pos)[v] == UniformStep(prim, m, pos')[v]
    ensures Add(pos[v], CotanDisplacement(prim, m, w, pos, v)) == Add(pos'[v], CotanDisplacement(prim, m, w, pos', v))
  {
    var ring := Ring(m, v);
    LaplaceSumsAreLocal(w, pos, pos', v, ring, |ring|);
  }

  lemma DivideZero(prim: Primitives, s: real)
    requires s != 0.0
    ensures Scale(DivVec(prim, Zero, s), 0.5) == Zero
  {
  }

  /** A vertex whose one-ring differences add up to 0 stays where it is
      (for the cotangent step, when its weights do not add up to 0). */
  lemma BalancedVertexStays(prim: Primitives, m: Mesh, w: seq<real>, pos: seq<Vec3>, v: nat)
    requires WellFormed(m) && PerEdge(m, w) && PerVertex(m, pos) && v < |m.vertices|
    ensures UniformLaplaceSum(pos, v, Ring(m, v), |Ring(m, v)|) == Zero ==> UniformStep(prim, m, pos)[v] == pos[v]
    ensures CotanLaplaceSum(w, pos, v, Ring(m, v), |Ring(m, v)|) == Zero && WeightSum(w, Ring(m, v), |Ring(m, v)|) != 0.0 ==>
              Add(pos[v], CotanDisplacement(prim, m, w, pos, v)) == pos[v]
  {
    AddZero(pos[v]);
    if !IsBoundary(m, v) {
      var ring := Ring(m, v);
      DivideZero(prim, |ring| as real);
      if WeightSum(w, ring, |ring|) != 0.0 {
        DivideZero(prim, WeightSum(w, ring, |ring|));
      }
    }
  }

  lemma AddTranslated(p: Vec3, d: Vec3, t: Vec3)
    ensures Add(Add(p, t), d) == Add(Add(p, d), t)
  {
  }

  /** Smoothing a translated mesh gives the translated result of smoothing. */
  lemma UniformStepTranslated(prim: Primitives, m: Mesh, pos: seq<Vec3>, t: Vec3)
    requires WellFormed(m) && PerVertex(m, pos)
    ensures UniformStep(prim, m, Translate(pos, t)) == Translate(UniformStep(prim, m, pos), t)
  {
    var pos' := Translate(pos, t);
    forall v | 0 <= v < |m.vertices|
      ensures UniformStep(prim, m, pos')[v] == Translate(UniformStep(prim, m, pos), t)[v]
    {
      UniformDisplacementTranslated(prim, m, pos, t, v);
      AddTranslated(pos[v], UniformDisplacement(prim, m, pos, v), t);
    }
  }

  lemma UniformDisplacementTranslated(prim: Primitives, m: Mesh, pos: seq<Vec3>, t: Vec3, v: nat)
    requires WellFormed(m) && PerVertex(m, pos) && v < |m.vertices|
    ensures UniformDisplacement(prim, m, Translate(pos, t), v) == UniformDisplacement(prim, m, pos, v)
  {
    if !IsBoundary(m, v) {
      var ring := Ring(m, v);
      UniformLaplaceSumTranslated(pos, t, v, ring, |ring|);
    }
  }

  lemma CotanDisplacementTranslated(prim: Primitives, m: Mesh, w: seq<real>, pos: seq<Vec3>, t: Vec3, v: nat)
    requires WellFormed(m) && PerEdge(m, w) && PerVertex(m, pos) && v < |m.vertices|
    ensures CotanDisplacement(prim, m, w, Translate(pos, t), v) == CotanDisplacement(prim, m, w, pos, v)
  {
    if !IsBoundary(m, v) {
      var ring := Ring(m, v);
      CotanLaplaceSumTranslated(w, pos, t, v, ring, |ring|);
    }
  }

  /** The same holds for the cotangent step: the recomputed edge weights do
      not see the offset. */
  lemma CotanStepTranslated(prim: Primitives, m: Mesh, pos: seq<Vec3>, t: Vec3)
    requires WellFormed(m) && PerVertex(m, pos)
    ensures CotanStep(prim, m, Translate(pos, t)) == Translate(CotanStep(prim, m, pos), t)
  {
    var pos' := Translate(pos, t);
    var w := EdgeWeights(prim, m, pos);
    EdgeWeightsTranslated(prim, m, pos, t);
    forall v | 0 <= v < |m.vertices|
      ensures CotanStep(prim, m, pos')[v] == Translate(CotanStep(prim, m, pos), t)[v]
    {
      CotanDisplacementTranslated(prim, m, w, pos, t, v);
      AddTranslated(pos[v], CotanDisplacement(prim, m, w, pos, v), t);
    }
  }

  /** Any number of iterations of either smoother commutes with moving the
      whole mesh by one offset. */
  lemma {:induction false} SmoothedTranslated(prim: Primitives, m: Mesh, pos: seq<Vec3>, t: Vec3, k: nat)
    requires WellFormed(m) && PerVertex(m, pos)
    ensures UniformSmoothed(prim, m, Translate(pos, t), k) == Translate(UniformSmoothed(prim, m, pos, k), t)
    ensures CotanSmoothed(prim, m, Translate(pos, t), k) == Translate(CotanSmoothed(prim, m, pos, k), t)
  {
    if k > 0 {
      SmoothedTranslated(prim, m, pos, t, k - 1);
      UniformStepTranslated(prim, m, UniformSmoothed(prim, m, pos, k - 1), t);
      CotanStepTranslated(prim, m, CotanSmoothed(prim, m, pos, k - 1), t);
    }
  }

  /** Coefficient 1 restores the positions from before smoothing. */
  lemma EnhanceByOne(smoothed: seq<Vec3>, orig: seq<Vec3>)
    requires |smoothed| == |orig|
    ensures Enhanced(smoothed, orig, 1) == orig
  {
    forall v | 0 <= v < |orig|
      ensures Enhanced(smoothed, orig, 1)[v] == orig[v]
    {
      EnhanceCoordinates(smoothed[v], orig[v], 1);
    }
  }

  /** Coefficient 0 keeps the smoothed positions. */
  lemma EnhanceByZero(smoothed: seq<Vec3>, orig: seq<Vec3>)
    requires |smoothed| == |orig|
    ensures Enhanced(smoothed, orig, 0) == smoothed
  {
    forall v | 0 <= v < |orig|
      ensures Enhanced(smoothed, orig, 0)[v] == smoothed[v]
    {
      EnhanceCoordinates(smoothed[v], orig[v], 0);
    }
  }

  lemma EnhanceCoordinate(s: real, o: real, c: real)
    ensures s + (o - s) * c - o == (o - s) * (c - 1.0)
  {
  }

  lemma EnhanceCoordinates(s: Vec3, o: Vec3, c: nat)
    ensures Sub(Add(s, Scale(Sub(o, s), c as real)), o) == Scale(Sub(o, s), (c as real) - 1.0)
    ensures c == 0 ==> Add(s, Scale(Sub(o, s), c as real)) == s
    ensures c == 1 ==> Add(s, Scale(Sub(o, s), c as real)) == o
  {
    EnhanceCoordinate(s.x, o.x, c as real);
    EnhanceCoordinate(s.y, o.y, c as real);
    EnhanceCoordinate(s.z, o.z, c as real);
  }

  /** The enhanced point lies on the line through the smoothed and the
      original point, c - 1 times the smoothing displacement beyond the
      original: coefficients above 1 exaggerate what smoothing removed. */
  lemma EnhanceExtrapolates(smoothed: seq<Vec3>, orig: seq<Vec3>, c: nat, v: nat)
    requires |smoothed| == |orig| && v < |orig|
    ensures Sub(Enhanced(smoothed, orig, c)[v], orig[v]) == Scale(Sub(orig[v], smoothed[v]), (c as real) - 1.0)
  {
    EnhanceCoordinates(smoothed[v], orig[v], c);
  }

  /** A vertex that smoothing left in place stays there after enhancement;
      in particular no boundary vertex moves. */
  lemma EnhanceKeepsBoundary(prim: Primitives, m: Mesh, pos: seq<Vec3>, k: nat, c: nat, v: nat)
    requires WellFormed(m) && PerVertex(m, pos) && v < |m.vertices| && IsBoundary(m, v)
    ensures Enhanced(UniformSmoothed(prim, m, pos, k), pos, c)[v] == pos[v]
    ensures Enhanced(CotanSmoothed(prim, m, pos, k), pos, c)[v] == pos[v]
  {
    SmoothingKeepsBoundary(prim, m, pos, k, v);
    EnhanceCoordinates(pos[v], pos[v], c);
    SubSelf(pos[v], c as real);
  }

  lemma SubSelf(p: Vec3, c: real)
    ensures Add(p, Scale(Sub(p, p), c)) == p
  {
  }
}

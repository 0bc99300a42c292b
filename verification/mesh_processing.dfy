/** The mesh-processing object: a mesh with its named per-vertex and per-edge
    properties, and the operations that update them in place.

    Every property the operations use is an array indexed by vertex or edge.
    The connectivity never changes; the positions `points` do. */
module Processing {
  import opened Geometry
  import opened MeshTopology
  import opened Weights
  import opened SparseSystem
  import Fairing = ImplicitFairing
  import Minimal = MinimalSurface
  import opened Curvature
  import opened Smoothing

  /** A sparse solver: from the triplets of A and the rows of B, some X with
      A X = B when the factorisation succeeds. */
  type Solver = (seq<Triplet>, seq<Vec3>) -> seq<Vec3>

  /** The solver returns one row per right-hand-side row. */
  ghost predicate RowPerRhsRow(solve: Solver) {
    forall ts, b :: |solve(ts, b)| == |b|
  }

  /** `p += 1. * (x - p)` leaves exactly x. */
  lemma CopyBackExact(p: Vec3, x: Vec3)
    ensures Add(p, Scale(Sub(x, p), 1.0)) == x
  {
  }

  class MeshProcessing {
    const prim: Primitives
    const topo: Mesh
    /** The positions as loaded (the copy of the mesh taken at load time). */
    const initPoints: seq<Vec3>
    const points: array<Vec3>         // v:point
    const newPos: array<Vec3>         // v:new_pos, the staged positions of a smoothing iteration
    const oldPos: array<Vec3>         // v:old_pos, the snapshot taken before enhancement
    const eWeight: array<real>        // e:weight
    const vWeight: array<real>        // v:weight
    const uniCurvature: array<real>   // v:unicurvature
    const curvature: array<real>      // v:curvature
    const gaussCurvature: array<real> // v:gauss_curvature

    ghost predicate Valid() {
      && WellFormed(topo)
      && |initPoints| == |topo.vertices|
      && points.Length == |topo.vertices| && newPos.Length == |topo.vertices| && oldPos.Length == |topo.vertices|
      && eWeight.Length == |topo.edges| && vWeight.Length == |topo.vertices|
      && uniCurvature.Length == |topo.vertices| && curvature.Length == |topo.vertices|
      && gaussCurvature.Length == |topo.vertices|
      && points != newPos && points != oldPos && newPos != oldPos
      && eWeight != vWeight && eWeight != uniCurvature && eWeight != curvature && eWeight != gaussCurvature
      && vWeight != uniCurvature && vWeight != curvature && vWeight != gaussCurvature
      && uniCurvature != curvature && uniCurvature != gaussCurvature && curvature != gaussCurvature
    }

    /** A loaded mesh: the positions are kept as the initial copy, and the
        mesh properties are computed from them, as after loading: both
        weights (every vertex weight starting from its default 0), then the
        three curvatures from those weights. */
    constructor(prim: Primitives, topo: Mesh, pos: seq<Vec3>)
      requires WellFormed(topo) && PerVertex(topo, pos)
      ensures Valid()
      ensures this.prim == prim && this.topo == topo
      ensures points[..] == pos && initPoints == pos
      ensures eWeight[..] == EdgeWeights(prim, topo, pos)
      ensures vWeight[..] == VertexWeights(prim, topo, pos, seq(|pos|, _ => 0.0))
      ensures forall v | 0 <= v < uniCurvature.Length :: uniCurvature[v] == UniformMeanCurvature(prim, topo, pos, v)
      ensures forall v | 0 <= v < curvature.Length ::
                curvature[v] == MeanCurvature(prim, topo, eWeight[..], vWeight[..], pos, v)
      ensures forall v | 0 <= v < gaussCurvature.Length :: gaussCurvature[v] == GaussCurvature(prim, topo, vWeight[..], pos, v)
      ensures fresh(points) && fresh(newPos) && fresh(oldPos) && fresh(eWeight) && fresh(vWeight)
      ensures fresh(uniCurvature) && fresh(curvature) && fresh(gaussCurvature)
    {
      var n := |pos|;
      this.prim := prim;
      this.topo := topo;
      initPoints := pos;
      points := new Vec3[n](i requires 0 <= i < n => pos[i]);
      newPos := new Vec3[n](_ => Zero);
      oldPos := new Vec3[n](_ => Zero);
      eWeight := new real[|topo.edges|](_ => 0.0);
      vWeight := new real[n](_ => 0.0);
      uniCurvature := new real[n](_ => 0.0);
      curvature := new real[n](_ => 0.0);
      gaussCurvature := new real[n](_ => 0.0);
      new;
      assert points[..] == pos;
      assert vWeight[..] == seq(n, _ => 0.0);
      CalcWeights();
      CalcUniformMeanCurvature();
      CalcMeanCurvature();
      CalcGaussCurvature();
    }

    /** Every edge weight is reset to 0 and then receives the cotangent term
        of each of its two halfedges that is not a boundary halfedge. */
    method CalcEdgesWeights()
      requires Valid()
      modifies eWeight
      ensures eWeight[..] == EdgeWeights(prim, topo, points[..])
    {
      var e := 0;
      while e < eWeight.Length
        invariant 0 <= e <= eWeight.Length
        invariant forall f | 0 <= f < e :: eWeight[f] == EdgeWeight(prim, topo, points[..], f)
      {
        eWeight[e] := 0.0;
        var h0 := topo.edges[e].h0;
        var h1 := topo.edges[e].h1;
        var p0 := points[h0.to];
        var p1 := points[h1.to];
        if !h0.boundary {
          var p2 := points[h0.opposite];
          var d0 := Sub(p0, p2);
          var d1 := Sub(p1, p2);
          eWeight[e] := eWeight[e] + Div(prim, Dot(d0, d1), prim.norm(Cross(d0, d1)));
        }
        if !h1.boundary {
          var p2 := points[h1.opposite];
          var d0 := Sub(p0, p2);
          var d1 := Sub(p1, p2);
          eWeight[e] := eWeight[e] + Div(prim, Dot(d0, d1), prim.norm(Cross(d0, d1)));
        }
        e := e + 1;
      }
    }

    /** The area terms of the faces around v, accumulated in circulator order. */
    method AreaAround(v: nat) returns (area: real)
      requires Valid() && v < |topo.vertices|
      ensures area == AreaSum(prim, topo, points[..], v, |topo.vertices[v].faces|)
    {
      var faces := topo.vertices[v].faces;
      area := 0.0;
      var k := 0;
      while k < |faces|
        invariant 0 <= k <= |faces|
        invariant area == AreaSum(prim, topo, points[..], v, k)
      {
        var p := points[faces[k].a];
        var q := points[faces[k].b];
        var r := points[faces[k].c];
        area := area + prim.norm(Cross(Sub(q, p), Sub(r, p))) * 0.5 * 0.3333;
        k := k + 1;
      }
    }

    /** Every vertex with incident faces gets 0.5 / area; a vertex without
        faces is skipped and keeps its weight. */
    method CalcVerticesWeights()
      requires Valid()
      modifies vWeight
      ensures vWeight[..] == VertexWeights(prim, topo, points[..], old(vWeight[..]))
    {
      var v := 0;
      while v < vWeight.Length
        invariant 0 <= v <= vWeight.Length
        invariant forall u | 0 <= u < v :: vWeight[u] == VertexWeight(prim, topo, points[..], old(vWeight[..]), u)
        invariant forall u | v <= u < vWeight.Length :: vWeight[u] == old(vWeight[u])
      {
        if |topo.vertices[v].faces| != 0 {
          var area := AreaAround(v);
          vWeight[v] := Div(prim, 0.5, area);
        }
        v := v + 1;
      }
    }

    method CalcWeights()
      requires Valid()
      modifies eWeight, vWeight
      ensures eWeight[..] == EdgeWeights(prim, topo, points[..])
      ensures vWeight[..] == VertexWeights(prim, topo, points[..], old(vWeight[..]))
    {
      CalcEdgesWeights();
      CalcVerticesWeights();
    }

    /** Σ (p_j - p_v) over the one-ring of v, and the number of neighbours. */
    method UniformRingSum(v: nat) returns (laplace: Vec3, count: nat)
      requires Valid() && v < |topo.vertices|
      ensures laplace == UniformLaplaceSum(points[..], v, Ring(topo, v), |Ring(topo, v)|)
      ensures count == |Ring(topo, v)|
    {
      var ring := Ring(topo, v);
      laplace, count := Zero, 0;
      while count < |ring|
        invariant 0 <= count <= |ring|
        invariant laplace == UniformLaplaceSum(points[..], v, ring, count)
      {
        laplace := Add(laplace, Sub(points[ring[count].to], points[v]));
        count := count + 1;
      }
    }

    /** Σ w_e (p_j - p_v) over the one-ring of v, and Σ w_e. */
    method CotanRingSum(v: nat) returns (laplace: Vec3, ww: real)
      requires Valid() && v < |topo.vertices|
      ensures laplace == CotanLaplaceSum(eWeight[..], points[..], v, Ring(topo, v), |Ring(topo, v)|)
      ensures ww == WeightSum(eWeight[..], Ring(topo, v), |Ring(topo, v)|)
    {
      var ring := Ring(topo, v);
      laplace, ww := Zero, 0.0;
      var k := 0;
      while k < |ring|
        invariant 0 <= k <= |ring|
        invariant laplace == CotanLaplaceSum(eWeight[..], points[..], v, ring, k)
        invariant ww == WeightSum(eWeight[..], ring, k)
      {
        var w := eWeight[ring[k].edge];
        ww := ww + w;
        laplace := Add(laplace, Scale(Sub(points[ring[k].to], points[v]), w));
        k := k + 1;
      }
    }

    /** The angles at v between consecutive neighbours, the last one paired
        with the first. */
    method RingAngleSum(v: nat) returns (angles: real)
      requires Valid() && v < |topo.vertices|
      ensures angles == AngleSum(prim, points[..], v, Ring(topo, v), |Ring(topo, v)|)
    {
      var ring := Ring(topo, v);
      angles := 0.0;
      var k := 0;
      while k < |ring|
        invariant 0 <= k <= |ring|
        invariant angles == AngleSum(prim, points[..], v, ring, k)
      {
        var next := (k + 1) % |ring|;  // the circulator wraps around
        var d0 := prim.normalize(Sub(points[ring[k].to], points[v]));
        var d1 := prim.normalize(Sub(points[ring[next].to], points[v]));
        var cosAngle := Clamp(Dot(d0, d1));
        angles := angles + prim.acos(cosAngle);
        k := k + 1;
      }
    }

    method CalcUniformMeanCurvature()
      requires Valid()
      modifies uniCurvature
      ensures forall v | 0 <= v < uniCurvature.Length ::
                uniCurvature[v] == UniformMeanCurvature(prim, topo, points[..], v)
    {
      var v := 0;
      while v < uniCurvature.Length
        invariant 0 <= v <= uniCurvature.Length
        invariant forall u | 0 <= u < v :: uniCurvature[u] == UniformMeanCurvature(prim, topo, points[..], u)
      {
        var curv := 0.0;
        if !topo.vertices[v].boundary {
          var laplace, n := UniformRingSum(v);
          laplace := DivVec(prim, laplace, n as real);
          curv := 0.5 * prim.norm(laplace);
        }
        uniCurvature[v] := curv;
        v := v + 1;
      }
    }

    method CalcMeanCurvature()
      requires Valid()
      modifies curvature
      ensures forall v | 0 <= v < curvature.Length ::
                curvature[v] == MeanCurvature(prim, topo, eWeight[..], vWeight[..], points[..], v)
    {
      var v := 0;
      while v < curvature.Length
        invariant 0 <= v <= curvature.Length
        invariant forall u | 0 <= u < v ::
                    curvature[u] == MeanCurvature(prim, topo, eWeight[..], vWeight[..], points[..], u)
      {
        var curv := 0.0;
        if !topo.vertices[v].boundary {
          var laplace, ww := CotanRingSum(v);
          laplace := Scale(laplace, vWeight[v]);
          curv := 0.5 * prim.norm(laplace);
        }
        curvature[v] := curv;
        v := v + 1;
      }
    }

    method CalcGaussCurvature()
      requires Valid()
      modifies gaussCurvature
      ensures forall v | 0 <= v < gaussCurvature.Length ::
                gaussCurvature[v] == GaussCurvature(prim, topo, vWeight[..], points[..], v)
    {
      var v := 0;
      while v < gaussCurvature.Length
        invariant 0 <= v <= gaussCurvature.Length
        invariant forall u | 0 <= u < v :: gaussCurvature[u] == GaussCurvature(prim, topo, vWeight[..], points[..], u)
      {
        var curv := 0.0;
        if !topo.vertices[v].boundary {
          var angles := RingAngleSum(v);
          curv := (2.0 * prim.pi - angles) * 2.0 * vWeight[v];
        }
        gaussCurvature[v] := curv;
        v := v + 1;
      }
    }
  
    /** Commit the staged positions: points := newPos, vertex by vertex. */
    method CommitNewPositions()
      requires Valid()
      modifies points
      ensures points[..] == newPos[..]
    {
      var v := 0;
      while v < points.Length
        invariant 0 <= v <= points.Length
        invariant forall u | 0 <= u < v :: points[u] == newPos[u]
      {
        points[v] := newPos[v];
        v := v + 1;
      }
    }

    /** newPos[v] := p_v + 0.5 * L_u(v) at every interior vertex, newPos[v] := p_v
        at every boundary vertex, L_u(v) the average of p_j - p_v over the
        one-ring. */
    method StageUniformPositions()
      requires Valid()
      modifies newPos
      ensures newPos[..] == UniformStep(prim, topo, points[..])
    {
      var v := 0;
      while v < points.Length
        invariant 0 <= v <= points.Length
        invariant forall u | 0 <= u < v :: newPos[u] == Add(points[u], UniformDisplacement(prim, topo, points[..], u))
      {
        var laplacian := Zero;
        if !topo.vertices[v].boundary {
          var sum, w := UniformRingSum(v);
          laplacian := DivVec(prim, sum, w as real);  // normalise by the number of neighbours
          laplacian := Scale(laplacian, 0.5);         // damping
        }
        newPos[v] := Add(points[v], laplacian);
        v := v + 1;
      }
    }

    /** One uniform smoothing iteration: every new position is staged from
        the old positions, then all are committed. */
    method UniformSmoothStep()
      requires Valid()
      modifies points, newPos
      ensures points[..] == UniformStep(prim, topo, old(points[..]))
    {
      StageUniformPositions();
      CommitNewPositions();
    }

    method UniformSmooth(iterations: nat)
      requires Valid()
      modifies points, newPos
      ensures points[..] == UniformSmoothed(prim, topo, old(points[..]), iterations)
    {
      ghost var start := points[..];
      var iter := 0;
      while iter < iterations
        invariant 0 <= iter <= iterations
        invariant points[..] == UniformSmoothed(prim, topo, start, iter)
      {
        UniformSmoothStep();
        iter := iter + 1;
      }
    }

    /** newPos[v] := p_v + 0.5 * L_w(v) at every interior vertex, newPos[v] := p_v
        at every boundary vertex, L_w(v) the weighted average of p_j - p_v
        over the one-ring with the current edge weights. */
    method StageCotanPositions()
      requires Valid()
      modifies newPos
      ensures forall v | 0 <= v < newPos.Length ::
                newPos[v] == Add(points[v], CotanDisplacement(prim, topo, eWeight[..], points[..], v))
    {
      var v := 0;
      while v < points.Length
        invariant 0 <= v <= points.Length
        invariant forall u | 0 <= u < v ::
                    newPos[u] == Add(points[u], CotanDisplacement(prim, topo, eWeight[..], points[..], u))
      {
        var laplace := Zero;
        if !topo.vertices[v].boundary {
          var sum, ww := CotanRingSum(v);
          laplace := DivVec(prim, sum, ww);  // normalise by the sum of the weights
          laplace := Scale(laplace, 0.5);    // damping
        }
        newPos[v] := Add(points[v], laplace);
        v := v + 1;
      }
    }

    /** One Laplace-Beltrami smoothing iteration: the edge weights are
        recomputed from the current positions, then every new position is
        staged from the old positions and all are committed. */
    method CotanSmoothStep()
      requires Valid()
      modifies points, newPos, eWeight
      ensures eWeight[..] == EdgeWeights(prim, topo, old(points[..]))
      ensures points[..] == CotanStep(prim, topo, old(points[..]))
    {
      CalcEdgesWeights();
      StageCotanPositions();
      assert newPos[..] == CotanStep(prim, topo, points[..]);
      CommitNewPositions();
    }

    method Smooth(iterations: nat)
      requires Valid()
      modifies points, newPos, eWeight
      ensures points[..] == CotanSmoothed(prim, topo, old(points[..]), iterations)
      ensures iterations == 0 ==> eWeight[..] == old(eWeight[..])
      ensures iterations > 0 ==>
                eWeight[..] == EdgeWeights(prim, topo, CotanSmoothed(prim, topo, old(points[..]), iterations - 1))
    {
      if iterations == 0 {
        return;
      }
      ghost var start := points[..];
      CotanSmoothStep();
      var iter := 1;
      while iter < iterations
        invariant 1 <= iter <= iterations
        invariant points[..] == CotanSmoothed(prim, topo, start, iter)
        invariant eWeight[..] == EdgeWeights(prim, topo, CotanSmoothed(prim, topo, start, iter - 1))
      {
        CotanSmoothStep();
        iter := iter + 1;
      }
    }

    /** oldPos := points. */
    method SnapshotPositions()
      requires Valid()
      modifies oldPos
      ensures oldPos[..] == points[..]
    {
      var v := 0;
      while v < oldPos.Length
        invariant 0 <= v <= oldPos.Length
        invariant forall u | 0 <= u < v :: oldPos[u] == points[u]
      {
        oldPos[v] := points[v];
        v := v + 1;
      }
    }

    /** `p += (old - p) * coefficient` at every vertex. */
    method PullFromSnapshot(coefficient: nat)
      requires Valid()
      modifies points
      ensures points[..] == Enhanced(old(points[..]), oldPos[..], coefficient)
    {
      var v := 0;
      while v < points.Length
        invariant 0 <= v <= points.Length
        invariant forall u | 0 <= u < v :: points[u] == Enhanced(old(points[..]), oldPos[..], coefficient)[u]
        invariant forall u | v <= u < points.Length :: points[u] == old(points[u])
      {
        points[v] := Add(points[v], Scale(Sub(oldPos[v], points[v]), coefficient as real));
        v := v + 1;
      }
    }

    method UniformLaplacianEnhanceFeature(iterations: nat, coefficient: nat)
      requires Valid()
      modifies points, newPos, oldPos
      ensures points[..] == Enhanced(UniformSmoothed(prim, topo, old(points[..]), iterations), old(points[..]), coefficient)
    {
      SnapshotPositions();
      UniformSmooth(iterations);
      PullFromSnapshot(coefficient);
    }

    method LaplaceBeltramiEnhanceFeature(iterations: nat, coefficient: nat)
      requires Valid()
      modifies points, newPos, oldPos, eWeight
      ensures points[..] == Enhanced(CotanSmoothed(prim, topo, old(points[..]), iterations), old(points[..]), coefficient)
      ensures iterations == 0 ==> eWeight[..] == old(eWeight[..])
      ensures iterations > 0 ==>
                eWeight[..] == EdgeWeights(prim, topo, CotanSmoothed(prim, topo, old(points[..]), iterations - 1))
    {
      SnapshotPositions();
      Smooth(iterations);
      PullFromSnapshot(coefficient);
    }

    /** The triplets pushed for vertex i of the backward-Euler system: one
        (i, j, -timestep * w_e) per outgoing halfedge (to j, over edge e),
        then the diagonal (i, i, 1/a_i + timestep * Σ w_e). */
    method ImplicitRow(i: nat, timestep: real) returns (row: seq<Triplet>)
      requires Valid() && i < |topo.vertices|
      ensures row == Fairing.Row(prim, topo, eWeight[..], vWeight[..], timestep, i)
    {
      ghost var w := eWeight[..];
      var ring := Ring(topo, i);
      var ww := 0.0;
      row := [];
      var k := 0;
      while k < |ring|
        invariant 0 <= k <= |ring|
        invariant row == Fairing.OffDiagonal(w, ring, timestep, i, k)
        invariant ww == WeightSum(w, ring, k)
      {
        var eweight := eWeight[ring[k].edge];
        assert eweight == w[ring[k].edge];
        ww := ww + eweight;
        row := row + [Triplet(i, ring[k].to, -timestep * eweight)];
        Fairing.OffDiagonalSnoc(w, ring, timestep, i, k);
        assert Triplet(i, ring[k].to, -timestep * eweight) == Triplet(i, ring[k].to, -timestep * w[ring[k].edge]);
        k := k + 1;
      }
      var vweight := vWeight[i];
      assert vweight == vWeight[..][i];
      row := row + [Triplet(i, i, Div(prim, 1.0, vweight) + timestep * ww)];
      assert Fairing.Diagonal(prim, w, ring, vWeight[..][i], timestep, i) == Triplet(i, i, Div(prim, 1.0, vweight) + timestep * ww);
    }

    /** The matrix A (as triplets, in the order they are pushed) and the
        right-hand side B of one backward-Euler step, from the current
        positions and weights. */
    method AssembleImplicit(timestep: real) returns (triplets: seq<Triplet>, b: seq<Vec3>)
      requires Valid()
      ensures triplets == Fairing.Triplets(prim, topo, eWeight[..], vWeight[..], timestep)
      ensures b == Fairing.Rhs(prim, topo, points[..], vWeight[..])
    {
      ghost var rows := Fairing.RowList(prim, topo, eWeight[..], vWeight[..], timestep);
      ghost var rhs := Fairing.Rhs(prim, topo, points[..], vWeight[..]);
      var n := points.Length;
      triplets, b := [], [];
      var i := 0;
      while i < n
        invariant 0 <= i <= n
        invariant triplets == Flatten(rows[..i])
        invariant b == rhs[..i]
      {
        b := b + [DivVec(prim, points[i], vWeight[i])];  // rhs row
        assert rhs[..i + 1] == rhs[..i] + [rhs[i]];
        var row := ImplicitRow(i, timestep);             // lhs row
        assert rows[..i + 1][..i] == rows[..i];
        triplets := triplets + row;
        i := i + 1;
      }
      assert rows[..n] == rows && rhs[..n] == rhs;
    }

    /** The triplets pushed for vertex i of the minimal-surface system: the
        identity row at a boundary vertex; otherwise one (i, j, -w_e) per
        outgoing halfedge, then the diagonal (i, i, Σ w_e). */
    method MinimalRow(i: nat) returns (row: seq<Triplet>)
      requires Valid() && i < |topo.vertices|
      ensures row == Minimal.Row(topo, eWeight[..], i)
    {
      if topo.vertices[i].boundary {
        return [Triplet(i, i, 1.0)];
      }
      var ring := Ring(topo, i);
      var ww := 0.0;
      row := [];
      var k := 0;
      while k < |ring|
        invariant 0 <= k <= |ring|
        invariant row == Minimal.NegatedWeights(eWeight[..], ring, i, k)
        invariant ww == WeightSum(eWeight[..], ring, k)
      {
        var eweight := eWeight[ring[k].edge];
        ww := ww + eweight;
        row := row + [Triplet(i, ring[k].to, -eweight)];
        k := k + 1;
      }
      row := row + [Triplet(i, i, ww)];
    }

    /** The Laplace matrix with fixed boundary rows (as triplets, in the order
        they are pushed) and its right-hand side: the loaded position at a
        boundary vertex, 0 elsewhere. */
    method AssembleMinimal() returns (triplets: seq<Triplet>, b: seq<Vec3>)
      requires Valid()
      ensures triplets == Minimal.Triplets(topo, eWeight[..])
      ensures b == Minimal.Rhs(topo, initPoints)
    {
      ghost var rows := Minimal.RowList(topo, eWeight[..]);
      ghost var rhs := Minimal.Rhs(topo, initPoints);
      var n := points.Length;
      triplets, b := [], [];
      var i := 0;
      while i < n
        invariant 0 <= i <= n
        invariant triplets == Flatten(rows[..i])
        invariant b == rhs[..i]
      {
        if topo.vertices[i].boundary {
          b := b + [initPoints[i]];
        } else {
          b := b + [Zero];
        }
        assert rhs[..i + 1] == rhs[..i] + [rhs[i]];
        var row := MinimalRow(i);
        assert rows[..i + 1][..i] == rows[..i];
        triplets := triplets + row;
        i := i + 1;
      }
      assert rows[..n] == rows && rhs[..n] == rhs;
    }

    /** The weight properties are removed after a solve; the next access
        recreates them with the default 0. */
    method RemoveWeights()
      requires Valid()
      modifies eWeight, vWeight
      ensures forall e | 0 <= e < eWeight.Length :: eWeight[e] == 0.0
      ensures forall v | 0 <= v < vWeight.Length :: vWeight[v] == 0.0
    {
      var e := 0;
      while e < eWeight.Length
        invariant 0 <= e <= eWeight.Length
        invariant forall f | 0 <= f < e :: eWeight[f] == 0.0
      {
        eWeight[e] := 0.0;
        e := e + 1;
      }
      var v := 0;
      while v < vWeight.Length
        invariant 0 <= v <= vWeight.Length
        invariant forall u | 0 <= u < v :: vWeight[u] == 0.0
        invariant forall f | 0 <= f < eWeight.Length :: eWeight[f] == 0.0
      {
        vWeight[v] := 0.0;
        v := v + 1;
      }
    }

    /** One backward-Euler step of mean-curvature flow: the weights are
        computed from the current positions, A X = B is assembled and handed
        to the solver, its rows become the new positions, and the weights are
        removed. */
    method ImplicitSmoothing(timestep: real, solve: Solver)
      requires Valid() && RowPerRhsRow(solve)
      modifies points, eWeight, vWeight
      ensures points[..] == solve(Fairing.Triplets(prim, topo, EdgeWeights(prim, topo, old(points[..])),
                                                   VertexWeights(prim, topo, old(points[..]), old(vWeight[..])), timestep),
                                  Fairing.Rhs(prim, topo, old(points[..]),
                                              VertexWeights(prim, topo, old(points[..]), old(vWeight[..]))))
      ensures forall e | 0 <= e < eWeight.Length :: eWeight[e] == 0.0
      ensures forall v | 0 <= v < vWeight.Length :: vWeight[v] == 0.0
    {
      CalcWeights();
      var triplets, b := AssembleImplicit(timestep);
      var X := solve(triplets, b);
      CopySolution(X);
      RemoveWeights();
    }

    /** `points[v] = X(v)`, coordinate by coordinate. */
    method CopySolution(X: seq<Vec3>)
      requires Valid() && |X| == points.Length
      modifies points
      ensures points[..] == X
    {
      var i := 0;
      while i < points.Length
        invariant 0 <= i <= points.Length
        invariant forall u | 0 <= u < i :: points[u] == X[u]
      {
        points[i] := X[i];
        i := i + 1;
      }
    }

    /** The minimal surface spanned by the boundary: the weights are computed
        from the current positions, L X = B is assembled with the boundary
        pinned to its loaded positions and handed to the solver, every
        position moves all the way to its row of the solution, and the
        weights are removed. */
    method MinimalSurface(solve: Solver)
      requires Valid() && RowPerRhsRow(solve)
      modifies points, eWeight, vWeight
      ensures points[..] == solve(Minimal.Triplets(topo, EdgeWeights(prim, topo, old(points[..]))),
                                  Minimal.Rhs(topo, initPoints))
      ensures forall e | 0 <= e < eWeight.Length :: eWeight[e] == 0.0
      ensures forall v | 0 <= v < vWeight.Length :: vWeight[v] == 0.0
    {
      CalcWeights();
      var triplets, b := AssembleMinimal();
      var X := solve(triplets, b);
      MoveToSolution(X);
      RemoveWeights();
    }

    /** `points[v] += 1. * (X(v) - points[v])`, coordinate by coordinate. */
    method MoveToSolution(X: seq<Vec3>)
      requires Valid() && |X| == points.Length
      modifies points
      ensures points[..] == X
    {
      var i := 0;
      while i < points.Length
        invariant 0 <= i <= points.Length
        invariant forall u | 0 <= u < i :: points[u] == X[u]
      {
        CopyBackExact(points[i], X[i]);
        points[i] := Add(points[i], Scale(Sub(X[i], points[i]), 1.0));
        i := i + 1;
      }
    }
  }
}

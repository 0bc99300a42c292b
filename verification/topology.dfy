/** The half-edge mesh as plain index sequences.

    Vertices and edges are identified by their index. What the mesh library's
    circulators enumerate is stored explicitly, in circulator order:
    - per vertex, its outgoing halfedges (target vertex and edge) and its
      incident faces (each face as its three corners, in the order the
      vertex-around-face circulator yields them);
    - per edge, its two halfedges: target vertex, boundary flag, and the
      target of the next halfedge in its face (the corner opposite the edge). */
module MeshTopology {

  /** An outgoing halfedge of a vertex: `to_vertex(h)` and `edge(h)`. */
  datatype Halfedge = Halfedge(to: nat, edge: nat)

  datatype Face = Face(a: nat, b: nat, c: nat)

  datatype Vertex = Vertex(boundary: bool, out: seq<Halfedge>, faces: seq<Face>)

  /** `halfedge(e, i)`: its target, whether it lies on the boundary, and
      `to_vertex(next_halfedge(h))`, the corner opposite the edge. */
  datatype EdgeSide = EdgeSide(to: nat, boundary: bool, opposite: nat)

  datatype Edge = Edge(h0: EdgeSide, h1: EdgeSide)

  datatype Mesh = Mesh(vertices: seq<Vertex>, edges: seq<Edge>)

  function IsBoundary(m: Mesh, v: nat): bool
    requires v < |m.vertices|
  {
    m.vertices[v].boundary
  }

  /** The outgoing halfedges of v, in circulator order. */
  function Ring(m: Mesh, v: nat): seq<Halfedge>
    requires v < |m.vertices|
  {
    m.vertices[v].out
  }

  predicate FaceInRange(f: Face, n: nat) { f.a < n && f.b < n && f.c < n }

  /** Every halfedge of a one-ring lies on an edge below ne. */
  predicate EdgesIn(ring: seq<Halfedge>, ne: nat) {
    forall k | 0 <= k < |ring| :: ring[k].edge < ne
  }

  /** Every halfedge of the one-ring of v leads to another vertex below n. */
  predicate NeighborsIn(ring: seq<Halfedge>, v: nat, n: nat) {
    v < n && forall k | 0 <= k < |ring| :: ring[k].to < n && ring[k].to != v
  }

  /** Every reference is in range, no vertex is its own neighbour, and an
      interior vertex has a closed, hence non-empty, one-ring (the library
      reports an isolated vertex as a boundary vertex). */
  predicate WellFormed(m: Mesh) {
    var n := |m.vertices|;
    && (forall v | 0 <= v < n ::
          && (!m.vertices[v].boundary ==> |m.vertices[v].out| > 0)
          && NeighborsIn(m.vertices[v].out, v, n)
          && EdgesIn(m.vertices[v].out, |m.edges|)
          && forall k | 0 <= k < |m.vertices[v].faces| :: FaceInRange(m.vertices[v].faces[k], n))
    && (forall e | 0 <= e < |m.edges| ::
          m.edges[e].h0.to < n && m.edges[e].h1.to < n &&
          m.edges[e].h0.opposite < n && m.edges[e].h1.opposite < n)
  }

  /** A per-vertex attribute sized to the mesh. */
  predicate PerVertex<T>(m: Mesh, s: seq<T>) { |s| == |m.vertices| }

  /** A per-edge attribute sized to the mesh. */
  predicate PerEdge<T>(m: Mesh, s: seq<T>) { |s| == |m.edges| }
}

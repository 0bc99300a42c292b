# Mesh processing for implicit fairing — a Dafny model

This project models the geometry-processing core of `MeshProcessing`
(`implicit_fairing/mesh_processing.cpp`), a triangle-mesh tool that:

- computes cotangent edge weights and inverse-area vertex weights;
- smooths a mesh explicitly, with a uniform or a Laplace-Beltrami Laplacian,
  in staged (Jacobi) iterations;
- smooths it implicitly, with one backward-Euler step of mean-curvature flow
  solved as a sparse linear system;
- computes the minimal surface spanned by the mesh boundary;
- enhances features by extrapolating away from a smoothed copy;
- estimates three curvatures per vertex;
- maps a per-vertex scalar to a five-band colour ramp, over a trimmed value
  range.

Numbers are Dafny `real`s. The geometric primitives the code calls (`norm`,
`normalize`, `acos`, `M_PI`, and the result of a division by zero) are
uninterpreted members of a `Primitives` record. Every property below
therefore holds for any choice of them, except where a lemma names an
assumption such as a non-negative norm or an arc cosine with values in
[0, π]. `dot`, `cross`, vector sums and scaling are written out.

The half-edge mesh is plain index sequences (module `MeshTopology`). Each
vertex has:

- a boundary flag;
- its outgoing halfedges in circulator order (target vertex and edge);
- its incident faces.

Each edge has its two halfedges: the target vertex, a boundary flag and the
opposite corner. `WellFormed` says that every index is in range, that no
vertex is its own neighbour, and that an interior vertex has a non-empty
one-ring.

The sparse matrix is its triplet list. `Entry`, `RowSum` and `Product`
(module `SparseSystem`) give it the meaning Eigen's `setFromTriplets` gives
it: triplets at the same position add up. The Eigen solver is a
function-valued parameter `solve` that returns one row per right-hand-side
row.

The class `Processing.MeshProcessing` holds the mesh's named properties as
arrays:

| property | array |
|---|---|
| `v:point` | `points` |
| `v:new_pos` (the explicit smoothers) and `v:new_positions` (`uniform_smooth`) | `newPos` |
| `v:old_pos` | `oldPos` |
| `e:weight` | `eWeight` |
| `v:weight` | `vWeight` |
| the three curvature properties | `uniCurvature`, `curvature`, `gaussCurvature` |

The class also keeps the positions the mesh had when it was loaded
(`initPoints`). Each method that updates properties in place is proved
against a specification function in one of these modules:

- `Weights`;
- `Smoothing`;
- `Curvature`;
- `ImplicitFairing`;
- `MinimalSurface`.

The lemmas beside those functions state what the source promises.

## Model

| member | source | states |
|---|---|---|
| Processing.MeshProcessing.constructor | implicit_fairing/mesh_processing.cpp:484-487 | a loaded mesh keeps its positions, and a copy of them as the load-time positions; the mesh properties are computed from them as at 521-524: the edge weights are `EdgeWeights(pos)`, the vertex weights are `VertexWeights(pos)` starting from the default 0, and the three curvatures are computed from those weights |
| Processing.MeshProcessing.CalcEdgesWeights | implicit_fairing/mesh_processing.cpp:390-425 | after the loop, every edge weight equals `Weights.EdgeWeights` of the current positions: it is reset to 0, then gets one cotangent term per non-boundary halfedge |
| Weights.EdgeWeightTerms | implicit_fairing/mesh_processing.cpp:399-424 | an edge with two interior halfedges gets exactly the sum of their two cotangent terms; an edge with one boundary halfedge gets exactly the other halfedge's term |
| Weights.EdgeWeightIsLocal | implicit_fairing/mesh_processing.cpp:401-422 | an edge weight depends only on the positions of the edge's two endpoints and its two opposite corners |
| Processing.MeshProcessing.AreaAround | implicit_fairing/mesh_processing.cpp:434-452 | the accumulated area is the sum of `norm(cross(Q-P, R-P)) * 0.5 * 0.3333` over the vertex's incident faces, in circulator order |
| Processing.MeshProcessing.CalcVerticesWeights | implicit_fairing/mesh_processing.cpp:427-456 | every vertex weight equals `Weights.VertexWeights` of the current positions and the previous weights: `0.5 / area` when the vertex has faces; otherwise the vertex is skipped and keeps its weight |
| Weights.VertexWeightSign | implicit_fairing/mesh_processing.cpp:437-454 | a vertex without faces keeps its previous weight; a vertex with faces and non-zero area gets a positive weight, given a non-negative norm |
| Weights.AreaSumNonNegative | implicit_fairing/mesh_processing.cpp:443-452 | the accumulated area is never negative, given a non-negative norm |
| Processing.MeshProcessing.CalcWeights | implicit_fairing/mesh_processing.cpp:385-388 | computes both weight properties, as the two methods above state |
| Weights.EdgeWeightsTranslated | implicit_fairing/mesh_processing.cpp:401-422 | translating every position by the same offset leaves every edge weight unchanged |
| Weights.VertexWeightsTranslated | implicit_fairing/mesh_processing.cpp:443-454 | translating every position by the same offset leaves every vertex weight unchanged |
| Weights.AreaSumTranslated | implicit_fairing/mesh_processing.cpp:446-450 | translating every position by the same offset leaves the area sum unchanged |
| Weights.LaplaceSumsAreLocal | implicit_fairing/mesh_processing.cpp:284-287 | the uniform and the weighted one-ring sums of `p_j - p_v` depend only on the positions of v and its neighbours |
| Weights.UniformLaplaceSumTranslated | implicit_fairing/mesh_processing.cpp:284-287 | the uniform one-ring sum of differences is unchanged by translating all positions |
| Weights.CotanLaplaceSumTranslated | implicit_fairing/mesh_processing.cpp:328-337 | the weighted one-ring sum of differences is unchanged by translating all positions |
| Processing.MeshProcessing.ImplicitRow | implicit_fairing/mesh_processing.cpp:52-64 | the triplets pushed for vertex i are `ImplicitFairing.Row`: one `(i, j, -timestep*w_e)` per outgoing halfedge in circulator order, then `(i, i, 1/a_i + timestep*Σw_e)` |
| Processing.MeshProcessing.AssembleImplicit | implicit_fairing/mesh_processing.cpp:38-65 | the triplet list is `ImplicitFairing.Triplets` (the rows of all vertices, in vertex order) and the right-hand side is `p_i / a_i` row by row |
| ImplicitFairing.RowOfTriplets | implicit_fairing/mesh_processing.cpp:41-68 | the triplets of row i in the assembled list are exactly the row built for vertex i, and every column is a vertex |
| ImplicitFairing.OffDiagonalTriplets | implicit_fairing/mesh_processing.cpp:54-63 | off-diagonal triplet j is `(i, to(h_j), -timestep*w[edge(h_j)])` |
| ImplicitFairing.OffDiagonalValueSum | implicit_fairing/mesh_processing.cpp:53-63 | the off-diagonal values of a row add up to `-timestep*Σw_e` |
| ImplicitFairing.OffDiagonalValues | implicit_fairing/mesh_processing.cpp:53-63 | the off-diagonal values of a row add up to `Σ -timestep*w_e`, term by term in circulator order |
| ImplicitFairing.ScaledWeightSumFactor | implicit_fairing/mesh_processing.cpp:53-63 | `Σ -timestep*w_e` equals `-timestep*Σw_e` over every prefix of the one-ring |
| ImplicitFairing.DiagonalEntry | implicit_fairing/mesh_processing.cpp:64-68 | once duplicates are summed, the diagonal coefficient of row i is `1/a_i + timestep*Σw_e`, since no neighbour is the vertex itself |
| ImplicitFairing.RowSumIsMass | implicit_fairing/mesh_processing.cpp:53-68 | every row of A sums to `1/a_i`, and its off-diagonal part to `-timestep*Σw_e` |
| ImplicitFairing.ZeroStepOffDiagonal | implicit_fairing/mesh_processing.cpp:62 | with `timestep = 0` every off-diagonal triplet has value 0, so it adds nothing to any column or any product |
| ImplicitFairing.ZeroStepRow | implicit_fairing/mesh_processing.cpp:41-68 | with `timestep = 0`, row i of A is the diagonal `1/a_i` alone, and (for `a_i ≠ 0`) row i of `A * pos` is the right-hand side `p_i / a_i` |
| ImplicitFairing.ZeroStepKeepsPositions | implicit_fairing/mesh_processing.cpp:41-72 | with `timestep = 0` and non-zero vertex weights, the current positions solve `A X = B` |
| Processing.MeshProcessing.CopySolution | implicit_fairing/mesh_processing.cpp:74-80 | after the copy loop the positions are exactly the rows of the solution |
| Processing.MeshProcessing.MoveToSolution | implicit_fairing/mesh_processing.cpp:156-162 | after `p += 1.*(X - p)` at every vertex the positions are exactly the rows of the solution |
| Processing.MeshProcessing.ImplicitSmoothing | implicit_fairing/mesh_processing.cpp:21-85 | the new positions are exactly the solver's answer for the system assembled from the weights of the old positions; both weight properties are then removed (back to 0) |
| Processing.MeshProcessing.MinimalRow | implicit_fairing/mesh_processing.cpp:113-138 | the triplets pushed for vertex i are `MinimalSurface.Row`: `(i, i, 1)` at a boundary vertex; otherwise one `(i, j, -w_e)` per outgoing halfedge, then `(i, i, Σw_e)` |
| Processing.MeshProcessing.AssembleMinimal | implicit_fairing/mesh_processing.cpp:105-139 | the triplet list is `MinimalSurface.Triplets` (the rows in vertex order); the right-hand side is the load-time position at a boundary vertex and 0 elsewhere |
| MinimalSurface.RowOfTriplets | implicit_fairing/mesh_processing.cpp:109-143 | the triplets of row i in the assembled list are exactly the row built for vertex i, and every column is a vertex |
| MinimalSurface.NegatedWeightsValueSum | implicit_fairing/mesh_processing.cpp:127-136 | the off-diagonal values of an interior row add up to `-Σw_e` |
| MinimalSurface.BoundaryRow | implicit_fairing/mesh_processing.cpp:113-119 | a boundary row is the single triplet `(i, i, 1)`: an identity row with right-hand side the load-time position |
| MinimalSurface.InteriorRow | implicit_fairing/mesh_processing.cpp:120-137 | an interior row has diagonal `Σw_e`, off-diagonal sum equal to minus the diagonal, row sum 0, and right-hand side 0 |
| MinimalSurface.SolutionKeepsBoundary | implicit_fairing/mesh_processing.cpp:113-119 | any X that solves the assembled system puts every boundary vertex at its load-time position |
| Processing.MeshProcessing.MinimalSurface | implicit_fairing/mesh_processing.cpp:87-167 | the new positions are exactly the solver's answer for the minimal-surface system of the old positions' weights (`p += 1.*(X - p)` leaves X); both weight properties are then removed (back to 0) |
| Processing.CopyBackExact | implicit_fairing/mesh_processing.cpp:160 | `p + 1*(x - p)` is exactly x |
| Processing.MeshProcessing.RemoveWeights | implicit_fairing/mesh_processing.cpp:83-84 | after removal, every edge and vertex weight reads as the default 0 |
| Processing.MeshProcessing.UniformRingSum | implicit_fairing/mesh_processing.cpp:283-287 | returns the sum of `p_j - p_v` over the one-ring and the number of neighbours |
| Processing.MeshProcessing.CotanRingSum | implicit_fairing/mesh_processing.cpp:327-337 | returns the sum of `w_e (p_j - p_v)` over the one-ring and `Σw_e` |
| Processing.MeshProcessing.RingAngleSum | implicit_fairing/mesh_processing.cpp:250-261 | returns the sum of the clamped corner angles between consecutive neighbours, the last paired with the first |
| Processing.MeshProcessing.CalcUniformMeanCurvature | implicit_fairing/mesh_processing.cpp:169-195 | every vertex gets `Curvature.UniformMeanCurvature`: 0 at the boundary, else `0.5*norm(average of p_j - p_v)` |
| Processing.MeshProcessing.CalcMeanCurvature | implicit_fairing/mesh_processing.cpp:197-232 | every vertex gets `Curvature.MeanCurvature`: 0 at the boundary, else `0.5*norm(a_v * Σ w_e (p_j - p_v))` |
| Processing.MeshProcessing.CalcGaussCurvature | implicit_fairing/mesh_processing.cpp:234-267 | every vertex gets `Curvature.GaussCurvature`: 0 at the boundary, else `(2π - Σθ) * 2 * a_v` |
| Curvature.BoundaryCurvatures | implicit_fairing/mesh_processing.cpp:176-265 | all three estimators give exactly 0 at a boundary vertex |
| Curvature.MeanCurvaturesNonNegative | implicit_fairing/mesh_processing.cpp:191-228 | both mean curvatures are never negative, given a non-negative norm |
| Curvature.AngleSumBounds | implicit_fairing/mesh_processing.cpp:253-261 | with the arc cosine in [0, π] on [-1, 1], the sum of the first k corner angles lies in [0, kπ] |
| Curvature.GaussCurvatureSign | implicit_fairing/mesh_processing.cpp:263 | with a non-negative vertex weight, an angle sum below 2π gives curvature ≥ 0, above 2π gives ≤ 0, and exactly 2π gives 0 |
| Curvature.AngleSumTranslated | implicit_fairing/mesh_processing.cpp:255-260 | translating all positions leaves the angle sum unchanged |
| Curvature.MeanCurvaturesTranslated | implicit_fairing/mesh_processing.cpp:169-232 | translating all positions leaves both mean curvatures unchanged |
| Curvature.GaussCurvatureTranslated | implicit_fairing/mesh_processing.cpp:234-267 | translating all positions leaves the Gaussian curvature unchanged |
| Processing.MeshProcessing.StageUniformPositions | implicit_fairing/mesh_processing.cpp:277-295 | every staged position is `Smoothing.UniformStep` of the current positions: `p_v + 0.5 * average(p_j - p_v)` inside, `p_v` on the boundary |
| Processing.MeshProcessing.CommitNewPositions | implicit_fairing/mesh_processing.cpp:297-300 | after the commit loop the positions are exactly the staged positions |
| Processing.MeshProcessing.UniformSmoothStep | implicit_fairing/mesh_processing.cpp:276-300 | one iteration replaces the positions by `Smoothing.UniformStep` of the old positions: all new positions come from the old ones |
| Processing.MeshProcessing.UniformSmooth | implicit_fairing/mesh_processing.cpp:269-302 | after k iterations the positions are `Smoothing.UniformSmoothed(old, k)`, and 0 iterations leave them unchanged |
| Processing.MeshProcessing.StageCotanPositions | implicit_fairing/mesh_processing.cpp:321-345 | every staged position is `p_v + 0.5 * (Σ w_e (p_j - p_v)) / Σw_e` inside and `p_v` on the boundary, with the current edge weights |
| Processing.MeshProcessing.CotanSmoothStep | implicit_fairing/mesh_processing.cpp:317-351 | one iteration recomputes the edge weights from the old positions, then replaces the positions by `Smoothing.CotanStep` of the old positions |
| Processing.MeshProcessing.Smooth | implicit_fairing/mesh_processing.cpp:304-353 | after k iterations the positions are `Smoothing.CotanSmoothed(old, k)`; the edge weights are those of the positions before the last iteration, and are untouched when k = 0 |
| Smoothing.SmoothingKeepsBoundary | implicit_fairing/mesh_processing.cpp:281-294 | under either smoother, after any number of iterations, a boundary vertex is exactly where it started |
| Smoothing.StepIsLocal | implicit_fairing/mesh_processing.cpp:277-345 | a vertex's new position depends only on the old positions of itself and its neighbours (the Jacobi property) |
| Smoothing.BalancedVertexStays | implicit_fairing/mesh_processing.cpp:284-294 | a vertex whose one-ring differences cancel out does not move under either smoother |
| Smoothing.UniformStepTranslated | implicit_fairing/mesh_processing.cpp:277-300 | a uniform step commutes with translating the mesh |
| Smoothing.UniformDisplacementTranslated | implicit_fairing/mesh_processing.cpp:279-292 | the uniform displacement of a vertex is unchanged by translating the mesh |
| Smoothing.CotanDisplacementTranslated | implicit_fairing/mesh_processing.cpp:322-342 | the Laplace-Beltrami displacement of a vertex is unchanged by translating the mesh |
| Smoothing.CotanStepTranslated | implicit_fairing/mesh_processing.cpp:317-351 | a Laplace-Beltrami step, with its weights recomputed, commutes with translating the mesh |
| Smoothing.SmoothedTranslated | implicit_fairing/mesh_processing.cpp:269-353 | any number of iterations of either smoother commutes with translating the mesh |
| Processing.MeshProcessing.SnapshotPositions | implicit_fairing/mesh_processing.cpp:359-361 | the snapshot holds exactly the current positions |
| Processing.MeshProcessing.PullFromSnapshot | implicit_fairing/mesh_processing.cpp:365-367 | every position becomes `p + (old - p) * c`, that is `Smoothing.Enhanced` |
| Processing.MeshProcessing.UniformLaplacianEnhanceFeature | implicit_fairing/mesh_processing.cpp:355-368 | the final positions are `Enhanced(UniformSmoothed(old, k), old, c)` |
| Processing.MeshProcessing.LaplaceBeltramiEnhanceFeature | implicit_fairing/mesh_processing.cpp:370-383 | the final positions are `Enhanced(CotanSmoothed(old, k), old, c)`; the edge weights are left as `smooth` leaves them: unchanged for k = 0, else `EdgeWeights(CotanSmoothed(old, k - 1))` |
| Smoothing.EnhanceByOne | implicit_fairing/mesh_processing.cpp:365-367 | coefficient 1 restores the positions from before smoothing |
| Smoothing.EnhanceByZero | implicit_fairing/mesh_processing.cpp:365-367 | coefficient 0 leaves the smoothed positions |
| Smoothing.EnhanceExtrapolates | implicit_fairing/mesh_processing.cpp:365-367 | the enhanced position lies on the line through the smoothed and the original position, `(c - 1)` times the smoothing displacement beyond the original |
| Smoothing.EnhanceKeepsBoundary | implicit_fairing/mesh_processing.cpp:355-383 | enhancement never moves a boundary vertex, whatever the iterations and coefficient |
| ColorMap.ValueToColor | implicit_fairing/mesh_processing.cpp:613-645 | a value below `min` is blue `(0,0,1)`; a value at least `min` and above `max` is red `(1,0,0)` |
| ColorMap.ValueToColorInUnitCube | implicit_fairing/mesh_processing.cpp:613-645 | for `min < max` every band yields components in [0, 1] |
| ColorMap.BandsAgree | implicit_fairing/mesh_processing.cpp:614-641 | for `min < max`: `min` maps to blue; at each of `v1`, `v2`, `v3` the lower band's end equals the next band's start; `max` maps to red |
| ColorMap.FractionInUnit | implicit_fairing/mesh_processing.cpp:629-640 | the in-band fraction `(value - lo) / (hi - lo)` lies in [0, 1] |
| ColorMap.FractionEnds | implicit_fairing/mesh_processing.cpp:629-640 | the in-band fraction is 0 at the band's start and 1 at its end |
| ColorMap.ThresholdsIncrease | implicit_fairing/mesh_processing.cpp:615-619 | for `min < max` the thresholds run strictly from `v0 = min` to `v4 = max` |
| ColorMap.SortedCopyIsSortedPermutation | implicit_fairing/mesh_processing.cpp:597 | the sorted copy of the values is sorted and a permutation of them |
| ColorMap.InsertSorted | implicit_fairing/mesh_processing.cpp:597 | inserting into a sorted sequence keeps it sorted |
| ColorMap.InsertAdds | implicit_fairing/mesh_processing.cpp:597 | inserting adds exactly the inserted value, as a multiset |
| ColorMap.TrimCountBound | implicit_fairing/mesh_processing.cpp:595-596 | `i = (size - 1) / bound` drops at most half of the values at each end, so both range indices are in bounds |
| ColorMap.AsWrittenDropsMaximum | implicit_fairing/mesh_processing.cpp:595-598 | as written, values `[0, 1]` give the range `[0, 0]`, so the value 1 is coloured red; values `[0, 1, 2]` with bound 2 give the inverted range `[1, 0]` |
| ColorMap.AsWrittenExcludesLargest | implicit_fairing/mesh_processing.cpp:595-598 | as written, when nothing is to be dropped, the upper end is the second largest value |
| ColorMap.TrimmedRangeAsWrittenBounds | implicit_fairing/mesh_processing.cpp:595-598 | on sorted values, the range as written holds every value from index `i` to index `n-1-i`, and is not inverted when that interval is non-empty |
| ColorMap.TrimmedRangeBounds | implicit_fairing/mesh_processing.cpp:595-598 | the corrected range `[values[i], values[n-i]]` is never inverted, holds every value from index `i` to index `n-i`, and is the full range when nothing is dropped |
| ColorMap.ColorCoding | implicit_fairing/mesh_processing.cpp:589-605 | every vertex's colour is `ValueToColor` of its value against the range `[values[i], values[n-1-i]]` of the sorted values, as written |

## Left out

- The Eigen factorisations and solves (`SimplicialLDLT`, `SparseLU`) and
  `solver.info()` are not modelled. They are a foreign library. The solver
  is a parameter, and the model states which system is handed to it and how
  its answer is copied back. It does not state that the answer solves the
  system.
- Floating-point rounding is not modelled: `float`/`double` are reals.
  `norm`, `normalize`, `acos`, `M_PI` and division by zero are uninterpreted.
  The constants `0.5f * 0.3333f` are kept as written.
- `ImplicitFairing.ZeroStepKeepsPositions`: the positions are proved to
  solve the system only for `timestep = 0`. For a general timestep the
  backward-Euler identity has degree-three real products, which are outside
  what the solver here can handle.
- `MinimalSurface.SolutionKeepsBoundary`: only the boundary rows of a
  solution are pinned down. That an interior row of a solution is the
  weighted average of its neighbours is not stated.
- `Processing.MeshProcessing.CalcVerticesWeights`: a vertex without faces
  keeps whatever weight it had. The property is created with default 0, so
  after loading such a vertex has weight 0, as the constructor states.
- `ColorMap.ColorCoding` requires at least two values and `bound >= 2`.
  With fewer values or a smaller bound, the unsigned index arithmetic at
  implicit_fairing/mesh_processing.cpp:595-598 wraps around or divides by
  zero, which is undefined behaviour. A negative `int` bound, converted to
  unsigned, is not modelled either.
- `ColorMap.ColorCoding` is a module-level method over the value array and
  the colour array. The `Mesh *` argument only serves to enumerate
  the vertices, and `set_color` (607-611) is inlined as an array
  assignment. `std::sort` is specified by a functional insertion sort, whose
  result is proved sorted and a permutation. It reads the upper end of the
  range at `n - 1 - i`, as the source does. The corrected range of the
  finding below is `ColorMap.TrimmedRange`, whose properties are proved
  separately.
- The area sum and the solver-status messages printed by `minimal_surface`
  (107-111, 140, 147-154) are console output and are not modelled.
- Mesh loading is not modelled: reading the file, the exit path, the
  messages, and the mesh centre and radius (458-484) are file I/O and
  viewer state. The constructor takes the loaded connectivity and positions
  as parameters.
- `Processing.MeshProcessing.constructor` performs the part of
  `compute_mesh_properties` (490-587) that sets modelled properties: the
  weights and the three curvatures (521-524). The face and vertex normals,
  the valence property, the four colour properties filled by `color_coding`
  (525-528) and the upload of normals and colours to the GPU are rendering
  state and are not kept. `color_coding` itself is modelled as
  `ColorMap.ColorCoding`.
- `get_closest_vertex` (647-662) is not modelled. It is float ray picking
  for the user interface.
- The half-edge data structure, its circulators, and the creation and
  removal of named properties are replaced by index sequences and by
  arrays. Removal of a property is modelled as resetting it to its default
  0, which is what the next access sees.
- `Processing.MeshProcessing.Smooth` runs the first iteration before its
  loop so that the edge-weight postcondition has a previous iteration to
  refer to. It performs the same steps in the same order as the source loop.

## Findings

| source | as written | input that shows it | evidently intended | confidence | as-written member | corrected member |
|---|---|---|---|---|---|---|
| implicit_fairing/mesh_processing.cpp:595-598 | with `n = size - 1` and `i = n / bound`, the range is `[values[i], values[n-1-i]]`, so one more value is dropped at the top than at the bottom | values `[0, 1]`, bound 20: the range is `[0, 0]` and the largest vertex is clamped to red; values `[0, 1, 2]`, bound 2: the range `[1, 0]` is inverted | `[values[i], values[n-i]]`, dropping `i` values at each end | medium, not executed | ColorMap.AsWrittenDropsMaximum | ColorMap.TrimmedRangeBounds |

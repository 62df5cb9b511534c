# ANurbs core in Dafny

This project models the core of ANurbs, a C++ library for NURBS curves and
surfaces. It covers six parts of the library:

- **The bivariate shape-function table** (`NurbsSurfaceShapeFunction`).
  - It numbers the mixed derivative pairs (du, dv) triangularly.
  - It computes the tensor product of two univariate tables for a knot-span pair.
  - For rational surfaces, it weights that table with the pole weights and applies the Leibniz-rule correction.
- **The NURBS curve** (`NurbsCurveGeometry`).
  - Four constructors with their count checks.
  - The domain and the knot spans.
  - Points and derivatives as contractions of a shape row with the poles.
  - Range-checked accessors.
- **Projection of a point onto a curve** (`PointOnCurveProjection`).
  - A global search over a polyline tessellation.
  - At most five Newton updates, clamped to the domain.
  - A final comparison with the two ends of the domain.
- **A surface view over a sub-domain** (`Surface`).
  - It delegates evaluation to its geometry.
  - It lists the knot spans that meet its own domains.
- **A polygon with holes** (`Polygon`).
  - Its loops and its global vertex numbering.
- **The older surface geometry API** (`SurfaceGeometry`).
  - A pole grid and a weight grid that is empty for a polynomial surface.

## How the model is organised

There is one module per source file:

| module | models |
|---|---|
| `SurfaceShapeFunction` | the triangular numbering, the workspace, the non-rational table |
| `RationalShapeFunction` | the rational correction as a reference definition, with its loops |
| `RationalSurfaceShapeFunction` | the weighting loops and the rational `compute_at_span` |
| `NurbsCurveGeometry` | the curve |
| `PointOnCurveProjection` | the projection |
| `TrimmedSurface` | `Surface` |
| `Polygon` | `Polygon` |
| `LegacySurfaceGeometry` | `SurfaceGeometry` |

Shared modules hold the rest:

- `Errors`: the C++ exception types as a `Result`, plus `Option`.
- `Math`: single_index, binomials, sums and row layouts.
- `LinearAlgebra`: vectors of reals.
- `Intervals`: intervals and consecutive knot intervals.
- `CurveShapeFunction`: the interface of the univariate shape-function engine.

C++ exceptions become `Failure` values. These are `std::runtime_error` with its message, `std::out_of_range` from `.at`, `std::length_error` from a negative vector size, `std::invalid_argument` with its message, and the bare `std::exception`.

Code this model cannot see becomes a function-typed parameter or an input table:

- the univariate shape-function engine;
- the knot-span locators;
- the curve's `point_at` and `derivatives_at`;
- the tessellation;
- the vector norm.

Three facts of the code that the model keeps as written:

- **Knot count.** The knot vector has `nb_poles + degree - 1` entries (`Nurbs::nb_knots`, as the constructors use it). The library's tests build a curve of degree 4 with 8 poles and 11 knots (tests/TestCurve.py:8-14).
- **Zero-length spans.** `spans()` lists every knot interval between the first and the last span, zero-length ones included (`RepeatedKnotGivesEmptySpan`).
- **Boundary guard.** The guard at the end of `compute` tests the start of the domain first. It returns the start as soon as the start beats the refined point, even when the end of the domain is closer still (`StartOfDomainWinsFirst`). The model states what the code guarantees: the result is never worse than the refined point or the start of the domain. It is never worse than the end either, unless the start was taken.

`Interval::clamp` comes from Interval.h, which is not part of this model. `Intervals.Interval.Clamp` gives it the usual definition; only its behaviour on non-reversed domains is relied on.

## Model

| member | source | states |
|---|---|---|
| SurfaceShapeFunction.ClosedForms | include/ANurbs/Algorithm/NurbsSurfaceShapeFunction.h:25-35 | nb_shapes and shape_index computed by counting pairs diagonal by diagonal agree with the closed forms nb_shapes and shape_index use; the integer halvings are exact |
| SurfaceShapeFunction.ShapeIndexInRange | include/ANurbs/Algorithm/NurbsSurfaceShapeFunction.h:25-35 | the index of a derivative pair lies below nb_shapes(order) exactly when du + dv <= order |
| SurfaceShapeFunction.ShapeIndexInjective | include/ANurbs/Algorithm/NurbsSurfaceShapeFunction.h:30-35 | distinct derivative pairs never share a table row |
| SurfaceShapeFunction.DerivativesOf | include/ANurbs/Algorithm/NurbsSurfaceShapeFunction.h:30-35 | every table position is the shape_index of some derivative pair (the inverse numbering) |
| SurfaceShapeFunction.ShapeIndexBijection | include/ANurbs/Algorithm/NurbsSurfaceShapeFunction.h:25-35 | shape_index maps the pairs of total order <= order one-to-one onto [0, nb_shapes(order)), with DerivativesOf as inverse |
| SurfaceShapeFunction.FlatValueAt | include/ANurbs/Algorithm/NurbsSurfaceShapeFunction.h:63-76 | entry (derivative, pole) of the table is stored at single_index(nb_shapes, nb_nonzero_poles, derivative, pole) of the flat value buffer |
| SurfaceShapeFunction.Resize | include/ANurbs/Algorithm/NurbsSurfaceShapeFunction.h:90-101 | after resize the value buffer holds nb_shapes(order) * (degree_u + 1) * (degree_v + 1) entries and the weighted sums nb_shapes(order); the sums keep their old prefix and the first nonzero poles are untouched |
| SurfaceShapeFunction.NonzeroPoleIndices | include/ANurbs/Algorithm/NurbsSurfaceShapeFunction.h:138-155 | local pole (a, b) is listed at single_index(a, b) as the global pair (first_u + a, first_v + b); the pairs are pairwise distinct and lie between the first and last nonzero poles |
| SurfaceShapeFunction.FillTensorTable | include/ANurbs/Algorithm/NurbsSurfaceShapeFunction.h:228-240 | the nested loops leave row shape_index(i, j) equal to the outer product of u-row i and v-row j for every pair with i + j <= order |
| SurfaceShapeFunction.TensorTableCharacterised | include/ANurbs/Algorithm/NurbsSurfaceShapeFunction.h:228-240 | a table whose every pair row is that outer product is the tensor table (the loop result is unique) |
| SurfaceShapeFunction.ComputeAtSpan | include/ANurbs/Algorithm/NurbsSurfaceShapeFunction.h:208-241 | the first nonzero poles become span - degree + 1 in each direction, the last ones span + 1, and value(shape_index(i, j), a, b) equals u_i[a] * v_j[b]; degrees, order and weighted sums are kept |
| SurfaceShapeFunction.TensorRowSum | include/ANurbs/Algorithm/NurbsSurfaceShapeFunction.h:230-240 | when the v-row sums to one, a tensor-product row sums to the sum of its u-row (partition of unity carries over) |
| RationalShapeFunction.LeibnizCharacterisation | include/ANurbs/Algorithm/NurbsSurfaceShapeFunction.h:280-323 | a table solves the Leibniz equations (each weighted row is the sum over (i, j) of binom(k, i) binom(l, j) W(i, j) times row (k - i, l - j)) exactly when it is the rational table |
| RationalShapeFunction.LeibnizUnique | include/ANurbs/Algorithm/NurbsSurfaceShapeFunction.h:280-323 | any table solving the Leibniz equations holds the rational row at every pair |
| RationalShapeFunction.RationalSolvesLeibniz | include/ANurbs/Algorithm/NurbsSurfaceShapeFunction.h:280-323 | the rational rows satisfy the Leibniz equations |
| RationalShapeFunction.CorrectRows | include/ANurbs/Algorithm/NurbsSurfaceShapeFunction.h:280-323 | the in-place correction loops, k outer and l inner, turn the weighted table into the rational table |
| RationalShapeFunction.CorrectRow | include/ANurbs/Algorithm/NurbsSurfaceShapeFunction.h:282-321 | once every pair visited earlier holds its rational row, the three subtraction loops and the division produce the rational row of (k, l) |
| RationalShapeFunction.SubtractVTerms | include/ANurbs/Algorithm/NurbsSurfaceShapeFunction.h:284-292 | the first loop subtracts binom(l, j) * W(0, j) * row(k, l - j) for j = 1 .. l |
| RationalShapeFunction.SubtractUTerms | include/ANurbs/Algorithm/NurbsSurfaceShapeFunction.h:294-302 | the second loop subtracts binom(k, i) * W(i, 0) * row(k - i, l) for i = 1 .. k |
| RationalShapeFunction.SubtractMixedTerms | include/ANurbs/Algorithm/NurbsSurfaceShapeFunction.h:304-317 | the third loop subtracts binom(k, i) * binom(l, j) * W(i, j) * row(k - i, l - j) for i = 1 .. k, j = 1 .. l |
| RationalShapeFunction.SpanTable | include/ANurbs/Algorithm/NurbsSurfaceShapeFunction.h:259-278 | the weighted table has one row per derivative pair and one entry per nonzero pole, and each weighted sum is the sum of its row |
| RationalShapeFunction.Corrected | include/ANurbs/Algorithm/NurbsSurfaceShapeFunction.h:280-321 | the correction succeeds exactly when the weight function is nonzero, and then the corrected (0, 0) row sums to one if the weight function is the row sum |
| RationalShapeFunction.RationalAtSpan | include/ANurbs/Algorithm/NurbsSurfaceShapeFunction.h:252-324 | whenever the rational compute_at_span succeeds, the rational basis functions of the span pair sum to one |
| RationalShapeFunction.RationalTablePartitionOfUnity | include/ANurbs/Algorithm/NurbsSurfaceShapeFunction.h:265-321 | the (0, 0) row of the rational table sums to one when its weight function is the row sum |
| RationalShapeFunction.PartitionOfUnity | include/ANurbs/Algorithm/NurbsSurfaceShapeFunction.h:265-321 | when the weight function is the sum of the weighted values, the rational basis functions at (0, 0) sum to one |
| RationalShapeFunction.Weighted | include/ANurbs/Algorithm/NurbsSurfaceShapeFunction.h:265-278 | every weighted row is the value row multiplied entrywise by the pole weights, and each weighted sum is the sum of its row |
| RationalShapeFunction.LocalWeightAt | include/ANurbs/Algorithm/NurbsSurfaceShapeFunction.h:268-273 | local pole (a, b) is weighted by the weight of global pole (first_u + a, first_v + b) |
| RationalSurfaceShapeFunction.WeightRow | include/ANurbs/Algorithm/NurbsSurfaceShapeFunction.h:266-277 | the (i, j) loop multiplies each entry of a row by its pole weight and accumulates the weighted sum of the whole row |
| RationalSurfaceShapeFunction.ApplyWeights | include/ANurbs/Algorithm/NurbsSurfaceShapeFunction.h:265-278 | the weighting loop over all shapes yields the weighted table |
| RationalSurfaceShapeFunction.WeightSpan | include/ANurbs/Algorithm/NurbsSurfaceShapeFunction.h:259-278 | the B-spline table of the span pair, weighted by the poles of the span pair, is the span table; the first nonzero poles are span - degree + 1 |
| RationalSurfaceShapeFunction.ComputeAtSpanRational | include/ANurbs/Algorithm/NurbsSurfaceShapeFunction.h:252-324 | the rational compute_at_span leaves the rational table of the weighted span table, or reports a vanishing weight function |
| Intervals.KnotSpans | include/anurbs/Geometry/NurbsCurveGeometry.h:256-265 | interval i runs from knot first + i to knot first + i + 1; consecutive intervals share an end |
| Intervals.Interval.Clamp | include/anurbs/Algorithm/PointOnCurveProjection.h:143 | on a non-reversed domain the clamped value lies in the domain, and a value inside is kept |
| NurbsCurveGeometry.WithPoleCount | include/anurbs/Geometry/NurbsCurveGeometry.h:34-44 | nb_poles poles, nb_knots(degree, nb_poles) knots and nb_poles weights only if rational; a negative size is a length_error; the curve is rational exactly when requested with at least one pole |
| NurbsCurveGeometry.WithKnotsAndPoles | include/anurbs/Geometry/NurbsCurveGeometry.h:46-60 | succeeds exactly when the knot count matches the pole count, with the constructor's message otherwise; the result is polynomial |
| NurbsCurveGeometry.WithWeights | include/anurbs/Geometry/NurbsCurveGeometry.h:62-81 | the knot count is checked before the weight count, each with its own message; on success the curve stores the given data and is rational iff it has poles |
| NurbsCurveGeometry.WithControlPoints | include/anurbs/Geometry/NurbsCurveGeometry.h:83-102 | only the knot count is checked; the curve always carries one weight per pole, and pairing its poles with its weights gives back the control points |
| NurbsCurveGeometry.ConstructFromControlPoints | include/anurbs/Geometry/NurbsCurveGeometry.h:83-102 | the sizing, the check and the splitting loop produce exactly the curve WithControlPoints describes |
| NurbsCurveGeometry.Spans | include/anurbs/Geometry/NurbsCurveGeometry.h:249-266 | a negative span count is a length_error; otherwise there are nb_knots - 2 degree + 1 spans and span i runs from knot degree - 1 + i to knot degree + i |
| NurbsCurveGeometry.SpansTileDomain | include/anurbs/Geometry/NurbsCurveGeometry.h:249-266 | the spans tile the domain: the first starts at domain().t0, the last ends at domain().t1 and consecutive spans share an end |
| NurbsCurveGeometry.RepeatedKnotGivesEmptySpan | include/anurbs/Geometry/NurbsCurveGeometry.h:249-266 | a repeated knot inside the domain yields a zero-length span rather than being skipped |
| NurbsCurveGeometry.Query | include/anurbs/Geometry/NurbsCurveGeometry.h:116-124 | the shape-function engine receives the weights exactly when the curve is rational |
| NurbsCurveGeometry.Combination | include/anurbs/Geometry/NurbsCurveGeometry.h:185-197 | contracting a shape row with the poles it covers fails with out_of_range exactly when a covered pole index lies outside the pole vector |
| NurbsCurveGeometry.Contract | include/anurbs/Geometry/NurbsCurveGeometry.h:187-195 | the loop that initialises with the first product and adds the others computes the contraction, failing on the first out-of-range pole |
| NurbsCurveGeometry.PointAt | include/anurbs/Geometry/NurbsCurveGeometry.h:173-198 | point_at is the order-0 shape row contracted with the poles from the first nonzero pole on |
| NurbsCurveGeometry.DerivativesAt | include/anurbs/Geometry/NurbsCurveGeometry.h:113-141 | derivatives_at yields order + 1 vectors, the k-th the contraction of shape row k; it fails exactly when the covered poles leave the pole vector |
| NurbsCurveGeometry.EvaluateDerivatives | include/anurbs/Geometry/NurbsCurveGeometry.h:126-140 | the nested loops of derivatives_at compute DerivativesAt |
| NurbsCurveGeometry.PointIsZerothDerivative | include/anurbs/Geometry/NurbsCurveGeometry.h:113-198 | when the engine's order-0 row does not depend on the requested order, point_at equals the first entry of derivatives_at, and both fail together |
| NurbsCurveGeometry.CombinationOfEqualPoles | include/anurbs/Geometry/NurbsCurveGeometry.h:187-195 | poles that all equal p contract to p scaled by the sum of the shape row |
| NurbsCurveGeometry.PointOfCoincidentPoles | include/anurbs/Geometry/NurbsCurveGeometry.h:173-198 | affine invariance: where the shape row sums to one and all covered poles equal p, point_at returns p |
| NurbsCurveGeometry.ShapeFunctionsAt | include/anurbs/Geometry/NurbsCurveGeometry.h:225-247 | the copied table equals the engine's table entry by entry, and the indices are first_nonzero_pole + i |
| NurbsCurveGeometry.Pole | include/anurbs/Geometry/NurbsCurveGeometry.h:200-203 | pole(i) succeeds exactly for 0 <= i < nb_poles, otherwise out_of_range |
| NurbsCurveGeometry.Weight | include/anurbs/Geometry/NurbsCurveGeometry.h:268-271 | weight(i) succeeds exactly for an index of the weight vector (never on a polynomial curve), otherwise out_of_range |
| NurbsCurveGeometry.SetPole | include/anurbs/Geometry/NurbsCurveGeometry.h:215-218 | set_pole is range-checked and changes nothing but the pole vector |
| NurbsCurveGeometry.SetWeight | include/anurbs/Geometry/NurbsCurveGeometry.h:220-223 | set_weight is range-checked and changes nothing but the weight vector |
| NurbsCurveGeometry.SetKnot | include/anurbs/Geometry/NurbsCurveGeometry.h:210-213 | set_knot changes nothing but the knot vector and keeps its length |
| NurbsCurveGeometry.PoleAfterSetPole | include/anurbs/Geometry/NurbsCurveGeometry.h:200-218 | after set_pole(i, v), pole(i) is v and every other pole reads as before |
| NurbsCurveGeometry.WeightAfterSetWeight | include/anurbs/Geometry/NurbsCurveGeometry.h:220-223 | after set_weight(i, w), weight(i) is w and every other weight reads as before |
| NurbsCurveGeometry.KnotAfterSetKnot | include/anurbs/Geometry/NurbsCurveGeometry.h:210-213 | after set_knot(i, x), knot i is x and every other knot is unchanged |
| PointOnCurveProjection.LineFraction | include/anurbs/Algorithm/PointOnCurveProjection.h:181-192 | the position of the projection along the segment, clamped, lies in [0, 1] |
| PointOnCurveProjection.ProjectToLine | include/anurbs/Algorithm/PointOnCurveProjection.h:171-198 | a segment shorter than 1e-14 (squared) yields its start (t0, a); the point has the dimension of the segment |
| PointOnCurveProjection.ProjectionIsOnSegment | include/anurbs/Algorithm/PointOnCurveProjection.h:171-198 | the returned parameter and point always lie the same fraction of the way along the segment, clamped and degenerate cases included |
| PointOnCurveProjection.ProjectionWithinParameters | include/anurbs/Algorithm/PointOnCurveProjection.h:186-194 | the returned parameter lies between t0 and t1 |
| PointOnCurveProjection.ProjectionWithinReversed | include/anurbs/Algorithm/PointOnCurveProjection.h:186-194 | with t1 <= t0 the returned parameter lies between t1 and t0 |
| PointOnCurveProjection.ProjectionWithinDomain | include/anurbs/Algorithm/PointOnCurveProjection.h:171-198 | a segment whose end parameters lie in an interval returns a parameter in that interval, whichever end is larger |
| PointOnCurveProjection.EndsProjectToThemselves | include/anurbs/Algorithm/PointOnCurveProjection.h:171-198 | on a non-degenerate segment, a projects to (t0, a) and b to (t1, b) |
| PointOnCurveProjection.FirstMinimumIsArgmin | include/anurbs/Algorithm/PointOnCurveProjection.h:103-107 | the strict-less update keeps the first smallest entry: none is smaller and all earlier ones are strictly larger |
| PointOnCurveProjection.NearestIsArgmin | include/anurbs/Algorithm/PointOnCurveProjection.h:90-108 | the segment the search selects is at least as near as every segment and strictly nearer than every earlier one |
| PointOnCurveProjection.ClosestSegmentIsNearest | include/anurbs/Algorithm/PointOnCurveProjection.h:90-108 | on the tessellation, the selected segment's squared distance is minimal, and ties go to the earliest segment |
| PointOnCurveProjection.SelectClosest | include/anurbs/Algorithm/PointOnCurveProjection.h:86-108 | the loop starting from an infinite best distance and replacing it only when strictly smaller returns the projection onto the first nearest segment |
| PointOnCurveProjection.GlobalSearch | include/anurbs/Algorithm/PointOnCurveProjection.h:83-108 | the global search returns the projection onto the first nearest segment of the tessellation |
| PointOnCurveProjection.Update | include/anurbs/Algorithm/PointOnCurveProjection.h:134-143 | a Newton step clamped to a non-reversed domain stays in the domain |
| PointOnCurveProjection.Newton | include/anurbs/Algorithm/PointOnCurveProjection.h:110-144 | at most five updates are made; stopping early means the stopping test held; with no update the start is returned; after an update the parameter lies in the domain |
| PointOnCurveProjection.NewtonRound | include/anurbs/Algorithm/PointOnCurveProjection.h:116-144 | one round either stops at the current parameter or continues from the clamped update with one round fewer |
| PointOnCurveProjection.NewtonLoop | include/anurbs/Algorithm/PointOnCurveProjection.h:110-144 | the loop with its early break computes Newton over five rounds from the search result |
| PointOnCurveProjection.Guard | include/anurbs/Algorithm/PointOnCurveProjection.h:146-167 | the result is the refined parameter or a domain end, with its own point; it is never farther than the refined point or the start; the start is taken whenever it is strictly closer than the refined point; otherwise the result is no farther than the end |
| PointOnCurveProjection.StartOfDomainWinsFirst | include/anurbs/Algorithm/PointOnCurveProjection.h:150-156 | the start of the domain is returned when it beats the refined point, even if the end is closer |
| PointOnCurveProjection.NewProjector | include/anurbs/Algorithm/PointOnCurveProjection.h:32-39 | the constructor tessellates the curve once with flatness 1e-3 and keeps the tolerance |
| PointOnCurveProjection.SearchResultInDomain | include/anurbs/Algorithm/PointOnCurveProjection.h:83-108 | when every tessellation parameter lies in the domain, so does the parameter of the closest segment projection |
| PointOnCurveProjection.ProjectedInDomain | include/anurbs/Algorithm/PointOnCurveProjection.h:77-168 | on a non-reversed domain whose tessellation parameters all lie in it, compute stores a parameter inside the domain |
| PointOnCurveProjection.Projected | include/anurbs/Algorithm/PointOnCurveProjection.h:77-168 | the stored point is the curve's point at the stored parameter and is no farther from the sample than the Newton-refined point |
| PointOnCurveProjection.Compute | include/anurbs/Algorithm/PointOnCurveProjection.h:77-168 | compute stores the guarded result of search then Newton, keeps curve, tessellation, flatness and tolerance, and stores a parameter with its own point |
| TrimmedSurface.OfGeometry | include/ANurbs/Geometry/Surface.h:19-22 | the one-argument constructor takes the geometry's domains |
| TrimmedSurface.WithDomains | include/ANurbs/Geometry/Surface.h:24-28 | the two-argument constructor stores the given domains |
| TrimmedSurface.DelegatesToGeometry | include/ANurbs/Geometry/Surface.h:36-65 | degrees, point_at and derivatives_at are the geometry's, whatever domains the view has |
| TrimmedSurface.DomainSpans | include/ANurbs/Geometry/Surface.h:67-86 | needs the knots it reads only when the span count is positive; a negative span count is a length_error, a zero count an empty list; otherwise span i runs from knot first + i to knot first + i + 1, first being upper_span of the domain start, and consecutive spans share an end |
| TrimmedSurface.SpansU | include/ANurbs/Geometry/Surface.h:67-86 | spans_u asks upper_span for the start and lower_span for the end of the view's own u domain; it fails with length_error exactly when the count is negative, and otherwise lists last - first + 1 intervals, interval i running from u knot first + i to first + i + 1 |
| TrimmedSurface.SpansV | include/ANurbs/Geometry/Surface.h:88-107 | the same for spans_v with the v degree, v knots and v domain |
| TrimmedSurface.SpansFollowStoredDomains | include/ANurbs/Geometry/Surface.h:67-74 | the spans of a view follow the domains it was built with, not the geometry's |
| TrimmedSurface.DomainSpansCoverDomain | include/ANurbs/Geometry/Surface.h:71-83 | when both locators bracket their parameter and last >= first, the spans cover the domain from end to end |
| Polygon.NbLoops | include/ANurbs/Geometry/Polygon.h:22-25 | the outer loop plus the inner ones, at least one |
| Polygon.NbVerticesOfLoop | include/ANurbs/Geometry/Polygon.h:27-34 | loop 0 is the outer path, loop i the (i - 1)-th inner path |
| Polygon.VertexOfLoop | include/ANurbs/Geometry/Polygon.h:36-43 | vertex j of loop i of the same numbering |
| Polygon.NbVertices | include/ANurbs/Geometry/Polygon.h:45-54 | the accumulated count is the total number of vertices of all loops |
| Polygon.VertexAt | include/ANurbs/Geometry/Polygon.h:56-73 | a vertex exists exactly for 0 <= index < nb_vertices; otherwise the bare exception |
| Polygon.Vertex | include/ANurbs/Geometry/Polygon.h:56-73 | the loop over loops with a running offset returns global vertex index, and a negative index falls through to the exception |
| Polygon.VertexAtOffset | include/ANurbs/Geometry/Polygon.h:56-73 | vertex i of loop l is global vertex offset(l) + i |
| Polygon.OffsetStep | include/ANurbs/Geometry/Polygon.h:45-54 | each loop starts where the previous one ends |
| LegacySurfaceGeometry.New | include/ANurbs/src/SurfaceGeometry.h:27-37 | the pole grid is nbPolesU x nbPolesV; the weight grid has that shape if rational and is empty otherwise; the surface is rational exactly when requested with poles in both directions |
| LegacySurfaceGeometry.SetPole | include/ANurbs/src/SurfaceGeometry.h:47-54 | only the pole grid changes |
| LegacySurfaceGeometry.PoleAfterSetPole | include/ANurbs/src/SurfaceGeometry.h:39-54 | after SetPole(i, j, v), Pole(i, j) is v and every other pole reads as before |
| LegacySurfaceGeometry.Weight | include/ANurbs/src/SurfaceGeometry.h:56-66 | a polynomial surface reads weight 1 at every index |
| LegacySurfaceGeometry.SetWeight | include/ANurbs/src/SurfaceGeometry.h:68-79 | refused with invalid_argument("Geometry is not rational") exactly on a polynomial surface; otherwise only the weight grid changes and the surface stays rational |
| LegacySurfaceGeometry.WeightAfterSetWeight | include/ANurbs/src/SurfaceGeometry.h:56-79 | on a rational surface, after SetWeight(i, j, w), Weight(i, j) is w and every other weight reads as before |
| LegacySurfaceGeometry.RationalWithoutPolesIsPolynomial | include/ANurbs/src/SurfaceGeometry.h:81-85 | a surface requested rational but without poles in one direction reports itself polynomial: weights read 1 and cannot be set |

## Left out

- The `compute` and `get` wrappers of the shape-function table locate spans with `lower_span` and copy into Eigen matrices. The Python bindings, JSON load/save and every other `register_python` are also left out. All of these are glue around the modelled operations.
- The univariate shape-function engine (`NurbsCurveShapeFunction`) is not part of this model. Its tables enter as inputs of the stated shape.
  - So do the span locators `upper_span` and `lower_span`.
  - So does the curve tessellation.
  - So do the curve's `point_at` / `derivatives_at` as seen by the projection.
- SurfaceShapeFunction.Resize: `std::vector::resize` keeps the old prefix of the value buffer. The model zero-fills the whole buffer, because every entry is overwritten by the next `compute_at_span`.
- RationalSurfaceShapeFunction.ComputeAtSpanRational: division by a zero weight function gives non-finite values in C++. The model returns `ZeroWeightSum` instead. Floating-point rounding is not modelled; values are exact reals.
- RationalSurfaceShapeFunction.ComputeAtSpanRational requires that the weight matrix covers the nonzero poles of the span pair. The C++ template reads whatever the weights object returns.
- NurbsCurveGeometry.WithPoleCount: Eigen leaves the new poles uninitialised. The model uses zero poles, knots and weights.
- NurbsCurveGeometry.Domain carries no contract. It requires `1 <= degree <= nb_knots`, because the C++ indexing is unchecked. A degree-0 curve would read knot -1.
- NurbsCurveGeometry.Spans requires `degree >= 1` for the same reason. Degrees are `nat`: a negative degree is not modelled.
- NurbsCurveGeometry.SetKnot requires the index in range, because `set_knot` uses unchecked `operator[]`.
- Polygon.NbVerticesOfLoop and Polygon.VertexOfLoop require valid indices, because the C++ uses unchecked `operator[]`.
- LegacySurfaceGeometry.Pole, LegacySurfaceGeometry.SetPole and LegacySurfaceGeometry.Weight require indices in range. The grid class is not part of this model and its indexing is taken as unchecked.
- LegacySurfaceGeometry.New: the grid's initial cell values enter as parameters. Negative pole counts are not modelled; counts are `nat`.
- PointOnCurveProjection.Newton: the norm is an abstract parameter. Convergence to the nearest point is not claimed, only the loop's own guarantees. A zero Newton denominator (which the C++ divides by) is excluded by the precondition `NewtonDefined`.
- PointOnCurveProjection.GlobalSearch requires at least two tessellation samples. With fewer, the C++ continues from an uninitialised parameter.
- Integer widths (`Index`, `int`, `size_t`) are unbounded in the model. The one place where the signed/unsigned comparison matters, `Polygon::vertex` with a negative index, is modelled explicitly.
- Setters of the projection's flatness and tolerance are plain field updates and are not modelled separately.

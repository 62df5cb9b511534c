/** Projection of a point onto a curve (PointOnCurveProjection): a global
    search over a polyline tessellation of the curve, at most five Newton
    updates clamped to the domain, and a final comparison with the two ends of
    the domain. The curve, its tessellation and the norm are inputs; nothing
    here claims that the result is the true nearest point. */
module PointOnCurveProjection {
  import opened Errors
  import opened Math
  import opened Intervals
  import opened LinearAlgebra

  /** Below this squared length a polyline segment counts as a single point (1e-14). */
  const DegenerateSegment: real := 0.00000000000001

  /** Flatness the tessellation is computed with (1e-3). */
  const DefaultFlatness: real := 0.001

  /** Newton updates performed at most. */
  const MaxIterations: nat := 5

  /** A parameter of the curve and the point it maps to. */
  type ParameterPoint = (real, Vector)

  /** The curve as the projection sees it: its domain, point_at and
      derivatives_at(t, 2), which yields the point and its first two
      derivatives. */
  datatype CurveView = CurveView(domain: Interval, pointAt: real -> Vector, derivativesAt: real -> seq<Vector>)

  /** Every evaluation has `dim` coordinates, and derivatives_at(t, 2) has
      three entries. */
  ghost predicate Evaluates(c: CurveView, dim: nat) {
    && (forall t :: |c.pointAt(t)| == dim)
    && (forall t :: |c.derivativesAt(t)| == 3 && OfDimension(c.derivativesAt(t), dim))
  }

  // ---------------------------------------------------------------------
  // Projection onto one segment
  // ---------------------------------------------------------------------

  /** The position along segment a-b, as a fraction in [0, 1], of the result
      of ProjectToLine. */
  function LineFraction(point: Vector, a: Vector, b: Vector): (s: real)
    requires |point| == |a| == |b|
    ensures 0.0 <= s <= 1.0
  {
    var dif := Sub(b, a);
    var l := SquaredNorm(dif);
    if l < DegenerateSegment then 0.0
    else
      var s := Dot(Sub(point, a), Scale(dif, 1.0 / l));
      if s < 0.0 then 0.0 else if s > 1.0 then 1.0 else s
  }

  /** The parameter and the point a fraction s of the way from (t0, a) to (t1, b). */
  function AtFraction(a: Vector, b: Vector, t0: real, t1: real, s: real): ParameterPoint
    requires |a| == |b|
  {
    (t0 + (t1 - t0) * s, Add(a, Scale(Sub(b, a), s)))
  }

  /** project_to_line: the foot of the perpendicular from `point` to the
      line through a and b, clamped to the segment. A segment shorter than
      the tolerance yields its start. */
  function ProjectToLine(point: Vector, a: Vector, b: Vector, t0: real, t1: real): (r: ParameterPoint)
    requires |point| == |a| == |b|
    ensures |r.1| == |a|
    ensures SquaredNorm(Sub(b, a)) < DegenerateSegment ==> r == (t0, a)
  {
    var dif := Sub(b, a);
    var l := SquaredNorm(dif);
    if l < DegenerateSegment then (t0, a)
    else
      var s := Dot(Sub(point, a), Scale(dif, 1.0 / l));
      if s < 0.0 then (t0, a)
      else if s > 1.0 then (t1, b)
      else AtFraction(a, b, t0, t1, s)
  }

  /** A fraction in [0, 1] of the way from t0 to t1 stays between them. */
  lemma BetweenEnds(t0: real, t1: real, s: real)
    requires 0.0 <= s <= 1.0
    ensures t0 <= t1 ==> t0 <= t0 + (t1 - t0) * s <= t1
  {
    if t0 <= t1 {
      assert (t1 - t0) * (1.0 - s) >= 0.0;
    }
  }

  /** The parameter and the point returned for a segment always belong
      together: both sit the same fraction of the way along the segment,
      the clamped and degenerate cases included. */
  lemma ProjectionIsOnSegment(point: Vector, a: Vector, b: Vector, t0: real, t1: real)
    requires |point| == |a| == |b|
    ensures ProjectToLine(point, a, b, t0, t1) == AtFraction(a, b, t0, t1, LineFraction(point, a, b))
  {
    var dif := Sub(b, a);
    var r := ProjectToLine(point, a, b, t0, t1);
    var s := LineFraction(point, a, b);
    if SquaredNorm(dif) < DegenerateSegment {
      assert r == (t0, a) && s == 0.0;
      AddNoStep(a, dif);
      assert AtFraction(a, b, t0, t1, 0.0) == (t0, a);
    } else {
      var raw := Dot(Sub(point, a), Scale(dif, 1.0 / SquaredNorm(dif)));
      if raw < 0.0 {
        assert r == (t0, a) && s == 0.0;
        AddNoStep(a, dif);
        assert AtFraction(a, b, t0, t1, 0.0) == (t0, a);
      } else if raw > 1.0 {
        assert r == (t1, b) && s == 1.0;
        AddFullStep(a, b);
        assert AtFraction(a, b, t0, t1, 1.0) == (t1, b);
      } else {
        assert r == AtFraction(a, b, t0, t1, raw) && s == raw;
      }
    }
  }

  /** The parameter returned for a segment lies between the parameters of
      its ends. */
  lemma ProjectionWithinParameters(point: Vector, a: Vector, b: Vector, t0: real, t1: real)
    requires |point| == |a| == |b| && t0 <= t1
    ensures t0 <= ProjectToLine(point, a, b, t0, t1).0 <= t1
  {
    ProjectionIsOnSegment(point, a, b, t0, t1);
    BetweenEnds(t0, t1, LineFraction(point, a, b));
  }

  /** A fraction s of the way from t0 down to a smaller t1 lies between the
      two. */
  lemma PartWayDown(t0: real, t1: real, s: real)
    requires 0.0 <= s <= 1.0 && t1 <= t0
    ensures t1 <= t0 + (t1 - t0) * s <= t0
  {
    BetweenEnds(t1, t0, 1.0 - s);
    assert t1 + (t0 - t1) * (1.0 - s) == t0 + (t1 - t0) * s;
  }

  /** With the ends' parameters reversed, the projection still returns a
      parameter between them. */
  lemma ProjectionWithinReversed(point: Vector, a: Vector, b: Vector, t0: real, t1: real)
    requires |point| == |a| == |b| && t1 <= t0
    ensures t1 <= ProjectToLine(point, a, b, t0, t1).0 <= t0
  {
    ProjectionIsOnSegment(point, a, b, t0, t1);
    PartWayDown(t0, t1, LineFraction(point, a, b));
  }

  /** A value between two values of an interval lies in the interval. */
  lemma BetweenInDomain(domain: Interval, lo: real, hi: real, x: real)
    requires domain.Contains(lo) && domain.Contains(hi) && lo <= x <= hi
    ensures domain.Contains(x)
  {
  }

  /** A segment whose ends have parameters in an interval returns a
      parameter in that interval. */
  lemma ProjectionWithinDomain(point: Vector, a: Vector, b: Vector, t0: real, t1: real, domain: Interval)
    requires |point| == |a| == |b| && domain.Contains(t0) && domain.Contains(t1)
    ensures domain.Contains(ProjectToLine(point, a, b, t0, t1).0)
  {
    var x := ProjectToLine(point, a, b, t0, t1).0;
    if t0 <= t1 {
      ProjectionWithinParameters(point, a, b, t0, t1);
      BetweenInDomain(domain, t0, t1, x);
    } else {
      ProjectionWithinReversed(point, a, b, t0, t1);
      BetweenInDomain(domain, t1, t0, x);
    }
  }

  /** Both ends of a segment that is not degenerate project onto themselves. */
  lemma EndsProjectToThemselves(a: Vector, b: Vector, t0: real, t1: real)
    requires |a| == |b| && SquaredNorm(Sub(b, a)) >= DegenerateSegment
    ensures ProjectToLine(a, a, b, t0, t1) == (t0, a)
    ensures ProjectToLine(b, a, b, t0, t1) == (t1, b)
  {
    var dif := Sub(b, a);
    var l := SquaredNorm(dif);
    DotZeroLeft(Sub(a, a), Scale(dif, 1.0 / l));
    AddNoStep(a, dif);
    DotScaleRight(dif, dif, 1.0 / l);
    assert Dot(dif, Scale(dif, 1.0 / l)) == 1.0;
    AddFullStep(a, b);
  }

  // ---------------------------------------------------------------------
  // Global search over the tessellation
  // ---------------------------------------------------------------------

  /** A polyline through the curve: sample parameters and their points. The
      search needs at least one segment. */
  predicate Tessellated(sample: Vector, ts: seq<real>, points: seq<Vector>) {
    |ts| == |points| && |ts| >= 2 && OfDimension(points, |sample|)
  }

  /** The projection of the sample onto segment i, from point i - 1 to point i. */
  function SegmentProjection(sample: Vector, ts: seq<real>, points: seq<Vector>, i: nat): (r: ParameterPoint)
    requires Tessellated(sample, ts, points) && 1 <= i < |ts|
    ensures |r.1| == |sample|
  {
    ProjectToLine(sample, points[i - 1], points[i], ts[i - 1], ts[i])
  }

  function SegmentDistance(sample: Vector, ts: seq<real>, points: seq<Vector>, i: nat): real
    requires Tessellated(sample, ts, points) && 1 <= i < |ts|
  {
    SquaredNorm(Sub(SegmentProjection(sample, ts, points, i).1, sample))
  }

  /** The squared distance of each segment as a function of its index,
      0 where there is no segment. */
  function DistanceOfSegment(sample: Vector, ts: seq<real>, points: seq<Vector>): nat -> real
  {
    i => if Tessellated(sample, ts, points) && 1 <= i < |ts| then SegmentDistance(sample, ts, points, i) else 0.0
  }

  /** The projection onto each segment as a function of its index. */
  function ProjectionOfSegment(sample: Vector, ts: seq<real>, points: seq<Vector>): nat -> ParameterPoint
  {
    i => if Tessellated(sample, ts, points) && 1 <= i < |ts| then SegmentProjection(sample, ts, points, i) else (0.0, [])
  }

  /** The squared distances of segments 1 to n - 1, entry k for segment k + 1. */
  function DistancesOf(n: nat, distance: nat -> real): (d: seq<real>)
    requires n >= 1
    ensures |d| == n - 1 && forall k :: 0 <= k < n - 1 ==> d[k] == distance(k + 1)
  {
    seq(n - 1, (k: nat) => distance(k + 1))
  }

  /** Position of the first smallest entry among the first n. */
  function FirstMinimum(d: seq<real>, n: nat): (best: nat)
    requires 1 <= n <= |d|
    ensures best < n
  {
    if n == 1 then 0
    else
      var b := FirstMinimum(d, n - 1);
      if d[n - 1] < d[b] then n - 1 else b
  }

  /** FirstMinimum is an argmin: no entry is smaller, and every entry before
      it is strictly larger. */
  lemma {:induction false} FirstMinimumIsArgmin(d: seq<real>, n: nat)
    requires 1 <= n <= |d|
    ensures forall j :: 0 <= j < n ==> d[FirstMinimum(d, n)] <= d[j]
    ensures forall j :: 0 <= j < FirstMinimum(d, n) ==> d[FirstMinimum(d, n)] < d[j]
  {
    if n > 1 {
      FirstMinimumIsArgmin(d, n - 1);
    }
  }

  /** One more entry: it becomes the minimum only when strictly smaller. */
  lemma FirstMinimumStep(d: seq<real>, n: nat)
    requires 1 <= n < |d|
    ensures FirstMinimum(d, n + 1) == if d[n] < d[FirstMinimum(d, n)] then n else FirstMinimum(d, n)
  {
  }

  /** Of segments 1 to n - 1, the first with the smallest distance. */
  function Nearest(n: nat, distance: nat -> real): (best: nat)
    requires n >= 2
    ensures 1 <= best < n
  {
    FirstMinimum(DistancesOf(n, distance), n - 1) + 1
  }

  /** No segment is nearer than Nearest, and every segment before it is
      strictly farther, so a tie goes to the earliest segment. */
  lemma NearestIsArgmin(n: nat, distance: nat -> real, j: nat)
    requires n >= 2 && 1 <= j < n
    ensures distance(Nearest(n, distance)) <= distance(j)
    ensures j < Nearest(n, distance) ==> distance(Nearest(n, distance)) < distance(j)
  {
    var d := DistancesOf(n, distance);
    FirstMinimumIsArgmin(d, n - 1);
    var best := FirstMinimum(d, n - 1);
    assert d[best] <= d[j - 1];
    if j - 1 < best {
      assert d[best] < d[j - 1];
    }
  }

  /** The segment the global search settles on. */
  function ClosestSegment(sample: Vector, ts: seq<real>, points: seq<Vector>): (best: nat)
    requires Tessellated(sample, ts, points)
    ensures 1 <= best < |ts|
  {
    Nearest(|ts|, DistanceOfSegment(sample, ts, points))
  }

  /** The closest segment is nearest to the sample: no segment j is nearer,
      and every segment before it is strictly farther. */
  lemma ClosestSegmentIsNearest(sample: Vector, ts: seq<real>, points: seq<Vector>, j: nat)
    requires Tessellated(sample, ts, points) && 1 <= j < |ts|
    ensures var distance := DistanceOfSegment(sample, ts, points);
      var best := ClosestSegment(sample, ts, points);
      && distance(best) <= distance(j)
      && (j < best ==> distance(best) < distance(j))
  {
    NearestIsArgmin(|ts|, DistanceOfSegment(sample, ts, points), j);
  }

  /** The result of the global search: the projection onto the closest segment. */
  function SearchResult(sample: Vector, ts: seq<real>, points: seq<Vector>): (r: ParameterPoint)
    requires Tessellated(sample, ts, points)
  {
    ProjectionOfSegment(sample, ts, points)(ClosestSegment(sample, ts, points))
  }

  /** The loop of the global search as written, over segments 1 to n - 1,
      each with its squared distance and its projection: the best distance
      starts at infinity (None) and is replaced only by a strictly smaller
      one, so the earliest closest segment wins. */
  method SelectClosest(n: nat, distance: nat -> real, projection: nat -> ParameterPoint) returns (r: ParameterPoint)
    requires n >= 2
    ensures r == projection(Nearest(n, distance))
  {
    ghost var d := DistancesOf(n, distance);
    var closestSqrDistance: Option<real> := None;
    ghost var closestIndex: nat := 0;
    r := (0.0, []);
    var i := 1;
    while i < n
      invariant 1 <= i <= n
      invariant closestSqrDistance.None? <==> i == 1
      invariant i > 1 ==>
        && closestIndex == FirstMinimum(d, i - 1) + 1
        && closestSqrDistance == Some(d[closestIndex - 1])
        && r == projection(closestIndex)
    {
      var projected := projection(i);
      var sqrDistance := distance(i);
      if i > 1 {
        FirstMinimumStep(d, i - 1);
      }
      if closestSqrDistance.None? || sqrDistance < closestSqrDistance.value {
        closestSqrDistance := Some(sqrDistance);
        closestIndex := i;
        r := projected;
      }
      i := i + 1;
    }
  }

  /** The global search: the loop above over the segments of the tessellation. */
  method GlobalSearch(sample: Vector, ts: seq<real>, points: seq<Vector>) returns (r: ParameterPoint)
    requires Tessellated(sample, ts, points)
    ensures r == SearchResult(sample, ts, points)
  {
    r := SelectClosest(|ts|, DistanceOfSegment(sample, ts, points), ProjectionOfSegment(sample, ts, points));
  }

  /** When every sample parameter of the tessellation lies in an interval,
      so does the parameter the global search returns. */
  lemma SearchResultInDomain(sample: Vector, ts: seq<real>, points: seq<Vector>, domain: Interval)
    requires Tessellated(sample, ts, points)
    requires forall i :: 0 <= i < |ts| ==> domain.Contains(ts[i])
    ensures domain.Contains(SearchResult(sample, ts, points).0)
  {
    var best := ClosestSegment(sample, ts, points);
    assert SearchResult(sample, ts, points) == SegmentProjection(sample, ts, points, best);
    ProjectionWithinDomain(sample, points[best - 1], points[best], ts[best - 1], ts[best], domain);
  }

  // ---------------------------------------------------------------------
  // Newton iteration
  // ---------------------------------------------------------------------

  function Residual(c: CurveView, sample: Vector, t: real): Vector
    requires Evaluates(c, |sample|)
  {
    Sub(c.derivativesAt(t)[0], sample)
  }

  /** The stopping test: the residual is shorter than the tolerance, or the
      cosine between the tangent and the residual is below five times the
      tolerance in magnitude. A zero denominator makes the cosine zero. */
  predicate Converged(c: CurveView, norm: Vector -> real, sample: Vector, tolerance: real, t: real)
    requires Evaluates(c, |sample|)
  {
    var f := c.derivativesAt(t);
    var dif := Residual(c, sample, t);
    var c1v := norm(dif);
    var c2n := Dot(f[1], dif);
    var c2d := norm(f[1]) * c1v;
    var c2v := if c2d != 0.0 then c2n / c2d else 0.0;
    c1v < tolerance || (if c2v < 0.0 then -c2v else c2v) < tolerance * 5.0
  }

  function Denominator(c: CurveView, sample: Vector, t: real): real
    requires Evaluates(c, |sample|)
  {
    var f := c.derivativesAt(t);
    Dot(f[2], Residual(c, sample, t)) + SquaredNorm(f[1])
  }

  /** One Newton update, clamped to the domain. */
  function Update(c: CurveView, sample: Vector, t: real): (next: real)
    requires Evaluates(c, |sample|) && Denominator(c, sample, t) != 0.0
    ensures c.domain.t0 <= c.domain.t1 ==> c.domain.Contains(next)
  {
    var f := c.derivativesAt(t);
    var delta := Dot(f[1], Residual(c, sample, t)) / Denominator(c, sample, t);
    c.domain.Clamp(t - delta)
  }

  /** No update among the next n reaches a zero denominator. */
  predicate NewtonDefined(c: CurveView, norm: Vector -> real, sample: Vector, tolerance: real, t: real, n: nat)
    requires Evaluates(c, |sample|)
    decreases n
  {
    n == 0 || Converged(c, norm, sample, tolerance, t)
    || (Denominator(c, sample, t) != 0.0 && NewtonDefined(c, norm, sample, tolerance, Update(c, sample, t), n - 1))
  }

  /** At most n Newton updates from t: the final parameter and the number of
      updates made. */
  function Newton(c: CurveView, norm: Vector -> real, sample: Vector, tolerance: real, t: real, n: nat): (r: (real, nat))
    requires Evaluates(c, |sample|) && NewtonDefined(c, norm, sample, tolerance, t, n)
    ensures r.1 <= n
    ensures r.1 < n ==> Converged(c, norm, sample, tolerance, r.0)
    ensures r.1 == 0 ==> r.0 == t
    ensures r.1 > 0 && c.domain.t0 <= c.domain.t1 ==> c.domain.Contains(r.0)
    decreases n
  {
    if n == 0 || Converged(c, norm, sample, tolerance, t) then (t, 0)
    else
      var r := Newton(c, norm, sample, tolerance, Update(c, sample, t), n - 1);
      (r.0, r.1 + 1)
  }

  /** One round of the Newton loop: stop at a converged parameter, else
      continue from the update with one round fewer. */
  lemma NewtonRound(c: CurveView, norm: Vector -> real, sample: Vector, tolerance: real, t: real, n: nat)
    requires Evaluates(c, |sample|) && NewtonDefined(c, norm, sample, tolerance, t, n)
    ensures n == 0 || Converged(c, norm, sample, tolerance, t) ==> Newton(c, norm, sample, tolerance, t, n).0 == t
    ensures n > 0 && !Converged(c, norm, sample, tolerance, t) ==>
      && Denominator(c, sample, t) != 0.0
      && NewtonDefined(c, norm, sample, tolerance, Update(c, sample, t), n - 1)
      && Newton(c, norm, sample, tolerance, Update(c, sample, t), n - 1).0 == Newton(c, norm, sample, tolerance, t, n).0
  {
  }

  /** The Newton loop as written: five rounds at most, leaving early once
      the stopping test holds. */
  method NewtonLoop(c: CurveView, norm: Vector -> real, sample: Vector, tolerance: real, start: real) returns (t: real)
    requires Evaluates(c, |sample|) && NewtonDefined(c, norm, sample, tolerance, start, MaxIterations)
    ensures t == Newton(c, norm, sample, tolerance, start, MaxIterations).0
  {
    t := start;
    var left := MaxIterations;
    while left > 0
      invariant NewtonDefined(c, norm, sample, tolerance, t, left)
      invariant Newton(c, norm, sample, tolerance, t, left).0
        == Newton(c, norm, sample, tolerance, start, MaxIterations).0
    {
      NewtonRound(c, norm, sample, tolerance, t, left);
      if Converged(c, norm, sample, tolerance, t) {
        break;
      }
      t := Update(c, sample, t);
      left := left - 1;
    }
    NewtonRound(c, norm, sample, tolerance, t, left);
  }

  // ---------------------------------------------------------------------
  // Boundary guard and the whole projection
  // ---------------------------------------------------------------------

  function Distance(c: CurveView, sample: Vector, t: real): real
    requires Evaluates(c, |sample|)
  {
    SquaredNorm(Sub(sample, c.pointAt(t)))
  }

  /** Compare the refined parameter with the start of the domain, then with
      its end, keeping the first that is strictly closer. */
  function Guard(c: CurveView, sample: Vector, t: real): (r: ParameterPoint)
    requires Evaluates(c, |sample|)
    ensures r.1 == c.pointAt(r.0)
    ensures r.0 == t || r.0 == c.domain.t0 || r.0 == c.domain.t1
    ensures Distance(c, sample, r.0) <= Distance(c, sample, t)
    ensures Distance(c, sample, r.0) <= Distance(c, sample, c.domain.t0)
    ensures Distance(c, sample, c.domain.t0) < Distance(c, sample, t) ==> r.0 == c.domain.t0
    ensures Distance(c, sample, c.domain.t0) >= Distance(c, sample, t) ==>
      Distance(c, sample, r.0) <= Distance(c, sample, c.domain.t1)
  {
    var closest := Distance(c, sample, t);
    if Distance(c, sample, c.domain.t0) < closest then (c.domain.t0, c.pointAt(c.domain.t0))
    else if Distance(c, sample, c.domain.t1) < closest then (c.domain.t1, c.pointAt(c.domain.t1))
    else (t, c.pointAt(t))
  }

  /** The start of the domain wins as soon as it beats the refined point,
      even when the end of the domain is closer still. */
  lemma StartOfDomainWinsFirst(c: CurveView, sample: Vector, t: real)
    requires Evaluates(c, |sample|)
    requires Distance(c, sample, c.domain.t1) < Distance(c, sample, c.domain.t0) < Distance(c, sample, t)
    ensures Guard(c, sample, t).0 == c.domain.t0
    ensures Distance(c, sample, Guard(c, sample, t).0) > Distance(c, sample, c.domain.t1)
  {
  }

  /** The state of a projection: the curve, its tessellation, the settings
      and the result of the last call to compute, if any. */
  datatype Tessellation = Tessellation(ts: seq<real>, points: seq<Vector>)

  datatype Projector = Projector(
    curve: CurveView, tessellation: Tessellation, flatness: real, tolerance: real,
    result: Option<ParameterPoint>)

  /** The constructor tessellates the curve once, with the default flatness;
      no result is available before the first compute. */
  function NewProjector(curve: CurveView, tolerance: real, tessellate: (CurveView, real) -> Tessellation): (p: Projector)
    ensures p.result.None? && p.flatness == DefaultFlatness && p.tolerance == tolerance
    ensures p.tessellation == tessellate(curve, DefaultFlatness)
  {
    Projector(curve, tessellate(curve, DefaultFlatness), DefaultFlatness, tolerance, None)
  }

  /** What compute needs: consistent dimensions, at least one segment and no
      zero Newton denominator on the way. */
  ghost predicate CanCompute(p: Projector, norm: Vector -> real, sample: Vector) {
    && Evaluates(p.curve, |sample|)
    && Tessellated(sample, p.tessellation.ts, p.tessellation.points)
    && NewtonDefined(p.curve, norm, sample, p.tolerance, StartParameter(p, sample), MaxIterations)
  }

  function StartParameter(p: Projector, sample: Vector): real
    requires Tessellated(sample, p.tessellation.ts, p.tessellation.points)
  {
    SearchResult(sample, p.tessellation.ts, p.tessellation.points).0
  }

  /** The result of compute(sample): search, refine, then guard. */
  function Projected(p: Projector, norm: Vector -> real, sample: Vector): (r: ParameterPoint)
    requires CanCompute(p, norm, sample)
    ensures r.1 == p.curve.pointAt(r.0)
    ensures var refined := Newton(p.curve, norm, sample, p.tolerance, StartParameter(p, sample), MaxIterations).0;
      Distance(p.curve, sample, r.0) <= Distance(p.curve, sample, refined)
  {
    Guard(p.curve, sample, Newton(p.curve, norm, sample, p.tolerance, StartParameter(p, sample), MaxIterations).0)
  }

  /** compute(sample): the global search, the Newton loop and the guard in
      turn; the settings and the tessellation stay. */
  method Compute(p: Projector, norm: Vector -> real, sample: Vector) returns (q: Projector)
    requires CanCompute(p, norm, sample)
    ensures q.result == Some(Projected(p, norm, sample))
    ensures q.curve == p.curve && q.tessellation == p.tessellation
    ensures q.flatness == p.flatness && q.tolerance == p.tolerance
    ensures q.result.value.1 == q.curve.pointAt(q.result.value.0)
  {
    var c := p.curve;
    var closest := GlobalSearch(sample, p.tessellation.ts, p.tessellation.points);
    var t := NewtonLoop(c, norm, sample, p.tolerance, closest.0);
    var guarded := Guard(c, sample, t);
    q := p.(result := Some(guarded));
  }

  /** The parameter compute stores always lies in the domain of a
      non-reversed curve whose tessellation samples the domain: the search
      stays between sample parameters, a Newton update is clamped, and the
      guard only ever substitutes a domain end. */
  lemma ProjectedInDomain(p: Projector, norm: Vector -> real, sample: Vector)
    requires CanCompute(p, norm, sample)
    requires p.curve.domain.t0 <= p.curve.domain.t1
    requires forall i :: 0 <= i < |p.tessellation.ts| ==> p.curve.domain.Contains(p.tessellation.ts[i])
    ensures p.curve.domain.Contains(Projected(p, norm, sample).0)
  {
    SearchResultInDomain(sample, p.tessellation.ts, p.tessellation.points, p.curve.domain);
  }
}

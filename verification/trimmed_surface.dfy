/** A surface over a restricted parameter domain (Surface): it refers to a
    NURBS surface geometry, keeps its own u and v domains, hands evaluation
    to the geometry and lists the knot spans of the geometry that meet its
    own domain. */
module TrimmedSurface {
  import opened Errors
  import opened Intervals
  import opened LinearAlgebra

  /** The surface geometry as this view uses it. Its evaluation is not part
      of this model and enters as functions. */
  datatype SurfaceGeometry = SurfaceGeometry(
    degreeU: nat, degreeV: nat,
    knotsU: seq<real>, knotsV: seq<real>,
    domainU: Interval, domainV: Interval,
    pointAt: (real, real) -> Vector,
    derivativesAt: (real, real, nat) -> seq<Vector>)

  /** A span locator (KnotVector::upper_span or lower_span): the index of
      the knot span that contains a parameter, for a degree and a knot vector. */
  type SpanLocator = (nat, seq<real>, real) -> int

  /** The locator's answer brackets t: t lies between the span's two knots. */
  predicate Brackets(find: SpanLocator, degree: nat, knots: seq<real>, t: real) {
    var span := find(degree, knots, t);
    0 <= span && span + 1 < |knots| && knots[span] <= t <= knots[span + 1]
  }

  datatype Surface = Surface(geometry: SurfaceGeometry, domainU: Interval, domainV: Interval)

  /** The one-argument constructor: the domains of the geometry. */
  function OfGeometry(g: SurfaceGeometry): (s: Surface)
    ensures s.geometry == g && s.domainU == g.domainU && s.domainV == g.domainV
  {
    WithDomains(g, g.domainU, g.domainV)
  }

  /** The two-argument constructor: domains chosen by the caller. */
  function WithDomains(g: SurfaceGeometry, domainU: Interval, domainV: Interval): (s: Surface)
    ensures s.geometry == g && s.domainU == domainU && s.domainV == domainV
  {
    Surface(g, domainU, domainV)
  }

  function DegreeU(s: Surface): nat { s.geometry.degreeU }

  function DegreeV(s: Surface): nat { s.geometry.degreeV }

  function PointAt(s: Surface, u: real, v: real): Vector { s.geometry.pointAt(u, v) }

  function DerivativesAt(s: Surface, u: real, v: real, order: nat): seq<Vector> { s.geometry.derivativesAt(u, v, order) }

  /** The view answers every evaluation query with the geometry's answer,
      whatever domains it was given. */
  lemma DelegatesToGeometry(g: SurfaceGeometry, domainU: Interval, domainV: Interval, u: real, v: real, order: nat)
    ensures var s := WithDomains(g, domainU, domainV);
      && DegreeU(s) == g.degreeU && DegreeV(s) == g.degreeV
      && PointAt(s, u, v) == g.pointAt(u, v)
      && DerivativesAt(s, u, v, order) == g.derivativesAt(u, v, order)
  {
  }

  /** What the span listing needs: when at least one span is listed, the
      first is a knot index and the last has a knot after it. No knot is
      read when the count is zero or negative. */
  predicate SpansLocatable(degree: nat, knots: seq<real>, domain: Interval, upper: SpanLocator, lower: SpanLocator) {
    var first := upper(degree, knots, domain.t0);
    var last := lower(degree, knots, domain.t1);
    last - first + 1 <= 0 || (0 <= first && last + 1 < |knots|)
  }

  /** r lists the knot spans from the one upper_span finds for the start of
      the domain to the one lower_span finds for its end: a negative count
      is a length_error, otherwise span i runs from knot first + i to knot
      first + i + 1. */
  predicate ListsDomainSpans(r: Result<seq<Interval>>, degree: nat, knots: seq<real>, domain: Interval,
                             upper: SpanLocator, lower: SpanLocator)
    requires SpansLocatable(degree, knots, domain, upper, lower)
  {
    var first := upper(degree, knots, domain.t0);
    var nbSpans := lower(degree, knots, domain.t1) - first + 1;
    && (r.Failure? <==> nbSpans < 0)
    && (r.Failure? ==> r.error == LengthError)
    && (r.Success? ==> |r.value| == nbSpans && forall i :: 0 <= i < |r.value| ==>
          r.value[i] == Interval(knots[first + i], knots[first + i + 1]))
  }

  /** The knot intervals of a domain. A negative count is refused by the
      vector constructor; a zero count gives no spans. */
  function DomainSpans(degree: nat, knots: seq<real>, domain: Interval, upper: SpanLocator, lower: SpanLocator): (r: Result<seq<Interval>>)
    requires SpansLocatable(degree, knots, domain, upper, lower)
    ensures ListsDomainSpans(r, degree, knots, domain, upper, lower)
    ensures r.Success? ==> forall i :: 0 <= i < |r.value| - 1 ==> r.value[i].t1 == r.value[i + 1].t0
  {
    var first := upper(degree, knots, domain.t0);
    var last := lower(degree, knots, domain.t1);
    var nbSpans := last - first + 1;
    if nbSpans < 0 then Failure(LengthError)
    else if nbSpans == 0 then Success([])
    else Success(KnotSpans(knots, first, nbSpans))
  }

  /** spans_u: the u knot spans over the view's own u domain. */
  function SpansU(s: Surface, upper: SpanLocator, lower: SpanLocator): (r: Result<seq<Interval>>)
    requires SpansLocatable(DegreeU(s), s.geometry.knotsU, s.domainU, upper, lower)
    ensures ListsDomainSpans(r, DegreeU(s), s.geometry.knotsU, s.domainU, upper, lower)
  {
    DomainSpans(s.geometry.degreeU, s.geometry.knotsU, s.domainU, upper, lower)
  }

  /** spans_v: the v knot spans over the view's own v domain. */
  function SpansV(s: Surface, upper: SpanLocator, lower: SpanLocator): (r: Result<seq<Interval>>)
    requires SpansLocatable(DegreeV(s), s.geometry.knotsV, s.domainV, upper, lower)
    ensures ListsDomainSpans(r, DegreeV(s), s.geometry.knotsV, s.domainV, upper, lower)
  {
    DomainSpans(s.geometry.degreeV, s.geometry.knotsV, s.domainV, upper, lower)
  }

  /** The spans of a surface built with given domains are those of the
      given domains, not of the geometry's; a surface built from the
      geometry alone lists the spans of the geometry's domains. */
  lemma SpansFollowStoredDomains(g: SurfaceGeometry, domainU: Interval, domainV: Interval, upper: SpanLocator, lower: SpanLocator)
    requires SpansLocatable(g.degreeU, g.knotsU, domainU, upper, lower)
    requires SpansLocatable(g.degreeV, g.knotsV, domainV, upper, lower)
    ensures SpansU(WithDomains(g, domainU, domainV), upper, lower) == DomainSpans(g.degreeU, g.knotsU, domainU, upper, lower)
    ensures SpansV(WithDomains(g, domainU, domainV), upper, lower) == DomainSpans(g.degreeV, g.knotsV, domainV, upper, lower)
    ensures SpansLocatable(g.degreeU, g.knotsU, g.domainU, upper, lower) ==>
      SpansU(OfGeometry(g), upper, lower) == DomainSpans(g.degreeU, g.knotsU, g.domainU, upper, lower)
  {
  }

  /** When both locators bracket their parameter and at least one span is
      listed, the listed spans cover the domain from end to end. */
  lemma DomainSpansCoverDomain(degree: nat, knots: seq<real>, domain: Interval, upper: SpanLocator, lower: SpanLocator)
    requires Brackets(upper, degree, knots, domain.t0) && Brackets(lower, degree, knots, domain.t1)
    requires lower(degree, knots, domain.t1) >= upper(degree, knots, domain.t0)
    ensures SpansLocatable(degree, knots, domain, upper, lower)
    ensures var r := DomainSpans(degree, knots, domain, upper, lower);
      r.Success? && |r.value| > 0 && r.value[0].t0 <= domain.t0 && domain.t1 <= r.value[|r.value| - 1].t1
  {
  }
}

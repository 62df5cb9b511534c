/** A NURBS curve (NurbsCurveGeometry): a degree, a knot vector, poles and an
    optional weight per pole. Construction checks the counts, the domain and
    the knot spans are read off the knot vector, and points and derivatives
    are linear combinations of the poles with a row of the shape-function
    table. */
module NurbsCurveGeometry {
  import opened Errors
  import opened Math
  import opened Intervals
  import opened LinearAlgebra
  import opened CurveShapeFunction

  /** Length of the knot vector of a curve (Nurbs::nb_knots). The kernel
      stores the knot vector without its two outermost knots. */
  function NbKnots(degree: nat, nbPoles: int): int
  {
    nbPoles + degree - 1
  }

  const KnotsPolesMismatch := "Number of knots and poles do not match"
  const WeightsPolesMismatch := "Number of weights and poles do not match"
  const KnotsControlPointsMismatch := "Number of knots and control points do not match"

  /** The state of a curve of `dimension` coordinates. A curve without
      weights is polynomial. */
  datatype Curve = Curve(dimension: nat, degree: nat, knots: seq<real>, poles: seq<Vector>, weights: seq<real>)

  /** Every pole has the curve's dimension, as the fixed-size vector type of
      the kernel guarantees. */
  predicate Valid(c: Curve) {
    c.dimension > 0 && OfDimension(c.poles, c.dimension)
  }

  /** is_rational: the curve carries weights. */
  predicate IsRational(c: Curve) {
    |c.weights| != 0
  }

  // ---------------------------------------------------------------------
  // Construction
  // ---------------------------------------------------------------------

  /** A curve with `nbPoles` zero poles, zero knots and, if requested, zero
      weights. A negative size is refused by the vector constructors. */
  function WithPoleCount(dimension: nat, degree: nat, nbPoles: int, isRational: bool): (r: Result<Curve>)
    requires dimension > 0
    ensures r.Failure? <==> nbPoles < 0 || NbKnots(degree, nbPoles) < 0
    ensures r.Failure? ==> r.error == LengthError
    ensures r.Success? ==>
      && Valid(r.value)
      && r.value.degree == degree
      && |r.value.poles| == nbPoles
      && |r.value.knots| == NbKnots(degree, nbPoles)
      && |r.value.weights| == (if isRational then nbPoles else 0)
    ensures r.Success? ==> (IsRational(r.value) <==> isRational && nbPoles > 0)
  {
    var nbKnots := NbKnots(degree, nbPoles);
    if nbKnots < 0 || nbPoles < 0 then Failure(LengthError)
    else
      Success(Curve(dimension, degree, seq(nbKnots, _ => 0.0), seq(nbPoles, _ => Zero(dimension)),
        seq(if isRational then nbPoles else 0, _ => 0.0)))
  }

  /** A polynomial curve from its knots and poles. */
  function WithKnotsAndPoles(dimension: nat, degree: nat, knots: seq<real>, poles: seq<Vector>): (r: Result<Curve>)
    requires dimension > 0 && OfDimension(poles, dimension)
    ensures r.Success? <==> |knots| == NbKnots(degree, |poles|)
    ensures r.Failure? ==> r.error == RuntimeError(KnotsPolesMismatch)
    ensures r.Success? ==>
      && Valid(r.value) && !IsRational(r.value)
      && r.value.degree == degree && r.value.knots == knots && r.value.poles == poles
  {
    if |knots| != NbKnots(degree, |poles|) then Failure(RuntimeError(KnotsPolesMismatch))
    else Success(Curve(dimension, degree, knots, poles, []))
  }

  /** A curve from its knots, poles and weights. The knot count is checked
      before the weight count. */
  function WithWeights(dimension: nat, degree: nat, knots: seq<real>, poles: seq<Vector>, weights: seq<real>): (r: Result<Curve>)
    requires dimension > 0 && OfDimension(poles, dimension)
    ensures r.Success? <==> |knots| == NbKnots(degree, |poles|) && |weights| == |poles|
    ensures |knots| != NbKnots(degree, |poles|) ==> r == Failure(RuntimeError(KnotsPolesMismatch))
    ensures |knots| == NbKnots(degree, |poles|) && |weights| != |poles| ==>
      r == Failure(RuntimeError(WeightsPolesMismatch))
    ensures r.Success? ==>
      && Valid(r.value)
      && (IsRational(r.value) <==> |poles| > 0)
      && r.value.degree == degree && r.value.knots == knots
      && r.value.poles == poles && r.value.weights == weights
  {
    if |knots| != NbKnots(degree, |poles|) then Failure(RuntimeError(KnotsPolesMismatch))
    else if |weights| != |poles| then Failure(RuntimeError(WeightsPolesMismatch))
    else Success(Curve(dimension, degree, knots, poles, weights))
  }

  /** The (pole, weight) pairs of a curve that has one weight per pole. */
  function ControlPoints(c: Curve): (r: seq<(Vector, real)>)
    requires |c.weights| == |c.poles|
    ensures |r| == |c.poles|
  {
    seq(|c.poles|, i requires 0 <= i < |c.poles| => (c.poles[i], c.weights[i]))
  }

  /** A curve from its knots and (pole, weight) pairs: only the knot count is
      checked, and the curve always carries one weight per pole. */
  function WithControlPoints(dimension: nat, degree: nat, knots: seq<real>, controlPoints: seq<(Vector, real)>): (r: Result<Curve>)
    requires dimension > 0
    requires forall i :: 0 <= i < |controlPoints| ==> |controlPoints[i].0| == dimension
    ensures r.Success? <==> |knots| == NbKnots(degree, |controlPoints|)
    ensures r.Failure? ==> r.error == RuntimeError(KnotsControlPointsMismatch)
    ensures r.Success? ==>
      && Valid(r.value)
      && |r.value.weights| == |r.value.poles|
      && (IsRational(r.value) <==> |controlPoints| > 0)
      && r.value.degree == degree && r.value.knots == knots
      && ControlPoints(r.value) == controlPoints
  {
    if |knots| != NbKnots(degree, |controlPoints|) then Failure(RuntimeError(KnotsControlPointsMismatch))
    else
      Success(Curve(dimension, degree, knots,
        seq(|controlPoints|, i requires 0 <= i < |controlPoints| => controlPoints[i].0),
        seq(|controlPoints|, i requires 0 <= i < |controlPoints| => controlPoints[i].1)))
  }

  /** The control-point constructor as written: size the pole and weight
      vectors, check the knot count, then split the pairs one by one. */
  method ConstructFromControlPoints(dimension: nat, degree: nat, knots: seq<real>, controlPoints: seq<(Vector, real)>)
    returns (r: Result<Curve>)
    requires dimension > 0
    requires forall i :: 0 <= i < |controlPoints| ==> |controlPoints[i].0| == dimension
    ensures r == WithControlPoints(dimension, degree, knots, controlPoints)
  {
    var n := |controlPoints|;
    var poles: seq<Vector> := seq(n, _ => Zero(dimension));
    var weights: seq<real> := seq(n, _ => 0.0);
    if |knots| != NbKnots(degree, n) {
      return Failure(RuntimeError(KnotsControlPointsMismatch));
    }
    var i := 0;
    while i < n
      invariant 0 <= i <= n && |poles| == n && |weights| == n
      invariant forall j :: 0 <= j < i ==> poles[j] == controlPoints[j].0 && weights[j] == controlPoints[j].1
    {
      poles := poles[i := controlPoints[i].0];
      weights := weights[i := controlPoints[i].1];
      i := i + 1;
    }
    assert poles == seq(n, i requires 0 <= i < n => controlPoints[i].0);
    assert weights == seq(n, i requires 0 <= i < n => controlPoints[i].1);
    r := Success(Curve(dimension, degree, knots, poles, weights));
  }

  // ---------------------------------------------------------------------
  // Domain and spans
  // ---------------------------------------------------------------------

  /** The parameter domain: from knot degree - 1 to knot nb_knots - degree. */
  function Domain(c: Curve): (d: Interval)
    requires 1 <= c.degree <= |c.knots|
  {
    Interval(c.knots[c.degree - 1], c.knots[|c.knots| - c.degree])
  }

  /** Number of knot intervals between the first and the last span. */
  function NbSpans(c: Curve): int
  {
    (|c.knots| - c.degree - 1) - (c.degree - 1) + 1
  }

  /** The knot intervals of the domain, one per span, zero-length intervals
      included. A negative count is refused by the vector constructor. */
  function Spans(c: Curve): (r: Result<seq<Interval>>)
    requires c.degree >= 1
    ensures r.Failure? <==> NbSpans(c) < 0
    ensures r.Failure? ==> r.error == LengthError
    ensures r.Success? ==> |r.value| == |c.knots| - 2 * c.degree + 1
    ensures r.Success? ==> forall i :: 0 <= i < |r.value| ==>
      r.value[i] == Interval(c.knots[c.degree - 1 + i], c.knots[c.degree + i])
  {
    var first := c.degree - 1;
    var last := |c.knots| - c.degree - 1;
    var nbSpans := last - first + 1;
    if nbSpans < 0 then Failure(LengthError)
    else Success(KnotSpans(c.knots, first, nbSpans))
  }

  /** The spans tile the domain: consecutive spans share an endpoint, the
      first starts where the domain starts and the last ends where it ends. */
  lemma SpansTileDomain(c: Curve)
    requires c.degree >= 1 && NbSpans(c) > 0
    ensures c.degree <= |c.knots|
    ensures Spans(c).Success?
    ensures var s := Spans(c).value;
      && s[0].t0 == Domain(c).t0
      && s[|s| - 1].t1 == Domain(c).t1
      && forall i :: 0 <= i < |s| - 1 ==> s[i].t1 == s[i + 1].t0
  {
    var s := KnotSpans(c.knots, c.degree - 1, NbSpans(c));
    assert Spans(c) == Success(s);
  }

  /** A repeated knot inside the domain yields a span of zero length: the
      enumeration does not skip it. */
  lemma RepeatedKnotGivesEmptySpan(c: Curve, i: nat)
    requires c.degree >= 1 && i < NbSpans(c)
    requires c.knots[c.degree - 1 + i] == c.knots[c.degree + i]
    ensures Spans(c).Success? && Spans(c).value[i].t0 == Spans(c).value[i].t1
  {
  }

  // ---------------------------------------------------------------------
  // Evaluation
  // ---------------------------------------------------------------------

  /** What the curve hands to the univariate shape-function engine: the
      weights go along exactly when the curve is rational. */
  datatype ShapeQuery = ShapeQuery(degree: nat, order: nat, knots: seq<real>, weights: Option<seq<real>>, t: real)

  function Query(c: Curve, order: nat, t: real): (q: ShapeQuery)
    ensures q.weights.Some? <==> IsRational(c)
    ensures q.weights.Some? ==> q.weights.value == c.weights
    ensures q.degree == c.degree && q.order == order && q.knots == c.knots && q.t == t
  {
    ShapeQuery(c.degree, order, c.knots, if IsRational(c) then Some(c.weights) else None, t)
  }

  /** The engine answers a query with a table of order + 1 rows of
      degree + 1 values. */
  predicate Answers(c: Curve, engine: ShapeQuery -> CurveShape, order: nat, t: real) {
    Shaped(engine(Query(c, order, t)), c.degree, order)
  }

  /** The sum of poles[first + i] * row[i] over the first n entries of the row. */
  function PartialCombination(poles: seq<Vector>, dim: nat, first: nat, row: seq<real>, n: nat): (r: Vector)
    requires 1 <= n <= |row| && first + n <= |poles| && OfDimension(poles, dim)
    ensures |r| == dim
  {
    if n == 1 then Scale(poles[first], row[0])
    else Add(PartialCombination(poles, dim, first, row, n - 1), Scale(poles[first + n - 1], row[n - 1]))
  }

  /** The contraction of a shape row with the poles it covers, starting at
      pole `first`. Reading a pole outside the pole vector is range-checked. */
  function Combination(poles: seq<Vector>, dim: nat, first: int, row: seq<real>): (r: Result<Vector>)
    requires |row| >= 1 && OfDimension(poles, dim)
    ensures r.Failure? <==> first < 0 || first + |row| > |poles|
    ensures r.Failure? ==> r.error == OutOfRange
    ensures r.Success? ==> |r.value| == dim
  {
    if first < 0 || first + |row| > |poles| then Failure(OutOfRange)
    else Success(PartialCombination(poles, dim, first, row, |row|))
  }

  /** The contraction loop as written: the first product initialises the
      point, the later ones are added to it, and every pole read is
      range-checked. */
  method Contract(poles: seq<Vector>, dim: nat, first: int, row: seq<real>) returns (r: Result<Vector>)
    requires |row| >= 1 && OfDimension(poles, dim)
    ensures r == Combination(poles, dim, first, row)
  {
    var point: Vector := [];
    var i := 0;
    while i < |row|
      invariant 0 <= i <= |row|
      invariant i > 0 ==> 0 <= first && first + i <= |poles|
      invariant i > 0 ==> point == PartialCombination(poles, dim, first, row, i)
    {
      var index := first + i;
      if index < 0 || index >= |poles| {
        return Failure(OutOfRange);
      }
      if i == 0 {
        point := Scale(poles[index], row[0]);
      } else {
        point := Add(point, Scale(poles[index], row[i]));
      }
      i := i + 1;
    }
    r := Success(point);
  }

  /** point_at: the order-0 row of the shape table contracted with the poles. */
  function PointAt(c: Curve, engine: ShapeQuery -> CurveShape, t: real): (r: Result<Vector>)
    requires Valid(c) && Answers(c, engine, 0, t)
    ensures var s := engine(Query(c, 0, t));
      r == Combination(c.poles, c.dimension, s.firstNonzeroPole, s.values[0])
  {
    var s := engine(Query(c, 0, t));
    if s.firstNonzeroPole < 0 || s.firstNonzeroPole + c.degree + 1 > |c.poles| then Failure(OutOfRange)
    else Success(PartialCombination(c.poles, c.dimension, s.firstNonzeroPole, s.values[0], c.degree + 1))
  }

  /** derivatives_at: one vector per row of the shape table, row k
      contracted with the same poles. */
  function DerivativesAt(c: Curve, engine: ShapeQuery -> CurveShape, t: real, order: nat): (r: Result<seq<Vector>>)
    requires Valid(c) && Answers(c, engine, order, t)
    ensures var s := engine(Query(c, order, t));
      && (r.Failure? <==> Combination(c.poles, c.dimension, s.firstNonzeroPole, s.values[0]).Failure?)
      && (r.Failure? ==> r.error == OutOfRange)
      && (r.Success? ==> |r.value| == order + 1 && forall k :: 0 <= k <= order ==>
            Combination(c.poles, c.dimension, s.firstNonzeroPole, s.values[k]) == Success(r.value[k]))
  {
    var s := engine(Query(c, order, t));
    if s.firstNonzeroPole < 0 || s.firstNonzeroPole + c.degree + 1 > |c.poles| then Failure(OutOfRange)
    else
      Success(seq(order + 1, k requires 0 <= k <= order =>
        PartialCombination(c.poles, c.dimension, s.firstNonzeroPole, s.values[k], c.degree + 1)))
  }

  /** derivatives_at as written: contract each row of the table in turn. */
  method EvaluateDerivatives(c: Curve, engine: ShapeQuery -> CurveShape, t: real, order: nat) returns (r: Result<seq<Vector>>)
    requires Valid(c) && Answers(c, engine, order, t)
    ensures r == DerivativesAt(c, engine, t, order)
  {
    var s := engine(Query(c, order, t));
    var derivatives: seq<Vector> := [];
    var k := 0;
    while k <= order
      invariant 0 <= k <= order + 1 && |derivatives| == k
      invariant k > 0 ==> 0 <= s.firstNonzeroPole && s.firstNonzeroPole + c.degree + 1 <= |c.poles|
      invariant forall j :: 0 <= j < k ==>
        derivatives[j] == PartialCombination(c.poles, c.dimension, s.firstNonzeroPole, s.values[j], c.degree + 1)
    {
      var row := Contract(c.poles, c.dimension, s.firstNonzeroPole, s.values[k]);
      if row.Failure? {
        return Failure(row.error);
      }
      derivatives := derivatives + [row.value];
      k := k + 1;
    }
    assert derivatives == seq(order + 1, k requires 0 <= k <= order =>
      PartialCombination(c.poles, c.dimension, s.firstNonzeroPole, s.values[k], c.degree + 1));
    r := Success(derivatives);
  }

  /** The point is the zeroth derivative whenever the engine's order-0 row
      does not depend on how many derivatives were asked for. */
  lemma PointIsZerothDerivative(c: Curve, engine: ShapeQuery -> CurveShape, t: real, order: nat)
    requires Valid(c) && Answers(c, engine, 0, t) && Answers(c, engine, order, t)
    requires engine(Query(c, 0, t)).firstNonzeroPole == engine(Query(c, order, t)).firstNonzeroPole
    requires engine(Query(c, 0, t)).values[0] == engine(Query(c, order, t)).values[0]
    ensures PointAt(c, engine, t).Success? <==> DerivativesAt(c, engine, t, order).Success?
    ensures PointAt(c, engine, t).Success? ==>
      PointAt(c, engine, t).value == DerivativesAt(c, engine, t, order).value[0]
  {
  }

  /** Poles that all coincide with p contract to p scaled by the sum of the
      shape row. */
  lemma {:induction false} CombinationOfEqualPoles(poles: seq<Vector>, dim: nat, first: nat, row: seq<real>, n: nat, p: Vector)
    requires 1 <= n <= |row| && first + n <= |poles| && OfDimension(poles, dim) && |p| == dim
    requires forall i :: first <= i < first + n ==> poles[i] == p
    ensures PartialCombination(poles, dim, first, row, n) == Scale(p, Sum(row[..n]))
  {
    SumPrefixStep(row, n - 1);
    if n == 1 {
      assert row[..0] == [];
    } else {
      CombinationOfEqualPoles(poles, dim, first, row, n - 1, p);
      ScaleDistributes(p, Sum(row[..n - 1]), row[n - 1]);
    }
  }

  /** Affine invariance: where the shape row sums to one (a partition of
      unity) and every pole it covers is p, the curve passes through p. */
  lemma PointOfCoincidentPoles(c: Curve, engine: ShapeQuery -> CurveShape, t: real, p: Vector)
    requires Valid(c) && Answers(c, engine, 0, t) && |p| == c.dimension
    requires var s := engine(Query(c, 0, t));
      && 0 <= s.firstNonzeroPole && s.firstNonzeroPole + c.degree + 1 <= |c.poles|
      && Sum(s.values[0]) == 1.0
      && forall i :: s.firstNonzeroPole <= i <= s.firstNonzeroPole + c.degree ==> c.poles[i] == p
    ensures PointAt(c, engine, t) == Success(p)
  {
    var s := engine(Query(c, 0, t));
    var row := s.values[0];
    CombinationOfEqualPoles(c.poles, c.dimension, s.firstNonzeroPole, row, c.degree + 1, p);
    assert row[..c.degree + 1] == row;
    ScaleOne(p);
  }

  /** shape_functions_at as written: copy the engine's table entry by entry
      and pair it with the global indices of the nonzero poles. */
  method ShapeFunctionsAt(c: Curve, engine: ShapeQuery -> CurveShape, t: real, order: nat)
    returns (indices: seq<int>, values: seq<seq<real>>)
    requires Answers(c, engine, order, t)
    ensures |values| == order + 1
    ensures forall k :: 0 <= k <= order ==> |values[k]| == c.degree + 1
    ensures forall k, i :: 0 <= k <= order && 0 <= i <= c.degree ==>
      values[k][i] == engine(Query(c, order, t)).values[k][i]
    ensures |indices| == c.degree + 1
    ensures forall i :: 0 <= i <= c.degree ==> indices[i] == engine(Query(c, order, t)).firstNonzeroPole + i
  {
    var s := engine(Query(c, order, t));
    values := [];
    var k := 0;
    while k <= order
      invariant 0 <= k <= order + 1 && |values| == k
      invariant forall j :: 0 <= j < k ==> values[j] == s.values[j]
    {
      var row: seq<real> := [];
      var i := 0;
      while i <= c.degree
        invariant 0 <= i <= c.degree + 1 && |row| == i
        invariant forall j :: 0 <= j < i ==> row[j] == s.values[k][j]
      {
        row := row + [s.values[k][i]];
        i := i + 1;
      }
      values := values + [row];
      k := k + 1;
    }
    indices := NonzeroPoleIndices(s, c.degree);
  }

  // ---------------------------------------------------------------------
  // Access and mutation
  // ---------------------------------------------------------------------

  /** pole(i), range-checked. */
  function Pole(c: Curve, i: int): (r: Result<Vector>)
    ensures r.Success? <==> 0 <= i < |c.poles|
    ensures r.Failure? ==> r.error == OutOfRange
    ensures r.Success? ==> r.value == c.poles[i]
  {
    if 0 <= i < |c.poles| then Success(c.poles[i]) else Failure(OutOfRange)
  }

  /** weight(i), range-checked: a polynomial curve has no weight to read. */
  function Weight(c: Curve, i: int): (r: Result<real>)
    ensures r.Success? <==> 0 <= i < |c.weights|
    ensures r.Failure? ==> r.error == OutOfRange
    ensures r.Success? ==> r.value == c.weights[i]
  {
    if 0 <= i < |c.weights| then Success(c.weights[i]) else Failure(OutOfRange)
  }

  /** set_pole(i, value), range-checked. */
  function SetPole(c: Curve, i: int, value: Vector): (r: Result<Curve>)
    requires |value| == c.dimension
    ensures r.Success? <==> 0 <= i < |c.poles|
    ensures r.Failure? ==> r.error == OutOfRange
    ensures r.Success? ==>
      && (Valid(c) ==> Valid(r.value))
      && r.value.dimension == c.dimension && r.value.degree == c.degree
      && r.value.knots == c.knots && r.value.weights == c.weights
      && |r.value.poles| == |c.poles|
  {
    if 0 <= i < |c.poles| then Success(c.(poles := c.poles[i := value])) else Failure(OutOfRange)
  }

  /** set_weight(i, value), range-checked. */
  function SetWeight(c: Curve, i: int, value: real): (r: Result<Curve>)
    ensures r.Success? <==> 0 <= i < |c.weights|
    ensures r.Failure? ==> r.error == OutOfRange
    ensures r.Success? ==>
      && (Valid(c) ==> Valid(r.value))
      && r.value.dimension == c.dimension && r.value.degree == c.degree
      && r.value.knots == c.knots && r.value.poles == c.poles
      && |r.value.weights| == |c.weights|
  {
    if 0 <= i < |c.weights| then Success(c.(weights := c.weights[i := value])) else Failure(OutOfRange)
  }

  /** set_knot(i, value) is not range-checked: the caller keeps i in range. */
  function SetKnot(c: Curve, i: nat, value: real): (r: Curve)
    requires i < |c.knots|
    ensures Valid(c) ==> Valid(r)
    ensures r.dimension == c.dimension && r.degree == c.degree
    ensures r.poles == c.poles && r.weights == c.weights && |r.knots| == |c.knots|
  {
    c.(knots := c.knots[i := value])
  }

  /** Reading pole j after setting pole i gives the new value at i and the
      old value everywhere else. */
  lemma PoleAfterSetPole(c: Curve, i: int, value: Vector, j: int)
    requires |value| == c.dimension && SetPole(c, i, value).Success?
    ensures Pole(SetPole(c, i, value).value, j) == if j == i then Success(value) else Pole(c, j)
  {
  }

  /** Reading weight j after setting weight i gives the new value at i and
      the old value everywhere else. */
  lemma WeightAfterSetWeight(c: Curve, i: int, value: real, j: int)
    requires SetWeight(c, i, value).Success?
    ensures Weight(SetWeight(c, i, value).value, j) == if j == i then Success(value) else Weight(c, j)
  {
  }

  /** Knot j after set_knot(i, value). */
  lemma KnotAfterSetKnot(c: Curve, i: nat, value: real, j: nat)
    requires i < |c.knots| && j < |c.knots|
    ensures SetKnot(c, i, value).knots[j] == if j == i then value else c.knots[j]
  {
  }
}

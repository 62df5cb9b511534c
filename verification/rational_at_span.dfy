/** The rational `compute_at_span`: the pole weights of the span pair applied
    to the B-spline table, and the correction of rational_shape_function.dfy
    applied to the result. */
module RationalSurfaceShapeFunction {
  import opened Math
  import opened CurveShapeFunction
  import opened SurfaceShapeFunction
  import opened RationalShapeFunction

  // ---------------------------------------------------------------------------
  // Applying the pole weights
  // ---------------------------------------------------------------------------

  /** One pass of the weighting loop: multiplies the entries of a row by the
      weights of their poles, (a, b) in row-major order, and accumulates the
      weighted sum. */
  method WeightRow(row: seq<real>, local: seq<real>, nbU: nat, nbV: nat) returns (weighted: seq<real>, sum: real)
    requires |row| == Times(nbU, nbV) && |local| == |row|
    ensures weighted == MultiplyRows(row, local)
    ensures sum == Sum(weighted)
  {
    ghost var target := MultiplyRows(row, local);
    weighted, sum := row, 0.0;
    var a := 0;
    while a < nbU
      invariant a <= nbU && |weighted| == |row|
      invariant Times(a, nbV) <= |row|
      invariant forall q :: 0 <= q < |row| ==> weighted[q] == if q < Times(a, nbV) then target[q] else row[q]
      invariant sum == Sum(target[..Times(a, nbV)])
    {
      TimesStrict(a, nbU, nbV);
      weighted, sum := WeightPoleRow(row, local, nbU, nbV, a, weighted, sum);
      a := a + 1;
    }
    assert target[..|row|] == target;
  }

  /** The inner loop of WeightRow: the poles (a, 0) .. (a, nbV - 1). */
  method WeightPoleRow(row: seq<real>, local: seq<real>, nbU: nat, nbV: nat, a: nat, before: seq<real>, sumBefore: real)
    returns (weighted: seq<real>, sum: real)
    requires |row| == Times(nbU, nbV) && |local| == |row| && |before| == |row|
    requires a < nbU && Times(a, nbV) + nbV <= |row|
    requires forall q :: 0 <= q < |row| ==>
      before[q] == if q < Times(a, nbV) then MultiplyRows(row, local)[q] else row[q]
    requires sumBefore == Sum(MultiplyRows(row, local)[..Times(a, nbV)])
    ensures |weighted| == |row|
    ensures forall q :: 0 <= q < |row| ==>
      weighted[q] == if q < Times(a, nbV) + nbV then MultiplyRows(row, local)[q] else row[q]
    ensures sum == Sum(MultiplyRows(row, local)[..Times(a, nbV) + nbV])
  {
    ghost var target := MultiplyRows(row, local);
    weighted, sum := before, sumBefore;
    var b := 0;
    while b < nbV
      invariant b <= nbV && |weighted| == |row|
      invariant forall q :: 0 <= q < |row| ==> weighted[q] == if q < Times(a, nbV) + b then target[q] else row[q]
      invariant sum == Sum(target[..Times(a, nbV) + b])
    {
      var q := SingleIndex(nbU, nbV, a, b);
      var x := weighted[q] * local[q];
      assert x == target[q];
      ExtendPrefix(weighted, row, target, q);
      weighted := weighted[q := x];
      sum := sum + x;
      SumPrefixStep(target, q);
      b := b + 1;
    }
  }

  /** Overwriting the first entry past the finished prefix with its target
      value extends the prefix by one. */
  lemma ExtendPrefix(current: seq<real>, row: seq<real>, target: seq<real>, q: nat)
    requires |current| == |row| == |target| && q < |row|
    requires forall i :: 0 <= i < |row| ==> current[i] == if i < q then target[i] else row[i]
    ensures forall i :: 0 <= i < |row| ==> current[q := target[q]][i] == if i < q + 1 then target[i] else row[i]
  {
  }

  /** The weighting loop of the rational `compute_at_span` over every derivative
      row. */
  method ApplyWeights(values: seq<seq<real>>, local: seq<real>, nbU: nat, nbV: nat, order: nat)
    returns (t: WeightedTable)
    requires |local| == Times(nbU, nbV)
    requires forall s :: 0 <= s < |values| ==> |values[s]| == |local|
    ensures t == Weighted(values, local, order)
  {
    var rows: seq<seq<real>> := [];
    var sums: seq<real> := [];
    var shape := 0;
    while shape < |values|
      invariant shape <= |values| && |rows| == shape && |sums| == shape
      invariant forall s :: 0 <= s < shape ==> rows[s] == MultiplyRows(values[s], local) && sums[s] == Sum(rows[s])
    {
      var weighted, sum := WeightRow(values[shape], local, nbU, nbV);
      rows, sums := rows + [weighted], sums + [sum];
      shape := shape + 1;
    }
    t := WeightedTable(order, |local|, rows, sums);
  }

  /** The non-rational `compute_at_span` the rational one starts from, with
      its result stated as a whole table. */
  method SplineTable(w: Workspace, u: CurveShape, v: CurveShape, spanU: int, spanV: int)
    returns (spline: Workspace)
    requires Sized(w)
    requires Shaped(u, w.degreeU, w.order) && Shaped(v, w.degreeV, w.order)
    ensures Sized(spline)
    ensures spline.degreeU == w.degreeU && spline.degreeV == w.degreeV && spline.order == w.order
    ensures spline.firstNonzeroPoleU == spanU - w.degreeU + 1
    ensures spline.firstNonzeroPoleV == spanV - w.degreeV + 1
    ensures spline.values == TensorTable(u, v, w.degreeU, w.degreeV, w.order)
  {
    spline := ComputeAtSpan(w, u, v, spanU, spanV);
  }

  /** Rational `compute_at_span`: the B-spline table, weighted by the poles of
      the span pair, then corrected row by row into the derivatives of the
      rational basis functions. */
  method ComputeAtSpanRational(w: Workspace, u: CurveShape, v: CurveShape, weights: seq<seq<real>>,
                               spanU: int, spanV: int) returns (r: Outcome)
    requires Sized(w)
    requires Shaped(u, w.degreeU, w.order) && Shaped(v, w.degreeV, w.order)
    requires CoversWindow(weights, spanU - w.degreeU + 1, spanV - w.degreeV + 1, w.degreeU + 1, w.degreeV + 1)
    ensures r == RationalAtSpan(w, u, v, weights, spanU, spanV)
  {
    var spline, t := WeightSpan(w, u, v, weights, spanU, spanV);
    if t.sums[0] == 0.0 {
      return ZeroWeightSum;
    }
    var rows := CorrectRows(t);
    r := Computed(spline.(values := rows, weightedSums := t.sums));
    UpdatedSpline(w, spanU, spanV, spline, t, rows);
  }

  /** The weighting loop of the rational `compute_at_span`: the B-spline table
      of the span pair, weighted by the poles of the span pair. */
  method WeightSpan(w: Workspace, u: CurveShape, v: CurveShape, weights: seq<seq<real>>,
                    spanU: int, spanV: int) returns (spline: Workspace, t: WeightedTable)
    requires Sized(w)
    requires Shaped(u, w.degreeU, w.order) && Shaped(v, w.degreeV, w.order)
    requires CoversWindow(weights, spanU - w.degreeU + 1, spanV - w.degreeV + 1, w.degreeU + 1, w.degreeV + 1)
    ensures spline.degreeU == w.degreeU && spline.degreeV == w.degreeV && spline.order == w.order
    ensures spline.firstNonzeroPoleU == spanU - w.degreeU + 1
    ensures spline.firstNonzeroPoleV == spanV - w.degreeV + 1
    ensures t == SpanTable(u, v, weights, w.degreeU, w.degreeV, w.order, spanU, spanV)
  {
    spline := SplineTable(w, u, v, spanU, spanV);
    var local := LocalWeights(weights, spline.firstNonzeroPoleU, spline.firstNonzeroPoleV, w.degreeU + 1, w.degreeV + 1);
    t := ApplyWeights(spline.values, local, w.degreeU + 1, w.degreeV + 1, w.order);
    SpanTableOfParts(w, u, v, weights, spanU, spanV, spline.values, local, t);
  }

  /** The table the weighting loop builds is the span table. */
  lemma SpanTableOfParts(w: Workspace, u: CurveShape, v: CurveShape, weights: seq<seq<real>>,
                         spanU: int, spanV: int, values: seq<seq<real>>, local: seq<real>, t: WeightedTable)
    requires Shaped(u, w.degreeU, w.order) && Shaped(v, w.degreeV, w.order)
    requires CoversWindow(weights, spanU - w.degreeU + 1, spanV - w.degreeV + 1, w.degreeU + 1, w.degreeV + 1)
    requires values == TensorTable(u, v, w.degreeU, w.degreeV, w.order)
    requires local == LocalWeights(weights, spanU - w.degreeU + 1, spanV - w.degreeV + 1, w.degreeU + 1, w.degreeV + 1)
    requires t == Weighted(values, local, w.order)
    ensures t == SpanTable(u, v, weights, w.degreeU, w.degreeV, w.order, spanU, spanV)
  {
    var tensor := TensorTable(u, v, w.degreeU, w.degreeV, w.order);
    var window := LocalWeights(weights, spanU - w.degreeU + 1, spanV - w.degreeV + 1, w.degreeU + 1, w.degreeV + 1);
    assert values == tensor && local == window;
    assert t == Weighted(tensor, window, w.order);
  }

  /** The spline workspace with its rows and weighted sums replaced is the
      workspace Corrected describes. */
  lemma UpdatedSpline(w: Workspace, spanU: int, spanV: int, spline: Workspace, t: WeightedTable, rows: seq<seq<real>>)
    requires Divisible(t) && rows == RationalTable(t)
    requires spline.degreeU == w.degreeU && spline.degreeV == w.degreeV && spline.order == w.order
    requires spline.firstNonzeroPoleU == spanU - w.degreeU + 1
    requires spline.firstNonzeroPoleV == spanV - w.degreeV + 1
    ensures Computed(spline.(values := rows, weightedSums := t.sums)) == Corrected(w, t, spanU, spanV)
  {
  }
}

/** The interface of the univariate shape-function engine
    (NurbsCurveShapeFunction), which computes the basis values of one knot span.
    The engine itself is not part of this model: its tables enter the model as
    inputs, and only their shape is assumed. */
module CurveShapeFunction {

  /** One evaluation of the univariate engine: `values[k][i]` is the k-th
      derivative of the shape function of local pole i, and local pole i is
      global pole `firstNonzeroPole + i`. */
  datatype CurveShape = CurveShape(firstNonzeroPole: int, values: seq<seq<real>>)

  /** The table has one row per derivative order 0..order and one column per
      nonzero pole of a span, degree + 1 of them. */
  predicate Shaped(s: CurveShape, degree: nat, order: nat) {
    && |s.values| == order + 1
    && forall k :: 0 <= k < |s.values| ==> |s.values[k]| == degree + 1
  }

  /** Global indices of the nonzero poles, in local order. */
  function NonzeroPoleIndices(s: CurveShape, degree: nat): (r: seq<int>)
    ensures |r| == degree + 1
    ensures forall i :: 0 <= i <= degree ==> r[i] == s.firstNonzeroPole + i
  {
    seq(degree + 1, i => s.firstNonzeroPole + i)
  }
}

/** Fixed-dimension real vectors, stored as sequences of coordinates, and the
    few operations the kernel applies to them. */
module LinearAlgebra {
  import opened Math

  type Vector = seq<real>

  /** Every vector of the sequence has `dim` coordinates. */
  predicate OfDimension(vs: seq<Vector>, dim: nat) {
    forall i :: 0 <= i < |vs| ==> |vs[i]| == dim
  }

  function Zero(dim: nat): (r: Vector)
    ensures |r| == dim
    ensures forall i :: 0 <= i < dim ==> r[i] == 0.0
  {
    seq(dim, i => 0.0)
  }

  function Add(a: Vector, b: Vector): (r: Vector)
    requires |a| == |b|
    ensures |r| == |a|
    ensures forall i :: 0 <= i < |a| ==> r[i] == a[i] + b[i]
  {
    seq(|a|, i requires 0 <= i < |a| => a[i] + b[i])
  }

  function Sub(a: Vector, b: Vector): (r: Vector)
    requires |a| == |b|
    ensures |r| == |a|
    ensures forall i :: 0 <= i < |a| ==> r[i] == a[i] - b[i]
  {
    seq(|a|, i requires 0 <= i < |a| => a[i] - b[i])
  }

  function Scale(a: Vector, k: real): (r: Vector)
    ensures |r| == |a|
    ensures forall i :: 0 <= i < |a| ==> r[i] == a[i] * k
  {
    seq(|a|, i requires 0 <= i < |a| => a[i] * k)
  }

  function Dot(a: Vector, b: Vector): real
    requires |a| == |b|
  {
    SumOfProducts(a, b)
  }

  function SquaredNorm(a: Vector): real
  {
    Dot(a, a)
  }

  /** Squared distance between two points of the same dimension. */
  function SquaredDistance(a: Vector, b: Vector): real
    requires |a| == |b|
  {
    SquaredNorm(Sub(a, b))
  }

  /** Scaling one factor scales the dot product. */
  lemma {:induction false} DotScaleRight(a: Vector, b: Vector, k: real)
    requires |a| == |b|
    ensures Dot(a, Scale(b, k)) == Dot(a, b) * k
  {
    if |a| > 0 {
      var n := |a| - 1;
      PrefixOfProducts(a, Scale(b, k), n);
      PrefixOfProducts(a, b, n);
      PrefixOfScale(b, k, n);
      DotScaleRight(a[..n], b[..n], k);
      assert a[n] * (b[n] * k) == (a[n] * b[n]) * k;
    }
  }

  /** A zero vector is orthogonal to every vector. */
  lemma {:induction false} DotZeroLeft(a: Vector, b: Vector)
    requires |a| == |b|
    requires forall i :: 0 <= i < |a| ==> a[i] == 0.0
    ensures Dot(a, b) == 0.0
  {
    if |a| > 0 {
      var n := |a| - 1;
      PrefixOfProducts(a, b, n);
      DotZeroLeft(a[..n], b[..n]);
    }
  }

  lemma PrefixOfProducts(a: Vector, b: Vector, n: nat)
    requires |a| == |b| && n <= |a|
    ensures MultiplyRows(a, b)[..n] == MultiplyRows(a[..n], b[..n])
  {
    var l, r := MultiplyRows(a, b)[..n], MultiplyRows(a[..n], b[..n]);
    assert |l| == |r|;
    forall p | 0 <= p < n ensures l[p] == r[p] {
      assert l[p] == a[p] * b[p];
    }
  }

  lemma PrefixOfScale(a: Vector, k: real, n: nat)
    requires n <= |a|
    ensures Scale(a, k)[..n] == Scale(a[..n], k)
  {
    var l, r := Scale(a, k)[..n], Scale(a[..n], k);
    assert |l| == |r|;
    forall p | 0 <= p < n ensures l[p] == r[p] {
      assert l[p] == a[p] * k;
    }
  }

  /** Scaling distributes over a sum of factors. */
  lemma ScaleDistributes(p: Vector, a: real, b: real)
    ensures Add(Scale(p, a), Scale(p, b)) == Scale(p, a + b)
  {
    var l, r := Add(Scale(p, a), Scale(p, b)), Scale(p, a + b);
    forall i | 0 <= i < |p| ensures l[i] == r[i] {
      assert p[i] * a + p[i] * b == p[i] * (a + b);
    }
  }

  lemma ScaleOne(p: Vector)
    ensures Scale(p, 1.0) == p
  {
  }

  /** Moving from `a` the whole way along `b - a` lands on `b`. */
  lemma AddFullStep(a: Vector, b: Vector)
    requires |a| == |b|
    ensures Add(a, Scale(Sub(b, a), 1.0)) == b
  {
  }

  /** Moving from `a` zero times along any direction stays at `a`. */
  lemma AddNoStep(a: Vector, d: Vector)
    requires |a| == |d|
    ensures Add(a, Scale(d, 0.0)) == a
  {
  }
}

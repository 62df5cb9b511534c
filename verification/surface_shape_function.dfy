/** The bivariate shape-function table of a NURBS surface
    (NurbsSurfaceShapeFunction): the tensor product of two univariate tables
    over a triangular numbering of the mixed derivatives, with the
    Leibniz-rule correction for rational surfaces. */
module SurfaceShapeFunction {
  import opened Math
  import opened CurveShapeFunction

  // ---------------------------------------------------------------------------
  // Triangular numbering of the derivative pairs (du, dv)
  // ---------------------------------------------------------------------------

  /** Number of pairs on the diagonals 0 .. n - 1, i.e. 0 + 1 + ... + (n - 1). */
  function Triangle(n: nat): nat
  {
    if n == 0 then 0 else Triangle(n - 1) + n
  }

  lemma {:induction false} TriangleClosedForm(n: nat)
    ensures 2 * Triangle(n) == n * (n + 1)
  {
    if n > 0 {
      TriangleClosedForm(n - 1);
      assert n * (n + 1) == (n - 1) * n + 2 * n;
    }
  }

  lemma {:induction false} TriangleMonotone(a: nat, b: nat)
    ensures a <= b ==> Triangle(a) <= Triangle(b)
    ensures a < b ==> Triangle(a + 1) <= Triangle(b)
    decreases b
  {
    if a < b {
      TriangleMonotone(a, b - 1);
    }
  }

  /** Number of derivative pairs (du, dv) with du + dv <= order: one diagonal
      of d + 1 pairs for each total order d = 0 .. order. */
  function NbShapes(order: nat): nat
  {
    Triangle(order + 1)
  }

  /** Position of the derivative pair (du, dv): pairs are numbered diagonal by
      diagonal (by du + dv), and by dv within a diagonal. */
  function ShapeIndex(du: nat, dv: nat): nat
  {
    dv + Triangle(du + dv)
  }

  /** The closed forms `nb_shapes` and `shape_index` compute: the halvings are
      exact, so integer division loses nothing. */
  lemma ClosedForms(order: nat, du: nat, dv: nat)
    ensures 2 * NbShapes(order) == (order + 1) * (order + 2)
    ensures NbShapes(order) == (1 + order) * (2 + order) / 2
    ensures ShapeIndex(du, dv) == dv + (du + dv) * (1 + du + dv) / 2
  {
    TriangleClosedForm(order + 1);
    TriangleClosedForm(du + dv);
  }

  /** A pair lies inside the table of `order` exactly when its derivative orders
      add up to at most `order`. */
  lemma ShapeIndexInRange(du: nat, dv: nat, order: nat)
    ensures ShapeIndex(du, dv) < NbShapes(order) <==> du + dv <= order
  {
    TriangleMonotone(du + dv, order + 1);
    TriangleMonotone(order + 1, du + dv);
  }

  /** The numbering of pairs is one-to-one. */
  lemma ShapeIndexInjective(du: nat, dv: nat, du': nat, dv': nat)
    requires ShapeIndex(du, dv) == ShapeIndex(du', dv')
    ensures du == du' && dv == dv'
  {
    TriangleMonotone(du + dv, du' + dv');
    TriangleMonotone(du' + dv', du + dv);
  }

  /** The diagonal holding position s, searched upwards from diagonal n. */
  function Diagonal(s: nat, n: nat): (m: nat)
    requires Triangle(n) <= s
    ensures Triangle(m) <= s < Triangle(m + 1)
    decreases s - Triangle(n)
  {
    if s < Triangle(n + 1) then n else Diagonal(s, n + 1)
  }

  /** The derivative pair stored at position s: the inverse of ShapeIndex. */
  function DerivativesOf(s: nat): (d: (nat, nat))
    ensures ShapeIndex(d.0, d.1) == s
  {
    var n := Diagonal(s, 0);
    (n - (s - Triangle(n)), s - Triangle(n))
  }

  /** Reading back the pair stored at a pair's own position gives the pair. */
  lemma DerivativesOfShapeIndex(du: nat, dv: nat)
    ensures DerivativesOf(ShapeIndex(du, dv)) == (du, dv)
  {
    var d := DerivativesOf(ShapeIndex(du, dv));
    ShapeIndexInjective(d.0, d.1, du, dv);
  }

  /** Every position of the table of `order` holds a pair of total order at
      most `order`. */
  lemma DerivativesOfInRange(s: nat, order: nat)
    requires s < NbShapes(order)
    ensures DerivativesOf(s).0 + DerivativesOf(s).1 <= order
  {
    var d := DerivativesOf(s);
    ShapeIndexInRange(d.0, d.1, order);
  }

  /** ShapeIndex is a bijection from {(du, dv) : du + dv <= order} onto
      [0, NbShapes(order)), with DerivativesOf as its inverse. */
  lemma ShapeIndexBijection(order: nat)
    ensures forall du: nat, dv: nat :: du + dv <= order ==>
      ShapeIndex(du, dv) < NbShapes(order) && DerivativesOf(ShapeIndex(du, dv)) == (du, dv)
    ensures forall s: nat :: s < NbShapes(order) ==>
      DerivativesOf(s).0 + DerivativesOf(s).1 <= order && ShapeIndex(DerivativesOf(s).0, DerivativesOf(s).1) == s
  {
    forall du: nat, dv: nat | du + dv <= order
      ensures ShapeIndex(du, dv) < NbShapes(order) && DerivativesOf(ShapeIndex(du, dv)) == (du, dv)
    {
      ShapeIndexInRange(du, dv, order);
      DerivativesOfShapeIndex(du, dv);
    }
    forall s: nat | s < NbShapes(order)
      ensures DerivativesOf(s).0 + DerivativesOf(s).1 <= order
    {
      DerivativesOfInRange(s, order);
    }
  }

  // ---------------------------------------------------------------------------
  // The workspace
  // ---------------------------------------------------------------------------

  /** The state of a NurbsSurfaceShapeFunction object. The flat value buffer
      of nb_shapes * nb_nonzero_poles entries is held as its nb_shapes rows:
      `values[s][p]` is the entry stored at position
      single_index(nb_shapes, nb_nonzero_poles, s, p) of the buffer
      (FlatValueAt). `weightedSums` holds one weight-function derivative per
      derivative pair. The two univariate engines the object owns are
      represented by their degrees. */
  datatype Workspace = Workspace(
    degreeU: nat,
    degreeV: nat,
    order: nat,
    weightedSums: seq<real>,
    values: seq<seq<real>>,
    firstNonzeroPoleU: int,
    firstNonzeroPoleV: int)

  function NbNonzeroPolesU(w: Workspace): nat { w.degreeU + 1 }

  function NbNonzeroPolesV(w: Workspace): nat { w.degreeV + 1 }

  function NbNonzeroPoles(w: Workspace): nat { Times(NbNonzeroPolesU(w), NbNonzeroPolesV(w)) }

  function LastNonzeroPoleU(w: Workspace): int { w.firstNonzeroPoleU + w.degreeU }

  function LastNonzeroPoleV(w: Workspace): int { w.firstNonzeroPoleV + w.degreeV }

  /** The buffers have the sizes `resize` gives them. */
  predicate Sized(w: Workspace) {
    && |w.values| == NbShapes(w.order)
    && (forall s :: 0 <= s < |w.values| ==> |w.values[s]| == NbNonzeroPoles(w))
    && |w.weightedSums| == NbShapes(w.order)
  }

  /** The flat buffer itself: the rows laid out one after the other. */
  function FlatValues(w: Workspace): (r: seq<real>)
    requires Sized(w)
    ensures |r| == Times(NbShapes(w.order), NbNonzeroPoles(w))
  {
    Layout(w.values, NbShapes(w.order), NbNonzeroPoles(w))
  }

  /** Entry p of row s sits at position single_index(nb_shapes,
      nb_nonzero_poles, s, p) of the flat buffer. */
  lemma FlatValueAt(w: Workspace, s: nat, p: nat)
    requires Sized(w)
    requires s < NbShapes(w.order) && p < NbNonzeroPoles(w)
    ensures SingleIndex(NbShapes(w.order), NbNonzeroPoles(w), s, p) < |FlatValues(w)|
    ensures FlatValues(w)[SingleIndex(NbShapes(w.order), NbNonzeroPoles(w), s, p)] == w.values[s][p]
  {
    LayoutAt(w.values, NbShapes(w.order), NbNonzeroPoles(w), s, p);
  }

  /** std::vector::resize: keeps the first entries and appends zeros. */
  function ResizeBuffer(s: seq<real>, n: nat): (r: seq<real>)
    ensures |r| == n
    ensures forall i :: 0 <= i < n && i < |s| ==> r[i] == s[i]
    ensures forall i :: |s| <= i < n ==> r[i] == 0.0
  {
    if n <= |s| then s[..n] else s + seq(n - |s|, i => 0.0)
  }

  /** `resize`: sets degrees and order and sizes the value buffer to
      nb_shapes(order) * (degree_u + 1) * (degree_v + 1) entries and the
      weighted sums to nb_shapes(order) entries. */
  function Resize(w: Workspace, degreeU: nat, degreeV: nat, order: nat): (r: Workspace)
    ensures Sized(r)
    ensures r.degreeU == degreeU && r.degreeV == degreeV && r.order == order
    ensures |FlatValues(r)| == NbShapes(order) * ((degreeU + 1) * (degreeV + 1))
    ensures |r.weightedSums| == NbShapes(order)
    ensures forall i :: 0 <= i < |r.weightedSums| && i < |w.weightedSums| ==> r.weightedSums[i] == w.weightedSums[i]
    ensures r.firstNonzeroPoleU == w.firstNonzeroPoleU && r.firstNonzeroPoleV == w.firstNonzeroPoleV
  {
    var nbShapes := NbShapes(order);
    var nbNonzeroPoles := Times(degreeU + 1, degreeV + 1);
    TimesIsProduct(degreeU + 1, degreeV + 1);
    TimesIsProduct(nbShapes, nbNonzeroPoles);
    w.(degreeU := degreeU, degreeV := degreeV, order := order,
       values := seq(nbShapes, s => seq(nbNonzeroPoles, p => 0.0)),
       weightedSums := ResizeBuffer(w.weightedSums, nbShapes))
  }

  /** Value of derivative row `derivative` at local pole (a, b): entry
      single_index(nb_nonzero_poles_u, nb_nonzero_poles_v, a, b) of the row. */
  function Value(w: Workspace, derivative: nat, a: nat, b: nat): real
    requires Sized(w)
    requires derivative < NbShapes(w.order)
    requires a < NbNonzeroPolesU(w) && b < NbNonzeroPolesV(w)
  {
    w.values[derivative][SingleIndex(NbNonzeroPolesU(w), NbNonzeroPolesV(w), a, b)]
  }

  /** Global (u, v) pole indices of the nonzero poles, stored at the row-major
      position of their local indices. */
  function PoleIndices(firstU: int, firstV: int, nbU: nat, nbV: nat): (r: seq<(int, int)>)
    ensures |r| == Times(nbU, nbV)
    ensures forall a, b :: 0 <= a < nbU && 0 <= b < nbV ==>
      r[SingleIndex(nbU, nbV, a, b)] == (firstU + a, firstV + b)
  {
    var rows := PoleRows(firstU, firstV, nbU, nbV);
    forall a, b | 0 <= a < nbU && 0 <= b < nbV
      ensures Layout(rows, nbU, nbV)[SingleIndex(nbU, nbV, a, b)] == (firstU + a, firstV + b)
    {
      LayoutAt(rows, nbU, nbV, a, b);
    }
    Layout(rows, nbU, nbV)
  }

  function PoleRows(firstU: int, firstV: int, nbU: nat, nbV: nat): (rows: seq<seq<(int, int)>>)
    ensures |rows| == nbU
    ensures forall a :: 0 <= a < nbU ==> |rows[a]| == nbV
    ensures forall a, b :: 0 <= a < nbU && 0 <= b < nbV ==> rows[a][b] == (firstU + a, firstV + b)
  {
    seq(nbU, a => seq(nbV, b => (firstU + a, firstV + b)))
  }

  /** `nonzero_pole_indices`: every local pair (a, b) appears exactly once,
      mapped to the global pair (first_u + a, first_v + b). */
  function NonzeroPoleIndices(w: Workspace): (r: seq<(int, int)>)
    ensures |r| == NbNonzeroPoles(w)
    ensures forall a, b :: 0 <= a < NbNonzeroPolesU(w) && 0 <= b < NbNonzeroPolesV(w) ==>
      r[SingleIndex(NbNonzeroPolesU(w), NbNonzeroPolesV(w), a, b)]
        == (w.firstNonzeroPoleU + a, w.firstNonzeroPoleV + b)
    ensures forall p, q :: 0 <= p < q < |r| ==> r[p] != r[q]
    ensures forall p :: 0 <= p < |r| ==>
      w.firstNonzeroPoleU <= r[p].0 <= LastNonzeroPoleU(w) &&
      w.firstNonzeroPoleV <= r[p].1 <= LastNonzeroPoleV(w)
  {
    PoleIndicesDistinct(w.firstNonzeroPoleU, w.firstNonzeroPoleV, NbNonzeroPolesU(w), NbNonzeroPolesV(w));
    PoleIndices(w.firstNonzeroPoleU, w.firstNonzeroPoleV, NbNonzeroPolesU(w), NbNonzeroPolesV(w))
  }

  /** The pole pairs of a window are pairwise distinct and inside the window. */
  lemma PoleIndicesDistinct(firstU: int, firstV: int, nbU: nat, nbV: nat)
    ensures forall p, q :: 0 <= p < q < |PoleIndices(firstU, firstV, nbU, nbV)| ==>
      PoleIndices(firstU, firstV, nbU, nbV)[p] != PoleIndices(firstU, firstV, nbU, nbV)[q]
    ensures forall p :: 0 <= p < |PoleIndices(firstU, firstV, nbU, nbV)| ==>
      firstU <= PoleIndices(firstU, firstV, nbU, nbV)[p].0 < firstU + nbU &&
      firstV <= PoleIndices(firstU, firstV, nbU, nbV)[p].1 < firstV + nbV
  {
    var r := PoleIndices(firstU, firstV, nbU, nbV);
    forall p | 0 <= p < |r|
      ensures firstU <= r[p].0 < firstU + nbU && firstV <= r[p].1 < firstV + nbV
    {
      var (a, b) := CellOf(nbU, nbV, p);
    }
    forall p, q | 0 <= p < q < |r| ensures r[p] != r[q] {
      var (a, b) := CellOf(nbU, nbV, p);
      var (a', b') := CellOf(nbU, nbV, q);
    }
  }

  // ---------------------------------------------------------------------------
  // Non-rational table: tensor product of the univariate tables
  // ---------------------------------------------------------------------------

  /** Products u[a] * v[b] of two univariate rows, laid out row-major
      (TensorRowAt states the entries). */
  function TensorRow(u: seq<real>, v: seq<real>): (r: seq<real>)
    ensures |r| == Times(|u|, |v|)
  {
    Layout(OuterRows(u, v), |u|, |v|)
  }

  /** Entry (a, b) of a tensor row is u[a] * v[b]. */
  lemma TensorRowAt(u: seq<real>, v: seq<real>, nu: nat, nv: nat, a: nat, b: nat)
    requires |u| == nu && |v| == nv
    requires a < nu && b < nv
    ensures SingleIndex(nu, nv, a, b) < |TensorRow(u, v)|
    ensures TensorRow(u, v)[SingleIndex(nu, nv, a, b)] == u[a] * v[b]
  {
    var rows := OuterRows(u, v);
    LayoutAt(rows, nu, nv, a, b);
    assert rows[a][b] == u[a] * v[b];
  }

  /** Row a of the outer product of u and v. */
  function OuterRows(u: seq<real>, v: seq<real>): (rows: seq<seq<real>>)
    ensures |rows| == |u|
    ensures forall a :: 0 <= a < |u| ==> rows[a] == ScaleRow(u[a], v)
  {
    seq(|u|, a requires 0 <= a < |u| => ScaleRow(u[a], v))
  }

  /** Row s of the B-spline table: the tensor product of the u-derivative
      and v-derivative rows of the pair numbered s. */
  function TensorTableRow(u: CurveShape, v: CurveShape, degreeU: nat, degreeV: nat, order: nat, s: nat)
    : (r: seq<real>)
    requires Shaped(u, degreeU, order) && Shaped(v, degreeV, order)
    requires s < NbShapes(order)
    ensures |r| == Times(degreeU + 1, degreeV + 1)
  {
    var d := DerivativesOf(s);
    DerivativesOfInRange(s, order);
    assert |u.values[d.0]| == degreeU + 1 && |v.values[d.1]| == degreeV + 1;
    TensorRow(u.values[d.0], v.values[d.1])
  }

  /** The B-spline table as a whole, one row per derivative pair. */
  function TensorTable(u: CurveShape, v: CurveShape, degreeU: nat, degreeV: nat, order: nat)
    : (t: seq<seq<real>>)
    requires Shaped(u, degreeU, order) && Shaped(v, degreeV, order)
    ensures |t| == NbShapes(order)
    ensures forall s :: 0 <= s < |t| ==> t[s] == TensorTableRow(u, v, degreeU, degreeV, order, s)
  {
    seq(NbShapes(order), s requires 0 <= s < NbShapes(order) =>
      TensorTableRow(u, v, degreeU, degreeV, order, s))
  }

  /** Row ShapeIndex(du, dv) of the table is the product of the du-th
      u-derivative row and the dv-th v-derivative row. */
  lemma TensorTableAt(u: CurveShape, v: CurveShape, degreeU: nat, degreeV: nat, order: nat, du: nat, dv: nat)
    requires Shaped(u, degreeU, order) && Shaped(v, degreeV, order)
    requires du + dv <= order
    ensures ShapeIndex(du, dv) < NbShapes(order)
    ensures TensorTable(u, v, degreeU, degreeV, order)[ShapeIndex(du, dv)]
      == TensorRow(u.values[du], v.values[dv])
  {
    ShapeIndexInRange(du, dv, order);
    DerivativesOfShapeIndex(du, dv);
  }

  /** Every pair of total order at most `order` has a position in its table. */
  lemma ShapeIndicesInRange(order: nat)
    ensures forall du: nat, dv: nat :: du + dv <= order ==> ShapeIndex(du, dv) < NbShapes(order)
  {
    forall du: nat, dv: nat | du + dv <= order
      ensures ShapeIndex(du, dv) < NbShapes(order)
    {
      ShapeIndexInRange(du, dv, order);
    }
  }

  /** The loops of the non-rational `compute_at_span`: a zero-filled table whose
      rows are overwritten pair by pair, du outer and dv inner. Every row ends up
      written: row ShapeIndex(i, j) is the product of u_i and v_j, so the
      result is the tensor table (TensorTableCharacterised). */
  method FillTensorTable(u: CurveShape, v: CurveShape, degreeU: nat, degreeV: nat, order: nat)
    returns (rows: seq<seq<real>>)
    requires Shaped(u, degreeU, order) && Shaped(v, degreeV, order)
    ensures |rows| == NbShapes(order)
    ensures forall s :: 0 <= s < |rows| ==> |rows[s]| == Times(degreeU + 1, degreeV + 1)
    ensures forall i: nat, j: nat :: i + j <= order ==>
      ShapeIndex(i, j) < |rows| && rows[ShapeIndex(i, j)] == TensorRow(u.values[i], v.values[j])
  {
    var nbShapes := NbShapes(order);
    var nbPoles := Times(degreeU + 1, degreeV + 1);
    ShapeIndicesInRange(order);
    rows := seq(nbShapes, s => seq(nbPoles, p => 0.0));
    var i := 0;
    while i <= order
      invariant 0 <= i <= order + 1
      invariant |rows| == nbShapes
      invariant forall s :: 0 <= s < nbShapes ==> |rows[s]| == nbPoles
      invariant forall i': nat, j': nat :: i' < i && i' + j' <= order ==>
        rows[ShapeIndex(i', j')] == TensorRow(u.values[i'], v.values[j'])
    {
      var j := 0;
      while j <= order - i
        invariant 0 <= j <= order - i + 1
        invariant |rows| == nbShapes
        invariant forall s :: 0 <= s < nbShapes ==> |rows[s]| == nbPoles
        invariant forall i': nat, j': nat ::
          i' + j' <= order && (i' < i || (i' == i && j' < j)) ==>
            rows[ShapeIndex(i', j')] == TensorRow(u.values[i'], v.values[j'])
      {
        var index := ShapeIndex(i, j);
        forall i': nat, j': nat | i' + j' <= order && (i' < i || (i' == i && j' < j))
          ensures ShapeIndex(i', j') != index
        {
          if ShapeIndex(i', j') == index {
            ShapeIndexInjective(i', j', i, j);
          }
        }
        assert |u.values[i]| == degreeU + 1 && |v.values[j]| == degreeV + 1;
        rows := rows[index := TensorRow(u.values[i], v.values[j])];
        j := j + 1;
      }
      i := i + 1;
    }
  }

  /** A table of NbShapes(order) rows whose row ShapeIndex(i, j) is the
      product of u_i and v_j for every pair is the tensor table. */
  lemma TensorTableCharacterised(u: CurveShape, v: CurveShape, degreeU: nat, degreeV: nat, order: nat,
                                 rows: seq<seq<real>>)
    requires Shaped(u, degreeU, order) && Shaped(v, degreeV, order)
    requires |rows| == NbShapes(order)
    requires forall i: nat, j: nat :: i + j <= order ==>
      ShapeIndex(i, j) < |rows| && rows[ShapeIndex(i, j)] == TensorRow(u.values[i], v.values[j])
    ensures rows == TensorTable(u, v, degreeU, degreeV, order)
  {
    var t := TensorTable(u, v, degreeU, degreeV, order);
    forall s | 0 <= s < |rows|
      ensures rows[s] == t[s]
    {
      var d := DerivativesOf(s);
      DerivativesOfInRange(s, order);
    }
  }

  /** Non-rational `compute_at_span`: records the first nonzero poles of the
      span pair and fills the value buffer with the tensor products of the two
      univariate tables (which the univariate engines computed for the same
      spans). */
  method ComputeAtSpan(w: Workspace, u: CurveShape, v: CurveShape, spanU: int, spanV: int)
    returns (r: Workspace)
    requires Sized(w)
    requires Shaped(u, w.degreeU, w.order) && Shaped(v, w.degreeV, w.order)
    ensures Sized(r)
    ensures r.degreeU == w.degreeU && r.degreeV == w.degreeV && r.order == w.order
    ensures r.weightedSums == w.weightedSums
    ensures r.firstNonzeroPoleU == spanU - w.degreeU + 1
    ensures r.firstNonzeroPoleV == spanV - w.degreeV + 1
    ensures LastNonzeroPoleU(r) == spanU + 1 && LastNonzeroPoleV(r) == spanV + 1
    ensures forall i: nat, j: nat, a: nat, b: nat ::
      i + j <= w.order && a <= w.degreeU && b <= w.degreeV ==>
        ShapeIndex(i, j) < NbShapes(w.order) &&
        Value(r, ShapeIndex(i, j), a, b) == u.values[i][a] * v.values[j][b]
    ensures r.values == TensorTable(u, v, w.degreeU, w.degreeV, w.order)
  {
    var rows := FillTensorTable(u, v, w.degreeU, w.degreeV, w.order);
    r := w.(values := rows,
            firstNonzeroPoleU := spanU - w.degreeU + 1,
            firstNonzeroPoleV := spanV - w.degreeV + 1);
    TensorValues(r, u, v);
    TensorTableCharacterised(u, v, w.degreeU, w.degreeV, w.order, rows);
  }

  /** A table whose row ShapeIndex(i, j) is the product of u_i and v_j holds
      u_i[a] * v_j[b] at derivative pair (i, j) and local pole (a, b). */
  lemma TensorValues(r: Workspace, u: CurveShape, v: CurveShape)
    requires Sized(r)
    requires Shaped(u, r.degreeU, r.order) && Shaped(v, r.degreeV, r.order)
    requires forall i: nat, j: nat :: i + j <= r.order ==>
      ShapeIndex(i, j) < |r.values| && r.values[ShapeIndex(i, j)] == TensorRow(u.values[i], v.values[j])
    ensures forall i: nat, j: nat, a: nat, b: nat ::
      i + j <= r.order && a <= r.degreeU && b <= r.degreeV ==>
        ShapeIndex(i, j) < NbShapes(r.order) &&
        Value(r, ShapeIndex(i, j), a, b) == u.values[i][a] * v.values[j][b]
  {
    forall i: nat, j: nat, a: nat, b: nat | i + j <= r.order && a <= r.degreeU && b <= r.degreeV
      ensures ShapeIndex(i, j) < NbShapes(r.order)
      ensures Value(r, ShapeIndex(i, j), a, b) == u.values[i][a] * v.values[j][b]
    {
      assert |u.values[i]| == NbNonzeroPolesU(r) && |v.values[j]| == NbNonzeroPolesV(r);
      TensorRowAt(u.values[i], v.values[j], NbNonzeroPolesU(r), NbNonzeroPolesV(r), a, b);
    }
  }

  /** Partition of unity carries over to the tensor product: when the
      v-row sums to one, the tensor row sums to the sum of the u-row. */
  lemma {:induction false} TensorRowSum(u: seq<real>, v: seq<real>)
    requires Sum(v) == 1.0
    ensures Sum(TensorRow(u, v)) == Sum(u)
  {
    var rows := OuterRows(u, v);
    LayoutIsFlatten(rows, |u|, |v|);
    if |u| > 0 {
      assert rows[1..] == OuterRows(u[1..], v);
      TensorRowSum(u[1..], v);
      LayoutIsFlatten(rows[1..], |u| - 1, |v|);
      assert Flatten(rows) == rows[0] + Flatten(rows[1..]);
      SumAppend(rows[0], Flatten(rows[1..]));
      SumOfUnitScaledRow(rows[0], v, u[0]);
      SumHeadTail(u);
    }
  }

  lemma SumOfUnitScaledRow(r0: seq<real>, v: seq<real>, c: real)
    requires Sum(v) == 1.0
    requires r0 == ScaleRow(c, v)
    ensures Sum(r0) == c
  {
    SumScaleRow(c, v);
  }
}

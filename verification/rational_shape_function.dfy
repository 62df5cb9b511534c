/** The rational (NURBS) variant of the bivariate shape-function table: the
    B-spline table is multiplied by the pole weights, and the derivatives of
    the quotient are recovered from the derivatives of numerator and
    denominator by the Leibniz rule. */
module RationalShapeFunction {
  import opened Math
  import opened CurveShapeFunction
  import opened SurfaceShapeFunction

  // ---------------------------------------------------------------------------
  // The weighted table and its rational correction, as a reference definition
  // ---------------------------------------------------------------------------

  /** A table of weighted values: row ShapeIndex(k, l) holds the (k, l)-th
      derivatives of the weighted basis functions at the nbPoles nonzero poles,
      and `sums[ShapeIndex(k, l)]` the (k, l)-th derivative of the weight
      function. */
  datatype WeightedTable = WeightedTable(order: nat, nbPoles: nat, values: seq<seq<real>>, sums: seq<real>)

  predicate WellShaped(t: WeightedTable) {
    && |t.values| == NbShapes(t.order)
    && |t.sums| == NbShapes(t.order)
    && forall s :: 0 <= s < |t.values| ==> |t.values[s]| == t.nbPoles
  }

  /** The correction divides by the weight function itself, `sums[0]`. */
  predicate Divisible(t: WeightedTable) {
    WellShaped(t) && t.sums[0] != 0.0
  }

  /** The weight-function derivative of the pair (i, j). */
  function WeightDerivative(t: WeightedTable, i: nat, j: nat): real
    requires WellShaped(t) && i + j <= t.order
  {
    ShapeIndexInRange(i, j, t.order);
    t.sums[ShapeIndex(i, j)]
  }

  /** The factor `binom(l, j) * weighted_sum(0, j)` of a v-derivative term. */
  function VCoefficient(t: WeightedTable, l: nat, j: nat): real
    requires WellShaped(t) && j <= l <= t.order
  {
    (Binom(l, j) as real) * WeightDerivative(t, 0, j)
  }

  /** The factor `binom(k, i) * weighted_sum(i, 0)` of a u-derivative term. */
  function UCoefficient(t: WeightedTable, k: nat, i: nat): real
    requires WellShaped(t) && i <= k <= t.order
  {
    (Binom(k, i) as real) * WeightDerivative(t, i, 0)
  }

  /** The factor `binom(k, i) * binom(l, j) * weighted_sum(i, j)` of a mixed
      term. */
  function MixedCoefficient(t: WeightedTable, k: nat, l: nat, i: nat, j: nat): real
    requires WellShaped(t) && i <= k && j <= l && k + l <= t.order
  {
    (Binom(k, i) as real) * (Binom(l, j) as real) * WeightDerivative(t, i, j)
  }

  /** Row (k, l) of the rational table: the weighted row minus the
      contributions of the lower derivatives (first along v, then along u,
      then mixed, each in increasing order as `compute_at_span` subtracts them),
      divided by the weight function. */
  function Rational(t: WeightedTable, k: nat, l: nat): (r: seq<real>)
    requires Divisible(t) && k + l <= t.order
    ensures |r| == t.nbPoles
    decreases k + l, 4, 0
  {
    ShapeIndexInRange(k, l, t.order);
    var weighted := t.values[ShapeIndex(k, l)];
    var corrected := MixedPass(t, k, l, k, UPass(t, k, l, k, VPass(t, k, l, l, weighted)));
    DivideRow(corrected, t.sums[0])
  }

  /** Subtracts binom(l, j) * W(0, j) * R(k, l - j) for j = 1 .. last. */
  function VPass(t: WeightedTable, k: nat, l: nat, last: nat, row: seq<real>): (r: seq<real>)
    requires Divisible(t) && k + l <= t.order && last <= l && |row| == t.nbPoles
    ensures |r| == t.nbPoles
    decreases k + l, 0, last
  {
    if last == 0 then row
    else
      SubtractScaled(VPass(t, k, l, last - 1, row),
        VCoefficient(t, l, last), Rational(t, k, l - last))
  }

  /** Subtracts binom(k, i) * W(i, 0) * R(k - i, l) for i = 1 .. last. */
  function UPass(t: WeightedTable, k: nat, l: nat, last: nat, row: seq<real>): (r: seq<real>)
    requires Divisible(t) && k + l <= t.order && last <= k && |row| == t.nbPoles
    ensures |r| == t.nbPoles
    decreases k + l, 1, last
  {
    if last == 0 then row
    else
      SubtractScaled(UPass(t, k, l, last - 1, row),
        UCoefficient(t, k, last), Rational(t, k - last, l))
  }

  /** For i = 1 .. last, subtracts the mixed terms of MixedRow. */
  function MixedPass(t: WeightedTable, k: nat, l: nat, last: nat, row: seq<real>): (r: seq<real>)
    requires Divisible(t) && k + l <= t.order && last <= k && |row| == t.nbPoles
    ensures |r| == t.nbPoles
    decreases k + l, 3, last
  {
    if last == 0 then row
    else MixedRow(t, k, l, last, l, MixedPass(t, k, l, last - 1, row))
  }

  /** Subtracts binom(k, i) * binom(l, j) * W(i, j) * R(k - i, l - j) for
      j = 1 .. last. */
  function MixedRow(t: WeightedTable, k: nat, l: nat, i: nat, last: nat, row: seq<real>): (r: seq<real>)
    requires Divisible(t) && k + l <= t.order && 1 <= i <= k && last <= l && |row| == t.nbPoles
    ensures |r| == t.nbPoles
    decreases k + l, 2, last
  {
    if last == 0 then row
    else
      SubtractScaled(MixedRow(t, k, l, i, last - 1, row),
        MixedCoefficient(t, k, l, i, last), Rational(t, k - i, l - last))
  }

  // ---------------------------------------------------------------------------
  // The same passes reading the lower rows from a table
  // ---------------------------------------------------------------------------

  /** A table of rows shaped like the weighted values of t. */
  predicate TableShaped(t: WeightedTable, rows: seq<seq<real>>) {
    && |rows| == NbShapes(t.order)
    && forall s :: 0 <= s < |rows| ==> |rows[s]| == t.nbPoles
  }

  /** Row (i, j) of a table. */
  function RowOf(t: WeightedTable, rows: seq<seq<real>>, i: nat, j: nat): (r: seq<real>)
    requires TableShaped(t, rows) && i + j <= t.order
    ensures |r| == t.nbPoles
  {
    ShapeIndexInRange(i, j, t.order);
    rows[ShapeIndex(i, j)]
  }

  /** VPass with the lower rows read from `rows`. */
  function VPassOn(t: WeightedTable, rows: seq<seq<real>>, k: nat, l: nat, last: nat, row: seq<real>): (r: seq<real>)
    requires WellShaped(t) && TableShaped(t, rows) && k + l <= t.order && last <= l && |row| == t.nbPoles
    ensures |r| == t.nbPoles
  {
    if last == 0 then row
    else
      SubtractScaled(VPassOn(t, rows, k, l, last - 1, row),
        VCoefficient(t, l, last), RowOf(t, rows, k, l - last))
  }

  /** UPass with the lower rows read from `rows`. */
  function UPassOn(t: WeightedTable, rows: seq<seq<real>>, k: nat, l: nat, last: nat, row: seq<real>): (r: seq<real>)
    requires WellShaped(t) && TableShaped(t, rows) && k + l <= t.order && last <= k && |row| == t.nbPoles
    ensures |r| == t.nbPoles
  {
    if last == 0 then row
    else
      SubtractScaled(UPassOn(t, rows, k, l, last - 1, row),
        UCoefficient(t, k, last), RowOf(t, rows, k - last, l))
  }

  /** MixedRow with the lower rows read from `rows`. */
  function MixedRowOn(t: WeightedTable, rows: seq<seq<real>>, k: nat, l: nat, i: nat, last: nat, row: seq<real>): (r: seq<real>)
    requires WellShaped(t) && TableShaped(t, rows) && k + l <= t.order && 1 <= i <= k && last <= l
    requires |row| == t.nbPoles
    ensures |r| == t.nbPoles
  {
    if last == 0 then row
    else
      SubtractScaled(MixedRowOn(t, rows, k, l, i, last - 1, row),
        MixedCoefficient(t, k, l, i, last), RowOf(t, rows, k - i, l - last))
  }

  /** MixedPass with the lower rows read from `rows`. */
  function MixedPassOn(t: WeightedTable, rows: seq<seq<real>>, k: nat, l: nat, last: nat, row: seq<real>): (r: seq<real>)
    requires WellShaped(t) && TableShaped(t, rows) && k + l <= t.order && last <= k && |row| == t.nbPoles
    ensures |r| == t.nbPoles
  {
    if last == 0 then row
    else MixedRowOn(t, rows, k, l, last, l, MixedPassOn(t, rows, k, l, last - 1, row))
  }

  /** The rows every pair visited before (k, l) reads: all of them already
      hold their rational rows. */
  ghost predicate Finished(t: WeightedTable, rows: seq<seq<real>>, k: nat, l: nat)
    requires Divisible(t)
  {
    forall k': nat, l': nat :: k' + l' <= t.order && (k' < k || (k' == k && l' < l)) ==>
      ShapeIndex(k', l') < |rows| && rows[ShapeIndex(k', l')] == Rational(t, k', l')
  }

  lemma {:induction false} VPassOnFinished(t: WeightedTable, rows: seq<seq<real>>, k: nat, l: nat, last: nat, row: seq<real>)
    requires Divisible(t) && TableShaped(t, rows) && k + l <= t.order && last <= l && |row| == t.nbPoles
    requires Finished(t, rows, k, l)
    ensures VPassOn(t, rows, k, l, last, row) == VPass(t, k, l, last, row)
  {
    if last > 0 {
      VPassOnFinished(t, rows, k, l, last - 1, row);
      assert RowOf(t, rows, k, l - last) == Rational(t, k, l - last);
    }
  }

  lemma {:induction false} UPassOnFinished(t: WeightedTable, rows: seq<seq<real>>, k: nat, l: nat, last: nat, row: seq<real>)
    requires Divisible(t) && TableShaped(t, rows) && k + l <= t.order && last <= k && |row| == t.nbPoles
    requires Finished(t, rows, k, l)
    ensures UPassOn(t, rows, k, l, last, row) == UPass(t, k, l, last, row)
  {
    if last > 0 {
      UPassOnFinished(t, rows, k, l, last - 1, row);
      assert RowOf(t, rows, k - last, l) == Rational(t, k - last, l);
    }
  }

  lemma {:induction false} MixedRowOnFinished(t: WeightedTable, rows: seq<seq<real>>, k: nat, l: nat, i: nat, last: nat, row: seq<real>)
    requires Divisible(t) && TableShaped(t, rows) && k + l <= t.order && 1 <= i <= k && last <= l
    requires |row| == t.nbPoles
    requires Finished(t, rows, k, l)
    ensures MixedRowOn(t, rows, k, l, i, last, row) == MixedRow(t, k, l, i, last, row)
  {
    if last > 0 {
      MixedRowOnFinished(t, rows, k, l, i, last - 1, row);
      assert RowOf(t, rows, k - i, l - last) == Rational(t, k - i, l - last);
    }
  }

  lemma {:induction false} MixedPassOnFinished(t: WeightedTable, rows: seq<seq<real>>, k: nat, l: nat, last: nat, row: seq<real>)
    requires Divisible(t) && TableShaped(t, rows) && k + l <= t.order && last <= k && |row| == t.nbPoles
    requires Finished(t, rows, k, l)
    ensures MixedPassOn(t, rows, k, l, last, row) == MixedPass(t, k, l, last, row)
  {
    if last > 0 {
      MixedPassOnFinished(t, rows, k, l, last - 1, row);
      MixedRowOnFinished(t, rows, k, l, last, l, MixedPass(t, k, l, last - 1, row));
    }
  }

  /** The correction of row (k, l) computed from the lower rows of `rows`. */
  function CorrectedOn(t: WeightedTable, rows: seq<seq<real>>, k: nat, l: nat): (r: seq<real>)
    requires Divisible(t) && TableShaped(t, rows) && k + l <= t.order
    ensures |r| == t.nbPoles
  {
    DivideRow(Numerator(t, rows, k, l), t.sums[0])
  }

  /** The weighted row (k, l) after the three passes, before the division. */
  function Numerator(t: WeightedTable, rows: seq<seq<real>>, k: nat, l: nat): (r: seq<real>)
    requires WellShaped(t) && TableShaped(t, rows) && k + l <= t.order
    ensures |r| == t.nbPoles
  {
    var weighted := RowOf(t, t.values, k, l);
    MixedPassOn(t, rows, k, l, k, UPassOn(t, rows, k, l, k, VPassOn(t, rows, k, l, l, weighted)))
  }

  /** Once every row visited before (k, l) is rational, correcting row (k, l)
      from the table gives the rational row. */
  lemma CorrectedOnFinished(t: WeightedTable, rows: seq<seq<real>>, k: nat, l: nat)
    requires Divisible(t) && TableShaped(t, rows) && k + l <= t.order
    requires Finished(t, rows, k, l)
    ensures CorrectedOn(t, rows, k, l) == Rational(t, k, l)
  {
    var weighted := RowOf(t, t.values, k, l);
    VPassOnFinished(t, rows, k, l, l, weighted);
    var afterV := VPass(t, k, l, l, weighted);
    UPassOnFinished(t, rows, k, l, k, afterV);
    MixedPassOnFinished(t, rows, k, l, k, UPass(t, k, l, k, afterV));
  }

  // ---------------------------------------------------------------------------
  // The correction inverts the Leibniz rule
  // ---------------------------------------------------------------------------

  /** The (i, j) term of the Leibniz expansion of the (k, l)-th derivative of
      W * R at pole p, with R read from `rows`:
      binom(k, i) * binom(l, j) * W(i, j) * R(k - i, l - j). */
  function Term(t: WeightedTable, rows: seq<seq<real>>, k: nat, l: nat, i: nat, j: nat, p: nat): real
    requires WellShaped(t) && TableShaped(t, rows) && k + l <= t.order && i <= k && j <= l && p < t.nbPoles
  {
    MixedCoefficient(t, k, l, i, j) * RowOf(t, rows, k - i, l - j)[p]
  }

  /** The terms j = 0 .. last of row i of the expansion. */
  function LeibnizRow(t: WeightedTable, rows: seq<seq<real>>, k: nat, l: nat, i: nat, last: nat, p: nat): real
    requires WellShaped(t) && TableShaped(t, rows) && k + l <= t.order && i <= k && last <= l && p < t.nbPoles
  {
    if last == 0 then Term(t, rows, k, l, i, 0, p)
    else LeibnizRow(t, rows, k, l, i, last - 1, p) + Term(t, rows, k, l, i, last, p)
  }

  /** The terms (i, 0) for i = 0 .. last: the first column of the expansion. */
  function LeibnizColumn(t: WeightedTable, rows: seq<seq<real>>, k: nat, l: nat, last: nat, p: nat): real
    requires WellShaped(t) && TableShaped(t, rows) && k + l <= t.order && last <= k && p < t.nbPoles
  {
    if last == 0 then Term(t, rows, k, l, 0, 0, p)
    else LeibnizColumn(t, rows, k, l, last - 1, p) + Term(t, rows, k, l, last, 0, p)
  }

  /** The terms of rows i = 0 .. last of the expansion; Leibniz(.., k, p) is
      the whole double sum over i <= k, j <= l. */
  function Leibniz(t: WeightedTable, rows: seq<seq<real>>, k: nat, l: nat, last: nat, p: nat): real
    requires WellShaped(t) && TableShaped(t, rows) && k + l <= t.order && last <= k && p < t.nbPoles
  {
    if last == 0 then LeibnizRow(t, rows, k, l, 0, l, p)
    else Leibniz(t, rows, k, l, last - 1, p) + LeibnizRow(t, rows, k, l, last, l, p)
  }

  /** Term (i, j) is its coefficient times the entry of row (k - i, l - j). */
  lemma TermUnfold(t: WeightedTable, rows: seq<seq<real>>, k: nat, l: nat, i: nat, j: nat, p: nat)
    requires WellShaped(t) && TableShaped(t, rows) && k + l <= t.order && i <= k && j <= l && p < t.nbPoles
    ensures Term(t, rows, k, l, i, j, p) == MixedCoefficient(t, k, l, i, j) * RowOf(t, rows, k - i, l - j)[p]
  {
  }

  /** The coefficients of the v-terms and the u-terms are the mixed
      coefficients with i = 0 and j = 0. */
  lemma PureCoefficients(t: WeightedTable, k: nat, l: nat, i: nat, j: nat)
    requires WellShaped(t) && k + l <= t.order && i <= k && j <= l
    ensures VCoefficient(t, l, j) == MixedCoefficient(t, k, l, 0, j)
    ensures UCoefficient(t, k, i) == MixedCoefficient(t, k, l, i, 0)
  {
  }

  lemma VPassOnUnfold(t: WeightedTable, rows: seq<seq<real>>, k: nat, l: nat, last: nat, row: seq<real>)
    requires WellShaped(t) && TableShaped(t, rows) && k + l <= t.order && 0 < last <= l && |row| == t.nbPoles
    ensures VPassOn(t, rows, k, l, last, row)
      == SubtractScaled(VPassOn(t, rows, k, l, last - 1, row), VCoefficient(t, l, last), RowOf(t, rows, k, l - last))
  {
  }

  lemma UPassOnUnfold(t: WeightedTable, rows: seq<seq<real>>, k: nat, l: nat, last: nat, row: seq<real>)
    requires WellShaped(t) && TableShaped(t, rows) && k + l <= t.order && 0 < last <= k && |row| == t.nbPoles
    ensures UPassOn(t, rows, k, l, last, row)
      == SubtractScaled(UPassOn(t, rows, k, l, last - 1, row), UCoefficient(t, k, last), RowOf(t, rows, k - last, l))
  {
  }

  lemma MixedRowOnUnfold(t: WeightedTable, rows: seq<seq<real>>, k: nat, l: nat, i: nat, last: nat, row: seq<real>)
    requires WellShaped(t) && TableShaped(t, rows) && k + l <= t.order && 1 <= i <= k && 0 < last <= l
    requires |row| == t.nbPoles
    ensures MixedRowOn(t, rows, k, l, i, last, row)
      == SubtractScaled(MixedRowOn(t, rows, k, l, i, last - 1, row), MixedCoefficient(t, k, l, i, last), RowOf(t, rows, k - i, l - last))
  {
  }

  /** Each step of a pass subtracts one term of the expansion. */
  lemma VPassOnStep(t: WeightedTable, rows: seq<seq<real>>, k: nat, l: nat, last: nat, row: seq<real>, p: nat)
    requires WellShaped(t) && TableShaped(t, rows) && k + l <= t.order && 0 < last <= l
    requires |row| == t.nbPoles && p < t.nbPoles
    ensures VPassOn(t, rows, k, l, last, row)[p]
      == VPassOn(t, rows, k, l, last - 1, row)[p] - Term(t, rows, k, l, 0, last, p)
  {
    VPassOnUnfold(t, rows, k, l, last, row);
    PureCoefficients(t, k, l, 0, last);
    SubtractScaledAt(VPassOn(t, rows, k, l, last - 1, row), VCoefficient(t, l, last), RowOf(t, rows, k, l - last), p);
    TermUnfold(t, rows, k, l, 0, last, p);
  }

  lemma UPassOnStep(t: WeightedTable, rows: seq<seq<real>>, k: nat, l: nat, last: nat, row: seq<real>, p: nat)
    requires WellShaped(t) && TableShaped(t, rows) && k + l <= t.order && 0 < last <= k
    requires |row| == t.nbPoles && p < t.nbPoles
    ensures UPassOn(t, rows, k, l, last, row)[p]
      == UPassOn(t, rows, k, l, last - 1, row)[p] - Term(t, rows, k, l, last, 0, p)
  {
    UPassOnUnfold(t, rows, k, l, last, row);
    PureCoefficients(t, k, l, last, 0);
    SubtractScaledAt(UPassOn(t, rows, k, l, last - 1, row), UCoefficient(t, k, last), RowOf(t, rows, k - last, l), p);
    TermUnfold(t, rows, k, l, last, 0, p);
  }

  lemma MixedRowOnStep(t: WeightedTable, rows: seq<seq<real>>, k: nat, l: nat, i: nat, last: nat, row: seq<real>, p: nat)
    requires WellShaped(t) && TableShaped(t, rows) && k + l <= t.order && 1 <= i <= k && 0 < last <= l
    requires |row| == t.nbPoles && p < t.nbPoles
    ensures MixedRowOn(t, rows, k, l, i, last, row)[p]
      == MixedRowOn(t, rows, k, l, i, last - 1, row)[p] - Term(t, rows, k, l, i, last, p)
  {
    MixedRowOnUnfold(t, rows, k, l, i, last, row);
    SubtractScaledAt(MixedRowOn(t, rows, k, l, i, last - 1, row), MixedCoefficient(t, k, l, i, last), RowOf(t, rows, k - i, l - last), p);
    TermUnfold(t, rows, k, l, i, last, p);
  }

  lemma {:induction false} VPassOnEntry(t: WeightedTable, rows: seq<seq<real>>, k: nat, l: nat, last: nat, row: seq<real>, p: nat)
    requires WellShaped(t) && TableShaped(t, rows) && k + l <= t.order && last <= l
    requires |row| == t.nbPoles && p < t.nbPoles
    ensures VPassOn(t, rows, k, l, last, row)[p]
      == row[p] - (LeibnizRow(t, rows, k, l, 0, last, p) - Term(t, rows, k, l, 0, 0, p))
  {
    if last > 0 {
      VPassOnEntry(t, rows, k, l, last - 1, row, p);
      VPassOnStep(t, rows, k, l, last, row, p);
      SubtractStep(VPassOn(t, rows, k, l, last - 1, row)[p], row[p], LeibnizRow(t, rows, k, l, 0, last - 1, p),
        Term(t, rows, k, l, 0, 0, p), Term(t, rows, k, l, 0, last, p), VPassOn(t, rows, k, l, last, row)[p],
        LeibnizRow(t, rows, k, l, 0, last, p));
    }
  }

  lemma {:induction false} UPassOnEntry(t: WeightedTable, rows: seq<seq<real>>, k: nat, l: nat, last: nat, row: seq<real>, p: nat)
    requires WellShaped(t) && TableShaped(t, rows) && k + l <= t.order && last <= k
    requires |row| == t.nbPoles && p < t.nbPoles
    ensures UPassOn(t, rows, k, l, last, row)[p]
      == row[p] - (LeibnizColumn(t, rows, k, l, last, p) - Term(t, rows, k, l, 0, 0, p))
  {
    if last > 0 {
      UPassOnEntry(t, rows, k, l, last - 1, row, p);
      UPassOnStep(t, rows, k, l, last, row, p);
      SubtractStep(UPassOn(t, rows, k, l, last - 1, row)[p], row[p], LeibnizColumn(t, rows, k, l, last - 1, p),
        Term(t, rows, k, l, 0, 0, p), Term(t, rows, k, l, last, 0, p), UPassOn(t, rows, k, l, last, row)[p],
        LeibnizColumn(t, rows, k, l, last, p));
    }
  }

  lemma {:induction false} MixedRowOnEntry(t: WeightedTable, rows: seq<seq<real>>, k: nat, l: nat, i: nat, last: nat, row: seq<real>, p: nat)
    requires WellShaped(t) && TableShaped(t, rows) && k + l <= t.order && 1 <= i <= k && last <= l
    requires |row| == t.nbPoles && p < t.nbPoles
    ensures MixedRowOn(t, rows, k, l, i, last, row)[p]
      == row[p] - (LeibnizRow(t, rows, k, l, i, last, p) - Term(t, rows, k, l, i, 0, p))
  {
    if last > 0 {
      MixedRowOnEntry(t, rows, k, l, i, last - 1, row, p);
      MixedRowOnStep(t, rows, k, l, i, last, row, p);
      SubtractStep(MixedRowOn(t, rows, k, l, i, last - 1, row)[p], row[p], LeibnizRow(t, rows, k, l, i, last - 1, p),
        Term(t, rows, k, l, i, 0, p), Term(t, rows, k, l, i, last, p), MixedRowOn(t, rows, k, l, i, last, row)[p],
        LeibnizRow(t, rows, k, l, i, last, p));
    } else {
      assert LeibnizRow(t, rows, k, l, i, 0, p) == Term(t, rows, k, l, i, 0, p);
    }
  }

  lemma {:induction false} MixedPassOnEntry(t: WeightedTable, rows: seq<seq<real>>, k: nat, l: nat, last: nat, row: seq<real>, p: nat)
    requires WellShaped(t) && TableShaped(t, rows) && k + l <= t.order && last <= k
    requires |row| == t.nbPoles && p < t.nbPoles
    ensures MixedPassOn(t, rows, k, l, last, row)[p] == row[p]
      - (Leibniz(t, rows, k, l, last, p) - LeibnizRow(t, rows, k, l, 0, l, p))
      + (LeibnizColumn(t, rows, k, l, last, p) - Term(t, rows, k, l, 0, 0, p))
  {
    if last > 0 {
      var prev := MixedPassOn(t, rows, k, l, last - 1, row);
      MixedPassOnEntry(t, rows, k, l, last - 1, row, p);
      MixedRowOnEntry(t, rows, k, l, last, l, prev, p);
      MixedPassStep(prev[p], row[p], Leibniz(t, rows, k, l, last - 1, p), LeibnizRow(t, rows, k, l, 0, l, p),
        LeibnizColumn(t, rows, k, l, last - 1, p), Term(t, rows, k, l, 0, 0, p),
        LeibnizRow(t, rows, k, l, last, l, p), Term(t, rows, k, l, last, 0, p),
        MixedPassOn(t, rows, k, l, last, row)[p]);
    }
  }

  /** Entry p of the corrected row, multiplied back by the weight function,
      is the weighted value minus every term of the expansion but (0, 0). */
  lemma NumeratorEntry(t: WeightedTable, rows: seq<seq<real>>, k: nat, l: nat, p: nat)
    requires Divisible(t) && TableShaped(t, rows) && k + l <= t.order && p < t.nbPoles
    ensures Numerator(t, rows, k, l)[p]
      == RowOf(t, t.values, k, l)[p] - (Leibniz(t, rows, k, l, k, p) - Term(t, rows, k, l, 0, 0, p))
  {
    var weighted := RowOf(t, t.values, k, l);
    var afterV := VPassOn(t, rows, k, l, l, weighted);
    var afterU := UPassOn(t, rows, k, l, k, afterV);
    VPassOnEntry(t, rows, k, l, l, weighted, p);
    UPassOnEntry(t, rows, k, l, k, afterV, p);
    MixedPassOnEntry(t, rows, k, l, k, afterU, p);
    CorrectionSum(weighted[p], afterV[p], afterU[p], Numerator(t, rows, k, l)[p], LeibnizRow(t, rows, k, l, 0, l, p),
      LeibnizColumn(t, rows, k, l, k, p), Leibniz(t, rows, k, l, k, p), Term(t, rows, k, l, 0, 0, p));
  }

  /** The (0, 0) term is the weight function times the row itself. */
  lemma TermOrigin(t: WeightedTable, rows: seq<seq<real>>, k: nat, l: nat, p: nat)
    requires WellShaped(t) && TableShaped(t, rows) && k + l <= t.order && p < t.nbPoles
    ensures Term(t, rows, k, l, 0, 0, p) == t.sums[0] * RowOf(t, rows, k, l)[p]
  {
    assert MixedCoefficient(t, k, l, 0, 0) == t.sums[0];
  }

  /** A row that is its own correction satisfies the Leibniz equation: the
      weighted (k, l)-th derivative is the double sum over i <= k, j <= l of
      binom(k, i) binom(l, j) W(i, j) R(k - i, l - j). */
  lemma LeibnizRule(t: WeightedTable, rows: seq<seq<real>>, k: nat, l: nat, p: nat)
    requires Divisible(t) && TableShaped(t, rows) && k + l <= t.order && p < t.nbPoles
    requires RowOf(t, rows, k, l) == CorrectedOn(t, rows, k, l)
    ensures RowOf(t, t.values, k, l)[p] == Leibniz(t, rows, k, l, k, p)
  {
    NumeratorEntry(t, rows, k, l, p);
    TermOrigin(t, rows, k, l, p);
    var r := RowOf(t, rows, k, l)[p];
    assert r == Numerator(t, rows, k, l)[p] / t.sums[0];
    SolveOrigin(r, Numerator(t, rows, k, l)[p], t.sums[0], Term(t, rows, k, l, 0, 0, p),
      RowOf(t, t.values, k, l)[p], Leibniz(t, rows, k, l, k, p));
  }

  /** Conversely, a row satisfying the Leibniz equation at every pole is its
      own correction. */
  lemma LeibnizSolved(t: WeightedTable, rows: seq<seq<real>>, k: nat, l: nat)
    requires Divisible(t) && TableShaped(t, rows) && k + l <= t.order
    requires forall p :: 0 <= p < t.nbPoles ==> RowOf(t, t.values, k, l)[p] == Leibniz(t, rows, k, l, k, p)
    ensures RowOf(t, rows, k, l) == CorrectedOn(t, rows, k, l)
  {
    var c, r := CorrectedOn(t, rows, k, l), RowOf(t, rows, k, l);
    forall p | 0 <= p < t.nbPoles ensures c[p] == r[p] {
      LeibnizSolvedAt(t, rows, k, l, p);
    }
  }

  lemma LeibnizSolvedAt(t: WeightedTable, rows: seq<seq<real>>, k: nat, l: nat, p: nat)
    requires Divisible(t) && TableShaped(t, rows) && k + l <= t.order && p < t.nbPoles
    requires RowOf(t, t.values, k, l)[p] == Leibniz(t, rows, k, l, k, p)
    ensures CorrectedOn(t, rows, k, l)[p] == RowOf(t, rows, k, l)[p]
  {
    NumeratorEntry(t, rows, k, l, p);
    TermOrigin(t, rows, k, l, p);
    var c := CorrectedOn(t, rows, k, l)[p];
    assert c == Numerator(t, rows, k, l)[p] / t.sums[0];
    RecoverRow(c, RowOf(t, rows, k, l)[p], Numerator(t, rows, k, l)[p], t.sums[0], Term(t, rows, k, l, 0, 0, p),
      RowOf(t, t.values, k, l)[p], Leibniz(t, rows, k, l, k, p));
  }

  /** One more subtracted term: `after` drops `term` from `before`, and the
      partial sum grows by it. */
  lemma SubtractStep(before: real, start: real, partial: real, origin: real, term: real, after: real, total: real)
    requires before == start - (partial - origin)
    requires after == before - term && total == partial + term
    ensures after == start - (total - origin)
  {
  }

  /** One more row of mixed terms on both sides. */
  lemma MixedPassStep(before: real, start: real, leibniz: real, firstRow: real, column: real, origin: real,
                      row: real, rowOrigin: real, after: real)
    requires before == start - (leibniz - firstRow) + (column - origin)
    requires after == before - (row - rowOrigin)
    ensures after == start - ((leibniz + row) - firstRow) + ((column + rowOrigin) - origin)
  {
  }

  /** The three passes together remove every term but the origin. */
  lemma CorrectionSum(weighted: real, afterV: real, afterU: real, corrected: real,
                      firstRow: real, column: real, leibniz: real, origin: real)
    requires afterV == weighted - (firstRow - origin)
    requires afterU == afterV - (column - origin)
    requires corrected == afterU - (leibniz - firstRow) + (column - origin)
    ensures corrected == weighted - (leibniz - origin)
  {
  }

  /** Solving the origin term of the expansion for the row entry, one
      direction and the other. */
  lemma SolveOrigin(r: real, numerator: real, w0: real, origin: real, weighted: real, leibniz: real)
    requires w0 != 0.0 && r == numerator / w0 && origin == w0 * r
    requires numerator == weighted - (leibniz - origin)
    ensures weighted == leibniz
  {
  }

  lemma RecoverRow(c: real, r: real, numerator: real, w0: real, origin: real, weighted: real, leibniz: real)
    requires w0 != 0.0 && c == numerator / w0 && origin == w0 * r
    requires numerator == weighted - (leibniz - origin) && weighted == leibniz
    ensures c == r
  {
  }

  /** The Leibniz equations of every pair. */
  ghost predicate SolvesLeibniz(t: WeightedTable, rows: seq<seq<real>>)
    requires WellShaped(t) && TableShaped(t, rows)
  {
    forall k: nat, l: nat, p: nat :: k + l <= t.order && p < t.nbPoles ==>
      RowOf(t, t.values, k, l)[p] == Leibniz(t, rows, k, l, k, p)
  }

  /** The rows of a table that solves the Leibniz equations are the rational
      rows; there is exactly one such table. */
  lemma {:induction false} LeibnizUnique(t: WeightedTable, rows: seq<seq<real>>, k: nat, l: nat)
    requires Divisible(t) && TableShaped(t, rows) && k + l <= t.order
    requires SolvesLeibniz(t, rows)
    ensures RowOf(t, rows, k, l) == Rational(t, k, l)
    decreases k, l
  {
    forall k': nat, l': nat | k' + l' <= t.order && (k' < k || (k' == k && l' < l))
      ensures ShapeIndex(k', l') < |rows| && rows[ShapeIndex(k', l')] == Rational(t, k', l')
    {
      ShapeIndexInRange(k', l', t.order);
      LeibnizUnique(t, rows, k', l');
    }
    LeibnizSolved(t, rows, k, l);
    CorrectedOnFinished(t, rows, k, l);
  }

  /** The table of rational rows solves the Leibniz equations. */
  lemma RationalSolvesLeibniz(t: WeightedTable, rows: seq<seq<real>>)
    requires Divisible(t) && TableShaped(t, rows)
    requires forall k: nat, l: nat :: k + l <= t.order ==> RowOf(t, rows, k, l) == Rational(t, k, l)
    ensures SolvesLeibniz(t, rows)
  {
    forall k: nat, l: nat, p: nat | k + l <= t.order && p < t.nbPoles
      ensures RowOf(t, t.values, k, l)[p] == Leibniz(t, rows, k, l, k, p)
    {
      forall k': nat, l': nat | k' + l' <= t.order && (k' < k || (k' == k && l' < l))
        ensures ShapeIndex(k', l') < |rows| && rows[ShapeIndex(k', l')] == Rational(t, k', l')
      {
        ShapeIndexInRange(k', l', t.order);
        assert RowOf(t, rows, k', l') == Rational(t, k', l');
      }
      CorrectedOnFinished(t, rows, k, l);
      LeibnizRule(t, rows, k, l, p);
    }
  }

  /** The table of rational rows: position s holds the rational row of the
      derivative pair stored there. */
  function RationalTable(t: WeightedTable): (rows: seq<seq<real>>)
    requires Divisible(t)
    ensures TableShaped(t, rows)
  {
    seq(NbShapes(t.order), s requires 0 <= s < NbShapes(t.order) =>
      DerivativesOfInRange(s, t.order);
      Rational(t, DerivativesOf(s).0, DerivativesOf(s).1))
  }

  lemma RationalTableAt(t: WeightedTable, k: nat, l: nat)
    requires Divisible(t) && k + l <= t.order
    ensures ShapeIndex(k, l) < NbShapes(t.order)
    ensures RationalTable(t)[ShapeIndex(k, l)] == Rational(t, k, l)
  {
    ShapeIndexInRange(k, l, t.order);
    DerivativesOfShapeIndex(k, l);
  }

  /** A table whose every pair holds its rational row is the rational table. */
  lemma IsRationalTable(t: WeightedTable, rows: seq<seq<real>>)
    requires Divisible(t) && TableShaped(t, rows)
    requires forall k: nat, l: nat :: k + l <= t.order ==> RowOf(t, rows, k, l) == Rational(t, k, l)
    ensures rows == RationalTable(t)
  {
    var table := RationalTable(t);
    forall s | 0 <= s < |rows| ensures rows[s] == table[s] {
      var d := DerivativesOf(s);
      DerivativesOfInRange(s, t.order);
      assert RowOf(t, rows, d.0, d.1) == rows[s];
    }
  }

  /** The Leibniz equations characterise the rational table: a table of the
      right shape solves them exactly when it is the rational table. */
  lemma LeibnizCharacterisation(t: WeightedTable, rows: seq<seq<real>>)
    requires Divisible(t) && TableShaped(t, rows)
    ensures SolvesLeibniz(t, rows) <==> rows == RationalTable(t)
  {
    if SolvesLeibniz(t, rows) {
      forall k: nat, l: nat | k + l <= t.order ensures RowOf(t, rows, k, l) == Rational(t, k, l) {
        LeibnizUnique(t, rows, k, l);
      }
      IsRationalTable(t, rows);
    }
    if rows == RationalTable(t) {
      forall k: nat, l: nat | k + l <= t.order ensures RowOf(t, rows, k, l) == Rational(t, k, l) {
        RationalTableAt(t, k, l);
      }
      RationalSolvesLeibniz(t, rows);
    }
  }

  // ---------------------------------------------------------------------------
  // The correction loops
  // ---------------------------------------------------------------------------

  /** The correction loops of the rational `compute_at_span`: pairs are
      visited k (u-derivative) outer and l (v-derivative) inner, and each row is
      corrected in place using only rows finished before it. */
  method CorrectRows(t: WeightedTable) returns (rows: seq<seq<real>>)
    requires Divisible(t)
    ensures rows == RationalTable(t)
  {
    ShapeIndicesInRange(t.order);
    rows := t.values;
    var k := 0;
    while k <= t.order
      invariant 0 <= k <= t.order + 1
      invariant TableShaped(t, rows)
      invariant forall k': nat, l': nat :: k' + l' <= t.order ==>
        rows[ShapeIndex(k', l')] == if k' < k then Rational(t, k', l') else t.values[ShapeIndex(k', l')]
    {
      var l := 0;
      while l <= t.order - k
        invariant 0 <= l <= t.order - k + 1
        invariant TableShaped(t, rows)
        invariant forall k': nat, l': nat :: k' + l' <= t.order ==>
          rows[ShapeIndex(k', l')] ==
            if k' < k || (k' == k && l' < l) then Rational(t, k', l') else t.values[ShapeIndex(k', l')]
      {
        var shape := ShapeIndex(k, l);
        var row := CorrectRow(t, rows, k, l);
        forall k': nat, l': nat | k' + l' <= t.order && ShapeIndex(k', l') == shape
          ensures k' == k && l' == l
        {
          ShapeIndexInjective(k', l', k, l);
        }
        rows := rows[shape := row];
        l := l + 1;
      }
      k := k + 1;
    }
    IsRationalTable(t, rows);
  }

  /** The correction of row (k, l), given that every pair visited before it
      already holds its rational row and row (k, l) still holds its weighted
      values. */
  method CorrectRow(t: WeightedTable, rows: seq<seq<real>>, k: nat, l: nat) returns (row: seq<real>)
    requires Divisible(t) && TableShaped(t, rows) && k + l <= t.order
    requires Finished(t, rows, k, l)
    requires ShapeIndex(k, l) < |rows| && rows[ShapeIndex(k, l)] == t.values[ShapeIndex(k, l)]
    ensures row == Rational(t, k, l)
  {
    var weighted := rows[ShapeIndex(k, l)];
    var afterV := SubtractVTerms(t, rows, k, l, weighted);
    VPassOnFinished(t, rows, k, l, l, weighted);
    var afterU := SubtractUTerms(t, rows, k, l, afterV);
    UPassOnFinished(t, rows, k, l, k, afterV);
    row := SubtractMixedTerms(t, rows, k, l, afterU);
    MixedPassOnFinished(t, rows, k, l, k, afterU);
    row := DivideRow(row, t.sums[0]);
  }

  /** The first correction loop: the pure v-derivative terms. */
  method SubtractVTerms(t: WeightedTable, rows: seq<seq<real>>, k: nat, l: nat, weighted: seq<real>)
    returns (row: seq<real>)
    requires WellShaped(t) && TableShaped(t, rows) && k + l <= t.order && |weighted| == t.nbPoles
    ensures row == VPassOn(t, rows, k, l, l, weighted)
  {
    row := weighted;
    var j := 1;
    while j <= l
      invariant 1 <= j <= l + 1
      invariant row == VPassOn(t, rows, k, l, j - 1, weighted)
    {
      ShapeIndexInRange(k, l - j, t.order);
      var a := VCoefficient(t, l, j);
      row := SubtractScaled(row, a, rows[ShapeIndex(k, l - j)]);
      j := j + 1;
    }
  }

  /** The second correction loop: the pure u-derivative terms. */
  method SubtractUTerms(t: WeightedTable, rows: seq<seq<real>>, k: nat, l: nat, afterV: seq<real>)
    returns (row: seq<real>)
    requires WellShaped(t) && TableShaped(t, rows) && k + l <= t.order && |afterV| == t.nbPoles
    ensures row == UPassOn(t, rows, k, l, k, afterV)
  {
    row := afterV;
    var i := 1;
    while i <= k
      invariant 1 <= i <= k + 1
      invariant row == UPassOn(t, rows, k, l, i - 1, afterV)
    {
      ShapeIndexInRange(k - i, l, t.order);
      var a := UCoefficient(t, k, i);
      row := SubtractScaled(row, a, rows[ShapeIndex(k - i, l)]);
      i := i + 1;
    }
  }

  /** The third correction loop: the mixed terms, i outer and j inner. */
  method SubtractMixedTerms(t: WeightedTable, rows: seq<seq<real>>, k: nat, l: nat, afterU: seq<real>)
    returns (row: seq<real>)
    requires WellShaped(t) && TableShaped(t, rows) && k + l <= t.order && |afterU| == t.nbPoles
    ensures row == MixedPassOn(t, rows, k, l, k, afterU)
  {
    row := afterU;
    var i := 1;
    while i <= k
      invariant 1 <= i <= k + 1
      invariant row == MixedPassOn(t, rows, k, l, i - 1, afterU)
    {
      var before := row;
      var j := 1;
      while j <= l
        invariant 1 <= j <= l + 1
        invariant row == MixedRowOn(t, rows, k, l, i, j - 1, before)
      {
        ShapeIndexInRange(k - i, l - j, t.order);
        var b := MixedCoefficient(t, k, l, i, j);
        row := SubtractScaled(row, b, rows[ShapeIndex(k - i, l - j)]);
        j := j + 1;
      }
      i := i + 1;
    }
  }

  // ---------------------------------------------------------------------------
  // The table of a span pair
  // ---------------------------------------------------------------------------

  /** The weight matrix has an entry for every nonzero pole of the span pair,
      whose first poles are (firstU, firstV). */
  predicate CoversWindow(weights: seq<seq<real>>, firstU: int, firstV: int, nbU: nat, nbV: nat) {
    && 0 <= firstU && firstU + nbU <= |weights|
    && 0 <= firstV
    && forall i :: firstU <= i < firstU + nbU ==> firstV + nbV <= |weights[i]|
  }

  /** The weights of the nonzero poles, laid out like a row of the value
      buffer: local pole (a, b) at SingleIndex(nbU, nbV, a, b). */
  function LocalWeights(weights: seq<seq<real>>, firstU: int, firstV: int, nbU: nat, nbV: nat): (r: seq<real>)
    requires CoversWindow(weights, firstU, firstV, nbU, nbV)
    ensures |r| == Times(nbU, nbV)
  {
    Layout(seq(nbU, a requires 0 <= a < nbU => seq(nbV, b requires 0 <= b < nbV => weights[firstU + a][firstV + b])), nbU, nbV)
  }

  /** Local pole (a, b) carries the weight of global pole
      (firstU + a, firstV + b). */
  lemma LocalWeightAt(weights: seq<seq<real>>, firstU: int, firstV: int, nbU: nat, nbV: nat, a: nat, b: nat)
    requires CoversWindow(weights, firstU, firstV, nbU, nbV)
    requires a < nbU && b < nbV
    ensures SingleIndex(nbU, nbV, a, b) < |LocalWeights(weights, firstU, firstV, nbU, nbV)|
    ensures LocalWeights(weights, firstU, firstV, nbU, nbV)[SingleIndex(nbU, nbV, a, b)]
      == weights[firstU + a][firstV + b]
  {
    var table := seq(nbU, a requires 0 <= a < nbU => seq(nbV, b requires 0 <= b < nbV => weights[firstU + a][firstV + b]));
    LayoutAt(table, nbU, nbV, a, b);
  }

  /** The weighted table of a B-spline table: every row multiplied entrywise
      by the pole weights, and each weighted sum the sum of its row. */
  function Weighted(values: seq<seq<real>>, local: seq<real>, order: nat): (t: WeightedTable)
    requires forall s :: 0 <= s < |values| ==> |values[s]| == |local|
    ensures |t.values| == |values| && |t.sums| == |values| && t.nbPoles == |local| && t.order == order
    ensures forall s :: 0 <= s < |values| ==>
      t.values[s] == MultiplyRows(values[s], local) && t.sums[s] == Sum(t.values[s])
  {
    var rows := seq(|values|, s requires 0 <= s < |values| => MultiplyRows(values[s], local));
    WeightedTable(order, |local|, rows, seq(|values|, s requires 0 <= s < |values| => Sum(rows[s])))
  }

  /** The weighted table the rational `compute_at_span` corrects: the tensor
      table of the two univariate tables weighted by the poles of the span
      pair. */
  function SpanTable(u: CurveShape, v: CurveShape, weights: seq<seq<real>>,
                     degreeU: nat, degreeV: nat, order: nat, spanU: int, spanV: int): (t: WeightedTable)
    requires Shaped(u, degreeU, order) && Shaped(v, degreeV, order)
    requires CoversWindow(weights, spanU - degreeU + 1, spanV - degreeV + 1, degreeU + 1, degreeV + 1)
    ensures WellShaped(t) && t.order == order && t.nbPoles == Times(degreeU + 1, degreeV + 1)
    ensures |t.values| == NbShapes(order)
    ensures forall s :: 0 <= s < |t.values| ==> t.sums[s] == Sum(t.values[s])
  {
    var local := LocalWeights(weights, spanU - degreeU + 1, spanV - degreeV + 1, degreeU + 1, degreeV + 1);
    Weighted(TensorTable(u, v, degreeU, degreeV, order), local, order)
  }

  /** The result of the rational `compute_at_span`. The correction divides
      by the weight function; when that is zero the C++ code produces
      non-finite values, which the model reports as ZeroWeightSum. */
  datatype Outcome = Computed(w: Workspace) | ZeroWeightSum

  /** The workspace the correction of t leaves for a span pair, or
      ZeroWeightSum when the weight function vanishes. When the weight
      function is the sum of the weighted values, the corrected (0, 0) row
      sums to one. */
  function Corrected(w: Workspace, t: WeightedTable, spanU: int, spanV: int): (r: Outcome)
    requires WellShaped(t)
    ensures r.Computed? <==> Divisible(t)
    ensures r.Computed? && t.sums[0] == Sum(t.values[0]) ==> |r.w.values| > 0 && Sum(r.w.values[0]) == 1.0
  {
    if !Divisible(t) then ZeroWeightSum
    else
      assert t.sums[0] == Sum(t.values[0]) ==> |RationalTable(t)| > 0 && Sum(RationalTable(t)[0]) == 1.0 by {
        if t.sums[0] == Sum(t.values[0]) {
          RationalTablePartitionOfUnity(t);
        }
      }
      Computed(Workspace(w.degreeU, w.degreeV, w.order, t.sums, RationalTable(t),
                         spanU - w.degreeU + 1, spanV - w.degreeV + 1))
  }

  /** What the rational `compute_at_span` produces: the span table with its
      weighted sums, corrected into the rational table. Whenever it
      succeeds, the rational basis functions of the span pair sum to one:
      the row of derivative pair (0, 0) sums to one. */
  function RationalAtSpan(w: Workspace, u: CurveShape, v: CurveShape, weights: seq<seq<real>>,
                          spanU: int, spanV: int): (r: Outcome)
    requires Shaped(u, w.degreeU, w.order) && Shaped(v, w.degreeV, w.order)
    requires CoversWindow(weights, spanU - w.degreeU + 1, spanV - w.degreeV + 1, w.degreeU + 1, w.degreeV + 1)
    ensures r.Computed? ==> |r.w.values| > 0 && Sum(r.w.values[0]) == 1.0
  {
    Corrected(w, SpanTable(u, v, weights, w.degreeU, w.degreeV, w.order, spanU, spanV), spanU, spanV)
  }

  /** The rational basis functions sum to one: row (0, 0) is the weighted
      row divided by its own sum. */
  lemma PartitionOfUnity(t: WeightedTable)
    requires Divisible(t) && t.sums[0] == Sum(t.values[0])
    ensures ShapeIndex(0, 0) == 0
    ensures Sum(Rational(t, 0, 0)) == 1.0
  {
    var weighted := t.values[ShapeIndex(0, 0)];
    assert VPass(t, 0, 0, 0, weighted) == weighted;
    assert UPass(t, 0, 0, 0, weighted) == weighted;
    assert MixedPass(t, 0, 0, 0, weighted) == weighted;
    assert Rational(t, 0, 0) == DivideRow(weighted, t.sums[0]);
    SumDivideRow(t.values[0], t.sums[0]);
    DivideSelf(t.sums[0]);
  }

  /** The (0, 0) row of the rational table of a table whose weighted sums
      are its row sums sums to one. */
  lemma RationalTablePartitionOfUnity(t: WeightedTable)
    requires Divisible(t) && t.sums[0] == Sum(t.values[0])
    ensures |RationalTable(t)| > 0 && Sum(RationalTable(t)[0]) == 1.0
  {
    RationalTableAt(t, 0, 0);
    PartitionOfUnity(t);
  }

  lemma DivideSelf(x: real)
    requires x != 0.0
    ensures x / x == 1.0
  {
  }
}

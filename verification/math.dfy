/** Index arithmetic and finite sums shared by the shape-function tables. */
module Math {

  /** The product a * b as repeated addition. Table sizes and row-major
      positions are written with it so that the solver reasons about them by
      unfolding one row at a time rather than by non-linear arithmetic;
      TimesIsProduct connects it to `*`. */
  function Times(a: nat, b: nat): nat
  {
    if a == 0 then 0 else Times(a - 1, b) + b
  }

  lemma {:induction false} TimesIsProduct(a: nat, b: nat)
    ensures Times(a, b) == a * b
  {
    if a > 0 {
      TimesIsProduct(a - 1, b);
    }
  }

  /** A table holds no cells exactly when it has no rows or no columns. */
  lemma {:induction false} TimesZero(a: nat, b: nat)
    ensures Times(a, b) == 0 <==> a == 0 || b == 0
  {
    if a > 0 {
      TimesZero(a - 1, b);
    }
  }

  /** A strictly later row starts at least a whole row further on. */
  lemma {:induction false} TimesStrict(a: nat, b: nat, c: nat)
    ensures a < b ==> Times(a, c) + c <= Times(b, c)
    decreases b
  {
    if a < b && a + 1 < b {
      TimesStrict(a, b - 1, c);
    }
  }

  /** Row-major position of entry (i, j) in a table with `cols` columns
      (Math::single_index). */
  function SingleIndex(rows: nat, cols: nat, i: nat, j: nat): (r: nat)
    requires i < rows && j < cols
    ensures r < Times(rows, cols)
  {
    TimesStrict(i, rows, cols);
    Times(i, cols) + j
  }

  /** Distinct cells of the table have distinct positions. */
  lemma SingleIndexInjective(rows: nat, cols: nat, i: nat, j: nat, i': nat, j': nat)
    requires i < rows && j < cols && i' < rows && j' < cols
    requires SingleIndex(rows, cols, i, j) == SingleIndex(rows, cols, i', j')
    ensures i == i' && j == j'
  {
    TimesStrict(i, i', cols);
    TimesStrict(i', i, cols);
  }

  /** The cell stored at position p of a row-major table: the inverse of
      SingleIndex. */
  function CellOf(rows: nat, cols: nat, p: nat): (c: (nat, nat))
    requires p < Times(rows, cols)
    ensures c.0 < rows && c.1 < cols && SingleIndex(rows, cols, c.0, c.1) == p
    decreases rows
  {
    if p < cols then (0, p)
    else
      var c := CellOf(rows - 1, cols, p - cols);
      (c.0 + 1, c.1)
  }

  /** Binomial coefficient by Pascal's rule (Math::binom). */
  function Binom(n: nat, k: nat): (r: nat)
    ensures k == 0 ==> r == 1
    ensures k > n ==> r == 0
    ensures k == n ==> r == 1
  {
    if k == 0 then 1
    else if n == 0 then 0
    else Binom(n - 1, k - 1) + Binom(n - 1, k)
  }

  /** Sum of a sequence of reals, first entry first. */
  function Sum(s: seq<real>): real
  {
    if |s| == 0 then 0.0 else Sum(s[..|s| - 1]) + s[|s| - 1]
  }

  /** Entrywise quotient of a row by a scalar. */
  function DivideRow(s: seq<real>, c: real): (r: seq<real>)
    requires c != 0.0
    ensures |r| == |s|
  {
    seq(|s|, p requires 0 <= p < |s| => s[p] / c)
  }

  /** Dividing every entry divides the sum. */
  lemma {:induction false} SumDivideRow(s: seq<real>, c: real)
    requires c != 0.0
    ensures Sum(DivideRow(s, c)) == Sum(s) / c
  {
    if |s| > 0 {
      var d := DivideRow(s, c);
      assert d[..|d| - 1] == DivideRow(s[..|s| - 1], c);
      SumDivideRow(s[..|s| - 1], c);
      assert Sum(d) == Sum(s[..|s| - 1]) / c + s[|s| - 1] / c;
    }
  }

  /** The row `c * v`. */
  function ScaleRow(c: real, v: seq<real>): (r: seq<real>)
    ensures |r| == |v|
    ensures forall b :: 0 <= b < |v| ==> r[b] == c * v[b]
  {
    seq(|v|, b requires 0 <= b < |v| => c * v[b])
  }

  lemma {:induction false} SumScaleRow(c: real, v: seq<real>)
    ensures Sum(ScaleRow(c, v)) == c * Sum(v)
  {
    if |v| > 0 {
      var n := |v| - 1;
      var s := ScaleRow(c, v);
      assert s[..n] == ScaleRow(c, v[..n]) by {
        forall b | 0 <= b < n ensures s[..n][b] == ScaleRow(c, v[..n])[b] {
          assert s[b] == c * v[b];
        }
      }
      SumScaleRow(c, v[..n]);
    }
  }

  /** A sum can be split after its first entry as well as before its last. */
  lemma SumHeadTail(u: seq<real>)
    requires |u| > 0
    ensures Sum(u) == u[0] + Sum(u[1..])
  {
    assert u == [u[0]] + u[1..];
    SumAppend([u[0]], u[1..]);
    assert Sum([u[0]]) == Sum([u[0]][..0]) + u[0];
  }

  /** A prefix sum grows by the next entry. */
  lemma SumPrefixStep(s: seq<real>, n: nat)
    requires n < |s|
    ensures Sum(s[..n + 1]) == Sum(s[..n]) + s[n]
  {
    assert s[..n + 1][..n] == s[..n];
  }

  /** Entrywise product of two rows of equal length. */
  function MultiplyRows(s: seq<real>, w: seq<real>): (r: seq<real>)
    requires |s| == |w|
    ensures |r| == |s|
  {
    seq(|s|, p requires 0 <= p < |s| => s[p] * w[p])
  }

  /** Sum of products of two rows of equal length. */
  function SumOfProducts(s: seq<real>, w: seq<real>): real
    requires |s| == |w|
  {
    Sum(MultiplyRows(s, w))
  }

  /** The row `r - a * x` that the rational correction subtracts. */
  function SubtractScaled(r: seq<real>, a: real, x: seq<real>): (out: seq<real>)
    requires |r| == |x|
    ensures |out| == |r|
  {
    seq(|r|, p requires 0 <= p < |r| => r[p] - a * x[p])
  }

  lemma SubtractScaledAt(r: seq<real>, a: real, x: seq<real>, p: nat)
    requires |r| == |x| && p < |r|
    ensures SubtractScaled(r, a, x)[p] == r[p] - a * x[p]
  {
  }

  /** Concatenation of the rows of a table, first row first. */
  function Flatten<T>(rows: seq<seq<T>>): seq<T>
  {
    if |rows| == 0 then [] else rows[0] + Flatten(rows[1..])
  }

  lemma {:induction false} FlattenLength<T>(rows: seq<seq<T>>, cols: nat)
    requires forall i :: 0 <= i < |rows| ==> |rows[i]| == cols
    ensures |Flatten(rows)| == Times(|rows|, cols)
  {
    if |rows| > 0 {
      FlattenLength(rows[1..], cols);
    }
  }

  lemma {:induction false} FlattenCell<T>(rows: seq<seq<T>>, cols: nat, i: nat, j: nat)
    requires forall i :: 0 <= i < |rows| ==> |rows[i]| == cols
    requires i < |rows| && j < cols
    ensures SingleIndex(|rows|, cols, i, j) < |Flatten(rows)|
    ensures Flatten(rows)[SingleIndex(|rows|, cols, i, j)] == rows[i][j]
  {
    FlattenLength(rows, cols);
    var tail := rows[1..];
    assert Flatten(rows) == rows[0] + Flatten(tail);
    if i > 0 {
      FlattenCell(tail, cols, i - 1, j);
      assert SingleIndex(|rows|, cols, i, j) == cols + SingleIndex(|tail|, cols, i - 1, j);
    }
  }

  /** Row-major layout of a table of `nrows` rows of `cols` entries each:
      position p holds the cell CellOf(nrows, cols, p). */
  function Layout<T>(table: seq<seq<T>>, nrows: nat, cols: nat): (r: seq<T>)
    requires |table| == nrows
    requires forall i :: 0 <= i < nrows ==> |table[i]| == cols
    ensures |r| == Times(nrows, cols)
  {
    seq(Times(nrows, cols), p requires 0 <= p < Times(nrows, cols) =>
      var c := CellOf(nrows, cols, p); table[c.0][c.1])
  }

  /** Cell (i, j) of a laid-out table sits at SingleIndex(nrows, cols, i, j). */
  lemma LayoutAt<T>(table: seq<seq<T>>, nrows: nat, cols: nat, i: nat, j: nat)
    requires |table| == nrows
    requires forall i :: 0 <= i < nrows ==> |table[i]| == cols
    requires i < nrows && j < cols
    ensures SingleIndex(nrows, cols, i, j) < |Layout(table, nrows, cols)|
    ensures Layout(table, nrows, cols)[SingleIndex(nrows, cols, i, j)] == table[i][j]
  {
    var c := CellOf(nrows, cols, SingleIndex(nrows, cols, i, j));
    SingleIndexInjective(nrows, cols, c.0, c.1, i, j);
  }

  /** The layout of a table is the concatenation of its rows. */
  lemma LayoutIsFlatten<T>(table: seq<seq<T>>, nrows: nat, cols: nat)
    requires |table| == nrows
    requires forall i :: 0 <= i < nrows ==> |table[i]| == cols
    ensures Layout(table, nrows, cols) == Flatten(table)
  {
    var l, f := Layout(table, nrows, cols), Flatten(table);
    FlattenLength(table, cols);
    forall p | 0 <= p < |l| ensures l[p] == f[p] {
      var c := CellOf(nrows, cols, p);
      FlattenCell(table, cols, c.0, c.1);
    }
  }

  /** Flattening distributes over a concatenation of tables. */
  lemma {:induction false} FlattenAppend<T>(a: seq<seq<T>>, b: seq<seq<T>>)
    ensures Flatten(a + b) == Flatten(a) + Flatten(b)
  {
    if |a| == 0 {
      assert a + b == b;
    } else {
      assert (a + b)[1..] == a[1..] + b;
      FlattenAppend(a[1..], b);
    }
  }

  /** Flattening one more row appends that row. */
  lemma FlattenStep<T>(rows: seq<seq<T>>, k: nat)
    requires k < |rows|
    ensures Flatten(rows[..k + 1]) == Flatten(rows[..k]) + rows[k]
  {
    assert rows[..k + 1] == rows[..k] + [rows[k]];
    FlattenAppend(rows[..k], [rows[k]]);
    assert Flatten([rows[k]]) == rows[k] + Flatten<T>([]);
  }

  /** Entry i of row l sits, in the flattened table, after all entries of
      the rows before l. */
  lemma FlattenAt<T>(rows: seq<seq<T>>, l: nat, i: nat)
    requires l < |rows| && i < |rows[l]|
    ensures |Flatten(rows[..l])| + i < |Flatten(rows)|
    ensures Flatten(rows)[|Flatten(rows[..l])| + i] == rows[l][i]
  {
    assert rows == rows[..l + 1] + rows[l + 1..];
    FlattenAppend(rows[..l + 1], rows[l + 1..]);
    FlattenStep(rows, l);
  }

  /** A sum splits over a concatenation. */
  lemma {:induction false} SumAppend(a: seq<real>, b: seq<real>)
    ensures Sum(a + b) == Sum(a) + Sum(b)
  {
    if |b| > 0 {
      assert (a + b)[..|a + b| - 1] == a + b[..|b| - 1];
      SumAppend(a, b[..|b| - 1]);
    } else {
      assert a + b == a;
    }
  }
}

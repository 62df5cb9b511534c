/** The state of a NURBS surface in the older API (SurfaceGeometry): a grid
    of poles and a grid of weights that is empty for a polynomial surface. */
module LegacySurfaceGeometry {
  import opened Errors
  import opened Math
  import opened LinearAlgebra

  const NotRational := "Geometry is not rational"

  /** A table of nbRows rows of nbCols values (Grid). The grid class is not
      part of this model; only its shape, its reads and its writes are. */
  datatype Grid<T> = Grid(nbRows: nat, nbCols: nat, cells: seq<seq<T>>)

  predicate GridShaped<T>(g: Grid<T>) {
    |g.cells| == g.nbRows && forall i :: 0 <= i < |g.cells| ==> |g.cells[i]| == g.nbCols
  }

  /** NbValues: the number of cells. */
  function NbValues<T>(g: Grid<T>): nat
  {
    Times(g.nbRows, g.nbCols)
  }

  /** A grid of the given shape, every cell holding `initial`. */
  function NewGrid<T>(nbRows: nat, nbCols: nat, initial: T): (g: Grid<T>)
    ensures GridShaped(g) && g.nbRows == nbRows && g.nbCols == nbCols
  {
    Grid(nbRows, nbCols, seq(nbRows, _ => seq(nbCols, _ => initial)))
  }

  /** SetValue: cell (i, j) becomes `value`. */
  function SetValue<T>(g: Grid<T>, i: nat, j: nat, value: T): (r: Grid<T>)
    requires GridShaped(g) && i < g.nbRows && j < g.nbCols
    ensures GridShaped(r) && r.nbRows == g.nbRows && r.nbCols == g.nbCols
    ensures r.cells[i][j] == value
    ensures forall k, l :: 0 <= k < g.nbRows && 0 <= l < g.nbCols && (k, l) != (i, j) ==>
      r.cells[k][l] == g.cells[k][l]
  {
    Grid(g.nbRows, g.nbCols, g.cells[i := g.cells[i][j := value]])
  }

  datatype Geometry = Geometry(
    degreeU: int, degreeV: int, nbPolesU: nat, nbPolesV: nat,
    poles: Grid<Vector>, weights: Grid<real>)

  /** The pole grid has nbPolesU x nbPolesV cells; the weight grid has the
      same shape or none at all. */
  predicate Valid(g: Geometry) {
    && GridShaped(g.poles) && GridShaped(g.weights)
    && g.poles.nbRows == g.nbPolesU && g.poles.nbCols == g.nbPolesV
    && ((g.weights.nbRows == g.nbPolesU && g.weights.nbCols == g.nbPolesV)
        || (g.weights.nbRows == 0 && g.weights.nbCols == 0))
  }

  /** IsRational: the weight grid holds at least one value. */
  predicate IsRational(g: Geometry) {
    NbValues(g.weights) != 0
  }

  /** The constructor. The initial cell values are whatever the grid
      constructor puts there; they enter as parameters. */
  function New(degreeU: int, degreeV: int, nbPolesU: nat, nbPolesV: nat, isRational: bool,
               initialPole: Vector, initialWeight: real): (g: Geometry)
    ensures Valid(g) && g.degreeU == degreeU && g.degreeV == degreeV
    ensures g.poles.nbRows == nbPolesU && g.poles.nbCols == nbPolesV
    ensures g.weights.nbRows == (if isRational then nbPolesU else 0)
    ensures g.weights.nbCols == (if isRational then nbPolesV else 0)
    ensures IsRational(g) <==> isRational && nbPolesU > 0 && nbPolesV > 0
  {
    var weights := NewGrid(if isRational then nbPolesU else 0, if isRational then nbPolesV else 0, initialWeight);
    TimesZero(weights.nbRows, weights.nbCols);
    Geometry(degreeU, degreeV, nbPolesU, nbPolesV, NewGrid(nbPolesU, nbPolesV, initialPole), weights)
  }

  /** Pole(i, j). The grid read is not range-checked here. */
  function Pole(g: Geometry, i: nat, j: nat): (p: Vector)
    requires Valid(g) && i < g.nbPolesU && j < g.nbPolesV
  {
    g.poles.cells[i][j]
  }

  /** SetPole(i, j, value): only pole (i, j) changes. */
  function SetPole(g: Geometry, i: nat, j: nat, value: Vector): (r: Geometry)
    requires Valid(g) && i < g.nbPolesU && j < g.nbPolesV
    ensures Valid(r) && r.nbPolesU == g.nbPolesU && r.nbPolesV == g.nbPolesV
    ensures r.weights == g.weights && r.degreeU == g.degreeU && r.degreeV == g.degreeV
  {
    g.(poles := SetValue(g.poles, i, j, value))
  }

  /** Weight(i, j): the stored weight of a rational surface, and 1 for every
      index of a polynomial one. Only a rational surface reads its grid. */
  function Weight(g: Geometry, i: nat, j: nat): (w: real)
    requires Valid(g) && (IsRational(g) ==> i < g.nbPolesU && j < g.nbPolesV)
    ensures !IsRational(g) ==> w == 1.0
  {
    if IsRational(g) then
      TimesZero(g.weights.nbRows, g.weights.nbCols);
      g.weights.cells[i][j]
    else 1.0
  }

  /** SetWeight(i, j, value): refused with invalid_argument on a polynomial
      surface, which keeps its state. */
  function SetWeight(g: Geometry, i: nat, j: nat, value: real): (r: Result<Geometry>)
    requires Valid(g) && (IsRational(g) ==> i < g.nbPolesU && j < g.nbPolesV)
    ensures r.Failure? <==> !IsRational(g)
    ensures r.Failure? ==> r.error == InvalidArgument(NotRational)
    ensures r.Success? ==>
      && Valid(r.value) && IsRational(r.value)
      && r.value.poles == g.poles && r.value.nbPolesU == g.nbPolesU && r.value.nbPolesV == g.nbPolesV
      && r.value.degreeU == g.degreeU && r.value.degreeV == g.degreeV
  {
    if IsRational(g) then
      TimesZero(g.weights.nbRows, g.weights.nbCols);
      Success(g.(weights := SetValue(g.weights, i, j, value)))
    else Failure(InvalidArgument(NotRational))
  }

  /** Reading pole (k, l) after setting pole (i, j). */
  lemma PoleAfterSetPole(g: Geometry, i: nat, j: nat, value: Vector, k: nat, l: nat)
    requires Valid(g) && i < g.nbPolesU && j < g.nbPolesV && k < g.nbPolesU && l < g.nbPolesV
    ensures Pole(SetPole(g, i, j, value), k, l) == if (k, l) == (i, j) then value else Pole(g, k, l)
  {
  }

  /** Reading weight (k, l) after setting weight (i, j) on a rational surface. */
  lemma WeightAfterSetWeight(g: Geometry, i: nat, j: nat, value: real, k: nat, l: nat)
    requires Valid(g) && IsRational(g)
    requires i < g.nbPolesU && j < g.nbPolesV && k < g.nbPolesU && l < g.nbPolesV
    ensures SetWeight(g, i, j, value).Success?
    ensures Weight(SetWeight(g, i, j, value).value, k, l) == if (k, l) == (i, j) then value else Weight(g, k, l)
  {
    TimesZero(g.weights.nbRows, g.weights.nbCols);
  }

  /** A surface constructed as rational but without poles in one direction
      reports itself polynomial: its weights all read as 1 and cannot be set. */
  lemma RationalWithoutPolesIsPolynomial(degreeU: int, degreeV: int, nbPolesU: nat, initialPole: Vector, initialWeight: real, i: nat, j: nat)
    ensures var g := New(degreeU, degreeV, nbPolesU, 0, true, initialPole, initialWeight);
      && !IsRational(g)
      && Weight(g, i, j) == 1.0
      && SetWeight(g, i, j, 2.0) == Failure(InvalidArgument(NotRational))
  {
  }
}

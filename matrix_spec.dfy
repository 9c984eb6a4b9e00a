/**
 * Reference definitions for dense integer matrices whose storage is an
 * ordered sequence of rows, each an ordered sequence of cells.  These are
 * values: the class in module LinearAlgebra is proved against them.
 */
module MatrixSpec {

  /** Storage of a matrix: a list of rows, each a list of cells. */
  type Grid = seq<seq<int>>

  datatype Option<T> = None | Some(value: T)

  /** The number of stored rows. */
  function RowsOf(d: Grid): nat {
    |d|
  }

  /** The length of the first row, or 0 when there are no rows. */
  function ColsOf(d: Grid): nat {
    if |d| == 0 then 0 else |d[0]|
  }

  /** `d` has exactly `rows` rows of `cols` cells each. */
  predicate HasShape(d: Grid, rows: nat, cols: nat) {
    |d| == rows && forall i :: 0 <= i < |d| ==> |d[i]| == cols
  }

  /** Every row is as long as the first one. */
  predicate Rectangular(d: Grid) {
    HasShape(d, RowsOf(d), ColsOf(d))
  }

  lemma ShapeDeterminesDimensions(d: Grid, rows: nat, cols: nat)
    requires HasShape(d, rows, cols) && rows > 0
    ensures Rectangular(d) && RowsOf(d) == rows && ColsOf(d) == cols
  {
  }

  /**
   * How many elements a Python range or list repetition yields for a count
   * `n`: a negative count yields none.
   */
  function Count(n: int): nat {
    if n < 0 then 0 else n
  }

  /** `rows` rows of `cols` copies of `fill`. */
  function Filled(rows: nat, cols: nat, fill: int): (d: Grid)
    ensures HasShape(d, rows, cols)
    ensures forall i, j :: 0 <= i < rows && 0 <= j < cols ==> d[i][j] == fill
  {
    seq(rows, _ => seq(cols, _ => fill))
  }

  /**
   * The storage the constructor sets up from its keyword arguments, with
   * Python truthiness: an empty `data` list and a zero count are false.
   * Non-empty `data` is copied; otherwise non-zero `rows` and `cols` give a
   * filled grid (a negative count yields no elements); otherwise no storage
   * is set up at all (None).
   */
  function InitialCells(data: Grid, rows: int, cols: int, fill: int): (d: Option<Grid>)
    ensures d.Some? <==> |data| > 0 || (rows != 0 && cols != 0)
    ensures |data| > 0 ==> d == Some(data)
    ensures |data| == 0 && rows > 0 && cols > 0 ==>
      d.Some? && Rectangular(d.value) && RowsOf(d.value) == rows && ColsOf(d.value) == cols &&
      forall i, j :: 0 <= i < rows && 0 <= j < cols ==> d.value[i][j] == fill
    ensures |data| == 0 && rows < 0 && cols != 0 ==> d == Some([])
    ensures |data| == 0 && rows > 0 && cols < 0 ==> d.Some? && HasShape(d.value, rows, 0)
  {
    if |data| > 0 then
      Some(data)
    else if rows != 0 && cols != 0 then
      var d := Filled(Count(rows), Count(cols), fill);
      assert rows > 0 ==> ColsOf(d) == Count(cols) by {
        if rows > 0 { assert |d[0]| == Count(cols); }
      }
      Some(d)
    else
      None
  }

  /** Column `j` of `d` as a grid of one-cell rows. */
  function Column(d: Grid, j: nat): (col: Grid)
    requires forall i :: 0 <= i < |d| ==> j < |d[i]|
    ensures HasShape(col, |d|, 1)
    ensures forall i :: 0 <= i < |d| ==> col[i][0] == d[i][j]
  {
    seq(|d|, i requires 0 <= i < |d| => [d[i][j]])
  }

  /**
   * The sum over `k` in [0, n) of a[r][k] * b[k][c], accumulated from
   * k = 0 upwards starting at 0.
   */
  function Dot(a: Grid, b: Grid, r: nat, c: nat, n: nat): int
    requires r < |a| && n <= |a[r]|
    requires n <= |b| && forall k :: 0 <= k < n ==> c < |b[k]|
  {
    if n == 0 then 0 else Dot(a, b, r, c, n - 1) + a[r][n - 1] * b[n - 1][c]
  }

  /** The standard matrix product of `a` (m x n) and `b` (n x p). */
  function Product(a: Grid, b: Grid): (p: Grid)
    requires Rectangular(a) && Rectangular(b) && ColsOf(a) == RowsOf(b)
    ensures HasShape(p, RowsOf(a), ColsOf(b))
    ensures forall r, c :: 0 <= r < RowsOf(a) && 0 <= c < ColsOf(b) ==>
      p[r][c] == Dot(a, b, r, c, ColsOf(a))
  {
    seq(RowsOf(a), r requires 0 <= r < RowsOf(a) =>
      seq(ColsOf(b), c requires 0 <= c < ColsOf(b) => Dot(a, b, r, c, ColsOf(a))))
  }

  /** Every cell of `a` multiplied by `n`. */
  function Scaled(a: Grid, n: int): (s: Grid)
    requires Rectangular(a)
    ensures HasShape(s, RowsOf(a), ColsOf(a))
    ensures forall r, c :: 0 <= r < RowsOf(a) && 0 <= c < ColsOf(a) ==> s[r][c] == a[r][c] * n
  {
    seq(RowsOf(a), r requires 0 <= r < RowsOf(a) =>
      seq(ColsOf(a), c requires 0 <= c < ColsOf(a) => a[r][c] * n))
  }

  /** The elementwise sum of two grids of one shape. */
  function Sum(a: Grid, b: Grid): (s: Grid)
    requires Rectangular(a) && HasShape(b, RowsOf(a), ColsOf(a))
    ensures HasShape(s, RowsOf(a), ColsOf(a))
    ensures forall r, c :: 0 <= r < RowsOf(a) && 0 <= c < ColsOf(a) ==> s[r][c] == a[r][c] + b[r][c]
  {
    seq(RowsOf(a), r requires 0 <= r < RowsOf(a) =>
      seq(ColsOf(a), c requires 0 <= c < ColsOf(a) => a[r][c] + b[r][c]))
  }

  /** The transpose: cell (r, c) of the result is cell (c, r) of `a`. */
  function Transposed(a: Grid): (t: Grid)
    requires Rectangular(a)
    ensures HasShape(t, ColsOf(a), RowsOf(a))
    ensures forall r, c :: 0 <= r < ColsOf(a) && 0 <= c < RowsOf(a) ==> t[r][c] == a[c][r]
  {
    seq(ColsOf(a), r requires 0 <= r < ColsOf(a) =>
      seq(RowsOf(a), c requires 0 <= c < RowsOf(a) => a[c][r]))
  }

  /** Two grids of one shape that agree cell by cell are equal. */
  lemma SameCells(a: Grid, b: Grid, rows: nat, cols: nat)
    requires HasShape(a, rows, cols) && HasShape(b, rows, cols)
    requires forall i, j :: 0 <= i < rows && 0 <= j < cols ==> a[i][j] == b[i][j]
    ensures a == b
  {
    forall i | 0 <= i < rows
      ensures a[i] == b[i]
    {
      assert forall j :: 0 <= j < cols ==> a[i][j] == b[i][j];
    }
  }
}

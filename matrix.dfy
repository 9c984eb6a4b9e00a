/**
 * The dense Matrix class: a mutable list of rows with element access,
 * row and column extraction, scalar and matrix multiplication, addition
 * and transpose.  Every arithmetic operation allocates a zero-filled result
 * and fills it in place, cell by cell, with nested loops.
 */
module LinearAlgebra {
  import opened MatrixSpec
  import opened MatrixLaws

  datatype Error = DimensionMismatch | NotImplemented

  datatype Result<T> = Success(value: T) | Failure(error: Error)

  /** The right operand of `*`: a number or another matrix. */
  datatype Operand = Scalar(n: int) | Mat(m: Matrix)

  class Matrix {
    /** The rows; they need not all have the same length. */
    var cells: Grid

    /**
     * Copies non-empty `data`; otherwise builds `rows` x `cols` copies of
     * `fill` when both counts are non-zero.
     */
    constructor (data: Grid, rows: int, cols: int, fill: int)
      requires InitialCells(data, rows, cols, fill).Some?
      ensures cells == InitialCells(data, rows, cols, fill).value
      ensures |data| > 0 ==> cells == data
      ensures |data| == 0 && rows > 0 && cols > 0 ==>
        Rectangular(cells) && Rows() == rows && Cols() == cols &&
        forall r, c :: 0 <= r < rows && 0 <= c < cols ==> Get(r, c) == fill
    {
      cells := InitialCells(data, rows, cols, fill).value;
    }

    /** An independent copy of this matrix. */
    method Clone() returns (m: Matrix)
      requires Rows() != 0
      ensures fresh(m) && m.cells == cells
    {
      m := new Matrix(cells, 0, 0, 0);
    }

    function Rows(): (n: nat)
      reads this
      ensures n == |cells|
    {
      RowsOf(cells)
    }

    function Cols(): (n: nat)
      reads this
      ensures |cells| == 0 ==> n == 0
      ensures |cells| > 0 ==> n == |cells[0]|
      ensures Rectangular(cells) ==> forall r :: 0 <= r < |cells| ==> |cells[r]| == n
    {
      ColsOf(cells)
    }

    function Get(r: nat, c: nat): (v: int)
      reads this
      requires r < |cells| && c < |cells[r]|
      ensures v == cells[r][c]
    {
      cells[r][c]
    }

    /** Overwrites one cell; every other cell and the shape stay as they were. */
    method Set(r: nat, c: nat, v: int)
      requires r < |cells| && c < |cells[r]|
      modifies this
      ensures cells == old(cells)[r := old(cells)[r][c := v]]
      ensures Get(r, c) == v
      ensures |cells| == old(|cells|) && forall i :: 0 <= i < |cells| ==> |cells[i]| == old(|cells[i]|)
      ensures forall i, j :: 0 <= i < |cells| && 0 <= j < |cells[i]| && (i != r || j != c) ==>
        cells[i][j] == old(cells[i][j])
    {
      cells := cells[r := cells[r][c := v]];
    }

    /** A fresh 1-row matrix holding a copy of row `index`. */
    method Row(index: nat) returns (m: Matrix)
      requires index < Rows()
      ensures fresh(m) && m.cells == [cells[index]]
      ensures m.Rows() == 1 && m.Cols() == |cells[index]|
    {
      m := new Matrix([cells[index]], 0, 0, 0);
    }

    /** A fresh 1-column matrix holding a copy of column `index`. */
    method Col(index: nat) returns (m: Matrix)
      requires Rows() != 0
      requires forall r :: 0 <= r < |cells| ==> index < |cells[r]|
      ensures fresh(m) && m.cells == Column(cells, index)
      ensures m.Rows() == Rows() && m.Cols() == 1
      ensures forall r :: 0 <= r < Rows() ==> m.Get(r, 0) == Get(r, index)
    {
      m := new Matrix(Column(cells, index), 0, 0, 0);
    }

    /**
     * `this * operand`: a number delegates to RMul; a matrix needs
     * `Cols() == m.Rows()` and gives the matrix product.
     */
    method Mul(operand: Operand) returns (res: Result<Matrix>)
      requires operand.Scalar? ==> Rectangular(cells) && Rows() != 0 && Cols() != 0
      requires operand.Mat? && Cols() == operand.m.Rows() ==>
        Rectangular(cells) && Rectangular(operand.m.cells) && Rows() != 0 && operand.m.Cols() != 0
      ensures operand.Scalar? ==> res.Success? && fresh(res.value) && res.value.cells == Scaled(cells, operand.n)
      ensures operand.Mat? && Cols() != operand.m.Rows() ==> res == Failure(DimensionMismatch)
      ensures operand.Mat? && Cols() == operand.m.Rows() ==>
        res.Success? && fresh(res.value) && res.value.cells == Product(cells, operand.m.cells)
    {
      match operand
      case Scalar(n) =>
        var p := RMul(n);
        return Success(p);
      case Mat(m) =>
        if Cols() != m.Rows() {
          return Failure(DimensionMismatch);
        }
        var p := Times(m);
        return Success(p);
    }

    /**
     * The matrix case of `*`: a zero-filled `Rows() x m.Cols()` result whose
     * cell (r, c) accumulates this[r, k] * m[k, c] for k from 0 upwards.
     */
    method Times(m: Matrix) returns (p: Matrix)
      requires Rectangular(cells) && Rectangular(m.cells) && Cols() == m.Rows()
      requires Rows() != 0 && m.Cols() != 0
      ensures fresh(p) && p.cells == Product(cells, m.cells)
    {
      var rows, cols, inner := Rows(), m.Cols(), Cols();
      p := new Matrix([], rows, cols, 0);
      ghost var want := Product(cells, m.cells);
      ghost var zero := seq(cols, _ => 0);
      for r := 0 to rows
        invariant |p.cells| == rows
        invariant forall i :: 0 <= i < r ==> p.cells[i] == want[i]
        invariant forall i :: r <= i < rows ==> p.cells[i] == zero
      {
        ghost var start := p.cells;
        for c := 0 to cols
          invariant |p.cells| == rows && |p.cells[r]| == cols
          invariant forall i :: 0 <= i < rows && i != r ==> p.cells[i] == start[i]
          invariant forall j :: 0 <= j < c ==> p.cells[r][j] == want[r][j]
          invariant forall j :: c <= j < cols ==> p.cells[r][j] == 0
        {
          for k := 0 to inner
            invariant |p.cells| == rows && |p.cells[r]| == cols
            invariant forall i :: 0 <= i < rows && i != r ==> p.cells[i] == start[i]
            invariant forall j :: 0 <= j < c ==> p.cells[r][j] == want[r][j]
            invariant forall j :: c < j < cols ==> p.cells[r][j] == 0
            invariant p.cells[r][c] == Dot(cells, m.cells, r, c, k)
          {
            p.Set(r, c, p.Get(r, c) + Get(r, k) * m.Get(k, c));
          }
        }
        assert p.cells[r] == want[r];
      }
      assert p.cells == want;
    }

    /** `n * this`: every cell multiplied by the number `n`. */
    method RMul(n: int) returns (p: Matrix)
      requires Rectangular(cells) && Rows() != 0 && Cols() != 0
      ensures fresh(p) && p.cells == Scaled(cells, n)
    {
      var rows, cols := Rows(), Cols();
      p := new Matrix([], rows, cols, 0);
      for r := 0 to rows
        invariant HasShape(p.cells, rows, cols)
        invariant forall i, j :: 0 <= i < r && 0 <= j < cols ==> p.cells[i][j] == cells[i][j] * n
      {
        for c := 0 to cols
          invariant HasShape(p.cells, rows, cols)
          invariant forall i, j :: 0 <= i < r && 0 <= j < cols ==> p.cells[i][j] == cells[i][j] * n
          invariant forall j :: 0 <= j < c ==> p.cells[r][j] == cells[r][j] * n
        {
          p.Set(r, c, Get(r, c) * n);
        }
      }
      SameCells(p.cells, Scaled(cells, n), rows, cols);
    }

    /** `this + m`: the elementwise sum of two matrices of one shape. */
    method Add(m: Matrix) returns (res: Result<Matrix>)
      requires Rows() == m.Rows() && Cols() == m.Cols() ==>
        Rectangular(cells) && Rectangular(m.cells) && Rows() != 0 && Cols() != 0
      ensures Rows() != m.Rows() || Cols() != m.Cols() ==> res == Failure(DimensionMismatch)
      ensures Rows() == m.Rows() && Cols() == m.Cols() ==>
        res.Success? && fresh(res.value) && res.value.cells == Sum(cells, m.cells)
    {
      if Rows() != m.Rows() || Cols() != m.Cols() {
        return Failure(DimensionMismatch);
      }
      var rows, cols := Rows(), Cols();
      var s := new Matrix([], rows, m.Cols(), 0);
      for r := 0 to rows
        invariant HasShape(s.cells, rows, cols)
        invariant forall i, j :: 0 <= i < r && 0 <= j < cols ==> s.cells[i][j] == cells[i][j] + m.cells[i][j]
      {
        for c := 0 to cols
          invariant HasShape(s.cells, rows, cols)
          invariant forall i, j :: 0 <= i < r && 0 <= j < cols ==> s.cells[i][j] == cells[i][j] + m.cells[i][j]
          invariant forall j :: 0 <= j < c ==> s.cells[r][j] == cells[r][j] + m.cells[r][j]
        {
          s.Set(r, c, Get(r, c) + m.Get(r, c));
        }
      }
      SameCells(s.cells, Sum(cells, m.cells), rows, cols);
      return Success(s);
    }

    /** `~this`: inversion is not implemented and always fails. */
    function Invert(): (res: Result<Matrix>)
      ensures res.Failure? && res.error == NotImplemented
    {
      Failure(NotImplemented)
    }

    /** A fresh `Cols() x Rows()` matrix whose cell (r, c) is cell (c, r) of this one. */
    method Transpose() returns (t: Matrix)
      requires Rectangular(cells) && Rows() != 0 && Cols() != 0
      ensures fresh(t) && t.cells == Transposed(cells)
    {
      var rows, cols := Rows(), Cols();
      t := new Matrix([], cols, rows, 0);
      for r := 0 to cols
        invariant HasShape(t.cells, cols, rows)
        invariant forall i, j :: 0 <= i < r && 0 <= j < rows ==> t.cells[i][j] == cells[j][i]
      {
        for c := 0 to rows
          invariant HasShape(t.cells, cols, rows)
          invariant forall i, j :: 0 <= i < r && 0 <= j < rows ==> t.cells[i][j] == cells[j][i]
          invariant forall j :: 0 <= j < c ==> t.cells[r][j] == cells[j][r]
        {
          t.Set(r, c, Get(c, r));
        }
      }
      SameCells(t.cells, Transposed(cells), cols, rows);
    }
  }

  /**
   * A clone is independent of its original: setting a cell of the clone
   * changes exactly that cell of the clone and nothing of the original.
   */
  method CloneThenSet(a: Matrix, r: nat, c: nat, v: int) returns (copy: Matrix)
    requires a.Rows() != 0 && r < a.Rows() && c < |a.cells[r]|
    ensures fresh(copy)
    ensures a.cells == old(a.cells)
    ensures copy.cells == a.cells[r := a.cells[r][c := v]]
  {
    copy := a.Clone();
    copy.Set(r, c, v);
  }

  /** The demonstration product: a 4 x 3 matrix times a 3 x 3 permutation matrix. */
  method Demo() returns (p: Matrix)
    ensures fresh(p)
    ensures p.cells == [[2, 1, 3], [3, 2, 4], [4, 3, 5], [5, 3, 7]]
  {
    var a := new Matrix([[1, 2, 3], [2, 3, 4], [3, 4, 5], [3, 5, 7]], 0, 0, 0);
    var b := new Matrix([[0, 1, 0], [1, 0, 0], [0, 0, 1]], 0, 0, 0);
    var res := a.Mul(Mat(b));
    p := res.value;
    DemoProduct();
  }
}

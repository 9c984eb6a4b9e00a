# Dense integer matrices

A model of the `Matrix` class in `linear-algebra/matrix.py`. That class is a
dense matrix stored as a list of rows. It can be built from explicit row data
(deep-copied) or from a shape and a fill value. It can be cloned and read or
written cell by cell. It can extract a row or a column as a new matrix. It
supports scalar and matrix multiplication, elementwise addition and transpose.
Inversion always fails.

The project has three modules:

- `MatrixSpec` (`matrix_spec.dfy`) holds the reference definitions on values.
  A `Grid` is a `seq<seq<int>>`. `RowsOf` and `ColsOf` give its dimensions.
  `InitialCells` gives the storage the constructor sets up. `Filled` is the
  shape-and-fill grid, `Column` a one-column grid, `Dot` the accumulated sum
  of products, and `Product`, `Scaled`, `Sum` and `Transposed` the four
  arithmetic results.
- `LinearAlgebra` (`matrix.dfy`) holds the class `Matrix`. Its one mutable
  field `cells` is the list of rows. Each arithmetic method allocates a
  zero-filled result with the constructor, as the source does, and fills it
  in place through `Set` with nested `for` loops. Each method is proved
  against the matching reference function. The triple accumulation loop of
  `__mul__` is in `Times`; `Mul` does the operand dispatch and the
  inner-dimension check, then calls `Times`. The operand of `*` is the
  datatype `Operand = Scalar(n) | Mat(m)`. A failed shape assertion becomes
  `Failure(DimensionMismatch)`.
- `MatrixLaws` (`matrix_laws.dfy`) proves laws about the reference
  definitions:
  - transpose is an involution;
  - addition is commutative and associative, and the zero-filled grid is its
    unit;
  - scaling composes and distributes over addition;
  - the product distributes over addition in each operand, commutes with
    scaling of either operand, reverses under transpose and is associative;
  - a column is a transposed row, and a row is a transposed column;
  - the two-by-two worked example and the demonstration product compute
    what they should.

Cells are mathematical integers. Methods with no `modifies` clause leave
their receiver and their operands unchanged; Dafny's framing enforces this.
Every result is a `fresh` object.

## Model

| member | source | states |
|---|---|---|
| `MatrixSpec.InitialCells` | linear-algebra/matrix.py:12-26 | Storage is set up exactly when `data` is non-empty or both counts are non-zero; non-empty `data` is kept cell for cell; positive `rows`, `cols` give a rectangular `rows x cols` grid of `fill`; a negative row count gives no rows and a negative column count gives empty rows |
| `MatrixSpec.Filled` | linear-algebra/matrix.py:25-26 | The shape constructor's grid has exactly `rows` rows of `cols` cells, each equal to `fill` |
| `LinearAlgebra.Matrix.constructor` | linear-algebra/matrix.py:12-26 | The new matrix holds a copy of non-empty `data`, or else has `rows` x `cols` cells all equal to `fill` |
| `LinearAlgebra.Matrix.Clone` | linear-algebra/matrix.py:28-30 | A fresh matrix with the same cells as the original |
| `LinearAlgebra.CloneThenSet` | linear-algebra/matrix.py:28-56 | Setting a cell of a clone changes exactly that cell of the clone and leaves the original's cells unchanged |
| `LinearAlgebra.Matrix.Rows` | linear-algebra/matrix.py:32-34 | The number of stored rows |
| `LinearAlgebra.Matrix.Cols` | linear-algebra/matrix.py:36-40 | The length of the first row, or 0 when there are no rows; on rectangular storage every row has that length |
| `LinearAlgebra.Matrix.Get` | linear-algebra/matrix.py:42-48 | Reads cell (r, c), given as a row-then-column pair inside the bounds of that row |
| `LinearAlgebra.Matrix.Set` | linear-algebra/matrix.py:50-56 | Cell (r, c) becomes `v`; every other cell and the length of every row are unchanged |
| `LinearAlgebra.Matrix.Row` | linear-algebra/matrix.py:58-59 | A fresh 1-row matrix whose only row is a copy of row `index` |
| `LinearAlgebra.Matrix.Col` | linear-algebra/matrix.py:61-62 | A fresh `Rows() x 1` matrix whose cell (r, 0) is cell (r, index) of this matrix |
| `MatrixSpec.Column` | linear-algebra/matrix.py:61-62 | The column grid has one one-cell row per row of the input, holding that row's cell `j` |
| `LinearAlgebra.Matrix.Mul` | linear-algebra/matrix.py:64-80 | A number operand gives the scaled matrix. A matrix operand with `Cols() != m.Rows()` fails with DimensionMismatch. Otherwise the result is a fresh matrix equal to the product |
| `LinearAlgebra.Matrix.Times` | linear-algebra/matrix.py:71-78 | The triple loop leaves in each cell (r, c) of a fresh zero-filled `Rows() x m.Cols()` matrix the sum over k in [0, Cols()) of this[r, k] * m[k, c], accumulated from k = 0 upwards |
| `MatrixSpec.Product` | linear-algebra/matrix.py:71-78 | The product of an m x n and an n x p grid has shape m x p, and cell (r, c) is the sum over k < n of a[r][k] * b[k][c] |
| `LinearAlgebra.Matrix.RMul` | linear-algebra/matrix.py:82-92 | A fresh matrix of the same shape whose every cell is the original cell times `n`; the original is unchanged |
| `MatrixSpec.Scaled` | linear-algebra/matrix.py:87-92 | The scaled grid has the input's shape, and cell (r, c) is a[r][c] * n |
| `LinearAlgebra.Matrix.Add` | linear-algebra/matrix.py:94-106 | Operands of different shape fail with DimensionMismatch; otherwise the result is a fresh matrix equal to the elementwise sum |
| `MatrixSpec.Sum` | linear-algebra/matrix.py:99-106 | The sum has the common shape, and cell (r, c) is a[r][c] + b[r][c] |
| `LinearAlgebra.Matrix.Invert` | linear-algebra/matrix.py:108-109 | Inversion always fails with NotImplemented |
| `LinearAlgebra.Matrix.Transpose` | linear-algebra/matrix.py:111-119 | A fresh matrix equal to the transpose; the original is unchanged |
| `MatrixSpec.Transposed` | linear-algebra/matrix.py:115-119 | The transpose has shape `cols x rows`, and cell (r, c) is cell (c, r) of the input |
| `MatrixLaws.TransposeTwice` | linear-algebra/matrix.py:111-119 | Transposing twice gives back the original grid cell for cell |
| `MatrixLaws.TransposeSum` | linear-algebra/matrix.py:94-119 | The transpose of a sum is the sum of the transposes |
| `MatrixLaws.TransposeProduct` | linear-algebra/matrix.py:64-119 | The transpose of a product is the product of the transposes, in reverse order |
| `MatrixLaws.SumCommutes` | linear-algebra/matrix.py:94-106 | Addition is commutative in its operands |
| `MatrixLaws.SumAssociates` | linear-algebra/matrix.py:94-106 | Addition is associative |
| `MatrixLaws.SumZero` | linear-algebra/matrix.py:94-106 | Adding the zero-filled grid of the same shape gives back the original grid |
| `MatrixLaws.ScaledTwice` | linear-algebra/matrix.py:82-92 | Scaling by x and then by y equals scaling by x * y |
| `MatrixLaws.ScaledSum` | linear-algebra/matrix.py:82-106 | Scaling distributes over addition |
| `MatrixLaws.ProductOfSum` | linear-algebra/matrix.py:64-106 | a * (b + c) equals a * b + a * c |
| `MatrixLaws.ProductOfScaled` | linear-algebra/matrix.py:64-92 | Scaling the left operand of a product scales the product |
| `MatrixLaws.ProductOfSumLeft` | linear-algebra/matrix.py:64-106 | (a + b) * c equals a * c + b * c |
| `MatrixLaws.ProductOfScaledRight` | linear-algebra/matrix.py:64-92 | Scaling the right operand of a product scales the product |
| `MatrixLaws.ProductAssociates` | linear-algebra/matrix.py:64-78 | (a * b) * c equals a * (b * c) |
| `MatrixLaws.ColumnIsTransposedRow` | linear-algebra/matrix.py:58-62 | Column j equals the transpose of row j of the transpose |
| `MatrixLaws.RowIsTransposedColumn` | linear-algebra/matrix.py:58-62 | Row i, transposed, equals column i of the transpose |
| `MatrixLaws.TwoByTwo` | linear-algebra/matrix.py:25-119 | For [[1,2],[3,4]] and [[5,6],[7,8]]: product [[19,22],[43,50]], sum [[6,8],[10,12]], transpose [[1,3],[2,4]], doubled [[2,4],[6,8]]; a 2 x 3 grid filled with 1 is all ones |
| `MatrixLaws.DemoProduct` | linear-algebra/matrix.py:124-134 | The demonstration's 4 x 3 matrix times its 3 x 3 permutation matrix swaps the first two columns |
| `LinearAlgebra.Demo` | linear-algebra/matrix.py:124-134 | The demonstration, run through the class, computes that product |

## Left out

- `__str__` (linear-algebra/matrix.py:121-122): diagnostic text formatting with no contract to prove.
- Printing in the demonstration: `LinearAlgebra.Demo` computes the product and does not print it.
- Floating point: cells are exact integers, so rounding and the order of accumulation have no effect.
- Negative indices: `Get`, `Set`, `Row` and `Col` take natural-number indices; Python's counting from the end is not modelled.
- LinearAlgebra.Matrix.Get: requires `r` and `c` inside the bounds of row `r`, where the source raises `IndexError` for an out-of-range non-negative index.
- LinearAlgebra.Matrix.Set: requires `r` and `c` inside the bounds of row `r`, where the source raises `IndexError` for an out-of-range non-negative index.
- LinearAlgebra.Matrix.Row: requires `index < Rows()`, where the source raises `IndexError` for an out-of-range non-negative index.
- Run-time type dispatch: the operand of `*` is the datatype `Operand`, and scalars are unbounded integers. For a matrix operand, and for the `isinstance` assertions of `__add__`, `__getitem__` and `__setitem__`, the type failures cannot arise.
- LinearAlgebra.Matrix.Mul: accepts every integer scalar. The source is Python 2, where an integer beyond the platform's `sys.maxint` (or a `5L` literal) is a `long`, fails `isinstance(m, (int, float))`, and raises the "could not multiply" exception. That bound depends on the platform, so it is not modelled.
- LinearAlgebra.Matrix.RMul: accepts every integer `n`. The source's `isinstance(n, (int, float))` assertion rejects a Python 2 `long`, whose bound depends on the platform, so it is not modelled.
- Failed assertions: the shape assertions of `__mul__` and `__add__` become the result `Failure(DimensionMismatch)`, not an `AssertionError`.
- Aliasing inside the storage: `cells` is a sequence value. A deep copy is modelled as a fresh object holding an equal value. Python's sharing of inner row lists cannot be expressed.
- LinearAlgebra.Matrix.constructor: requires that some branch sets up storage. With empty `data` and a zero count, the source builds an object with no `_data`, and any later use of it raises.
- LinearAlgebra.Matrix.Clone: requires at least one row, because cloning an empty matrix goes through that uninitialised constructor path.
- LinearAlgebra.Matrix.Col: requires at least one row for the same reason. It also requires every row to reach column `index`, where the source raises `IndexError`.
- LinearAlgebra.Matrix.Mul: requires non-zero result dimensions. With a zero dimension the source returns a matrix without storage. It also requires rectangular operands when the product is computed; on jagged rows the source raises `IndexError` or ignores the extra cells.
- LinearAlgebra.Matrix.Times: requires non-zero result dimensions and rectangular operands, for the same reasons as `Mul`.
- LinearAlgebra.Matrix.RMul: requires non-zero dimensions and rectangular storage, for the same reasons as `Mul`.
- LinearAlgebra.Matrix.Add: requires non-zero dimensions and rectangular operands, for the same reasons as `Mul`.
- LinearAlgebra.Matrix.Transpose: requires non-zero dimensions and rectangular storage, for the same reasons as `Mul`.

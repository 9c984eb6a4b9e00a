/**
 * Algebraic laws of the reference definitions in MatrixSpec: transpose is
 * an involution, addition is commutative and associative with the
 * zero-filled grid as its unit, scaling distributes over addition, the
 * product distributes over addition and commutes with scaling on either
 * side, and rows and columns are each other's transposes.
 */
module MatrixLaws {
  import opened MatrixSpec

  /** Transposing twice gives back the original grid. */
  lemma TransposeTwice(a: Grid)
    requires Rectangular(a) && (RowsOf(a) == 0 || ColsOf(a) > 0)
    ensures Transposed(Transposed(a)) == a
  {
    var t := Transposed(a);
    if RowsOf(a) > 0 {
      ShapeDeterminesDimensions(t, ColsOf(a), RowsOf(a));
      SameCells(Transposed(t), a, RowsOf(a), ColsOf(a));
    }
  }

  /** Addition is commutative. */
  lemma SumCommutes(a: Grid, b: Grid)
    requires Rectangular(a) && HasShape(b, RowsOf(a), ColsOf(a))
    ensures Rectangular(b) && Sum(a, b) == Sum(b, a)
  {
    if RowsOf(a) > 0 {
      ShapeDeterminesDimensions(b, RowsOf(a), ColsOf(a));
    }
    SameCells(Sum(a, b), Sum(b, a), RowsOf(a), ColsOf(a));
  }

  /** Addition is associative. */
  lemma SumAssociates(a: Grid, b: Grid, c: Grid)
    requires Rectangular(a) && HasShape(b, RowsOf(a), ColsOf(a)) && HasShape(c, RowsOf(a), ColsOf(a))
    ensures Rectangular(Sum(a, b)) && Rectangular(b)
    ensures Sum(Sum(a, b), c) == Sum(a, Sum(b, c))
  {
    if RowsOf(a) > 0 {
      ShapeDeterminesDimensions(b, RowsOf(a), ColsOf(a));
      ShapeDeterminesDimensions(Sum(a, b), RowsOf(a), ColsOf(a));
    }
    SameCells(Sum(Sum(a, b), c), Sum(a, Sum(b, c)), RowsOf(a), ColsOf(a));
  }

  /** The zero-filled grid the operations start from is the unit of addition. */
  lemma SumZero(a: Grid)
    requires Rectangular(a)
    ensures Sum(a, Filled(RowsOf(a), ColsOf(a), 0)) == a
  {
    SameCells(Sum(a, Filled(RowsOf(a), ColsOf(a), 0)), a, RowsOf(a), ColsOf(a));
  }

  /** Scaling by `x` and then by `y` is scaling by `x * y`. */
  lemma ScaledTwice(a: Grid, x: int, y: int)
    requires Rectangular(a)
    ensures Rectangular(Scaled(a, x)) && Scaled(Scaled(a, x), y) == Scaled(a, x * y)
  {
    var s := Scaled(a, x);
    if RowsOf(a) > 0 {
      ShapeDeterminesDimensions(s, RowsOf(a), ColsOf(a));
    }
    forall r, c | 0 <= r < RowsOf(a) && 0 <= c < ColsOf(a)
      ensures Scaled(s, y)[r][c] == Scaled(a, x * y)[r][c]
    {
      assert s[r][c] * y == a[r][c] * (x * y);
    }
    SameCells(Scaled(s, y), Scaled(a, x * y), RowsOf(a), ColsOf(a));
  }

  /** Scaling distributes over addition. */
  lemma ScaledSum(a: Grid, b: Grid, n: int)
    requires Rectangular(a) && HasShape(b, RowsOf(a), ColsOf(a))
    ensures Rectangular(b) && Rectangular(Sum(a, b)) && Rectangular(Scaled(a, n))
    ensures Scaled(Sum(a, b), n) == Sum(Scaled(a, n), Scaled(b, n))
  {
    if RowsOf(a) > 0 {
      ShapeDeterminesDimensions(b, RowsOf(a), ColsOf(a));
      ShapeDeterminesDimensions(Sum(a, b), RowsOf(a), ColsOf(a));
      ShapeDeterminesDimensions(Scaled(a, n), RowsOf(a), ColsOf(a));
    }
    forall r, c | 0 <= r < RowsOf(a) && 0 <= c < ColsOf(a)
      ensures Scaled(Sum(a, b), n)[r][c] == Sum(Scaled(a, n), Scaled(b, n))[r][c]
    {
      assert (a[r][c] + b[r][c]) * n == a[r][c] * n + b[r][c] * n;
    }
    SameCells(Scaled(Sum(a, b), n), Sum(Scaled(a, n), Scaled(b, n)), RowsOf(a), ColsOf(a));
  }

  /** A prefix sum of products is linear in its right factor. */
  lemma {:induction false} DotOfSum(a: Grid, b: Grid, c: Grid, r: nat, j: nat, n: nat)
    requires Rectangular(a) && Rectangular(b) && HasShape(c, RowsOf(b), ColsOf(b))
    requires r < RowsOf(a) && n <= ColsOf(a) && n <= RowsOf(b) && j < ColsOf(b)
    ensures Dot(a, Sum(b, c), r, j, n) == Dot(a, b, r, j, n) + Dot(a, c, r, j, n)
  {
    if n > 0 {
      DotOfSum(a, b, c, r, j, n - 1);
      var x, y, z := a[r][n - 1], b[n - 1][j], c[n - 1][j];
      assert Sum(b, c)[n - 1][j] == y + z;
      assert x * (y + z) == x * y + x * z;
    }
  }

  /** The product distributes over addition in its right operand. */
  lemma ProductOfSum(a: Grid, b: Grid, c: Grid)
    requires Rectangular(a) && Rectangular(b) && ColsOf(a) == RowsOf(b) && HasShape(c, RowsOf(b), ColsOf(b))
    requires RowsOf(a) > 0 && RowsOf(b) > 0
    ensures Rectangular(c) && Rectangular(Sum(b, c)) && Rectangular(Product(a, b))
    ensures Product(a, Sum(b, c)) == Sum(Product(a, b), Product(a, c))
  {
    ShapeDeterminesDimensions(c, RowsOf(b), ColsOf(b));
    ShapeDeterminesDimensions(Sum(b, c), RowsOf(b), ColsOf(b));
    ShapeDeterminesDimensions(Product(a, b), RowsOf(a), ColsOf(b));
    forall r, j | 0 <= r < RowsOf(a) && 0 <= j < ColsOf(b)
      ensures Product(a, Sum(b, c))[r][j] == Sum(Product(a, b), Product(a, c))[r][j]
    {
      DotOfSum(a, b, c, r, j, ColsOf(a));
    }
    SameCells(Product(a, Sum(b, c)), Sum(Product(a, b), Product(a, c)), RowsOf(a), ColsOf(b));
  }

  /** A prefix sum of products scales with its left factor. */
  lemma {:induction false} DotOfScaled(a: Grid, b: Grid, k: int, r: nat, j: nat, n: nat)
    requires Rectangular(a) && Rectangular(b) && RowsOf(a) > 0 && Rectangular(Scaled(a, k))
    requires r < RowsOf(a) && n <= ColsOf(a) && n <= RowsOf(b) && j < ColsOf(b)
    ensures Dot(Scaled(a, k), b, r, j, n) == Dot(a, b, r, j, n) * k
  {
    if n > 0 {
      DotOfScaled(a, b, k, r, j, n - 1);
      var d, x, y := Dot(a, b, r, j, n - 1), a[r][n - 1], b[n - 1][j];
      assert Scaled(a, k)[r][n - 1] == x * k;
      assert d * k + (x * k) * y == (d + x * y) * k;
    }
  }

  /** Scaling the left operand scales the product. */
  lemma ProductOfScaled(a: Grid, b: Grid, k: int)
    requires Rectangular(a) && Rectangular(b) && ColsOf(a) == RowsOf(b) && RowsOf(a) > 0
    ensures Rectangular(Scaled(a, k)) && Rectangular(Product(a, b))
    ensures Product(Scaled(a, k), b) == Scaled(Product(a, b), k)
  {
    ShapeDeterminesDimensions(Scaled(a, k), RowsOf(a), ColsOf(a));
    ShapeDeterminesDimensions(Product(a, b), RowsOf(a), ColsOf(b));
    forall r, j | 0 <= r < RowsOf(a) && 0 <= j < ColsOf(b)
      ensures Product(Scaled(a, k), b)[r][j] == Scaled(Product(a, b), k)[r][j]
    {
      DotOfScaled(a, b, k, r, j, ColsOf(a));
    }
    SameCells(Product(Scaled(a, k), b), Scaled(Product(a, b), k), RowsOf(a), ColsOf(b));
  }

  /** A prefix sum of products is linear in its left factor. */
  lemma {:induction false} DotOfSumLeft(a: Grid, b: Grid, c: Grid, r: nat, j: nat, n: nat)
    requires Rectangular(a) && HasShape(b, RowsOf(a), ColsOf(a)) && Rectangular(c)
    requires r < RowsOf(a) && n <= ColsOf(a) && n <= RowsOf(c) && j < ColsOf(c)
    ensures Dot(Sum(a, b), c, r, j, n) == Dot(a, c, r, j, n) + Dot(b, c, r, j, n)
  {
    if n > 0 {
      DotOfSumLeft(a, b, c, r, j, n - 1);
      var x, y, z := a[r][n - 1], b[r][n - 1], c[n - 1][j];
      assert Sum(a, b)[r][n - 1] == x + y;
      assert (x + y) * z == x * z + y * z;
    }
  }

  /** The product distributes over addition in its left operand. */
  lemma ProductOfSumLeft(a: Grid, b: Grid, c: Grid)
    requires Rectangular(a) && HasShape(b, RowsOf(a), ColsOf(a)) && Rectangular(c) && ColsOf(a) == RowsOf(c)
    requires RowsOf(a) > 0
    ensures Rectangular(b) && ColsOf(b) == RowsOf(c)
    ensures Rectangular(Sum(a, b)) && ColsOf(Sum(a, b)) == RowsOf(c) && Rectangular(Product(a, c))
    ensures Product(Sum(a, b), c) == Sum(Product(a, c), Product(b, c))
  {
    ShapeDeterminesDimensions(b, RowsOf(a), ColsOf(a));
    ShapeDeterminesDimensions(Sum(a, b), RowsOf(a), ColsOf(a));
    ShapeDeterminesDimensions(Product(a, c), RowsOf(a), ColsOf(c));
    forall r, j | 0 <= r < RowsOf(a) && 0 <= j < ColsOf(c)
      ensures Product(Sum(a, b), c)[r][j] == Sum(Product(a, c), Product(b, c))[r][j]
    {
      DotOfSumLeft(a, b, c, r, j, ColsOf(a));
    }
    SameCells(Product(Sum(a, b), c), Sum(Product(a, c), Product(b, c)), RowsOf(a), ColsOf(c));
  }

  /** A prefix sum of products scales with its right factor. */
  lemma {:induction false} DotOfScaledRight(a: Grid, b: Grid, k: int, r: nat, j: nat, n: nat)
    requires Rectangular(a) && Rectangular(b)
    requires r < RowsOf(a) && n <= ColsOf(a) && n <= RowsOf(b) && j < ColsOf(b)
    ensures Dot(a, Scaled(b, k), r, j, n) == Dot(a, b, r, j, n) * k
  {
    if n > 0 {
      DotOfScaledRight(a, b, k, r, j, n - 1);
      var d, x, y := Dot(a, b, r, j, n - 1), a[r][n - 1], b[n - 1][j];
      assert Scaled(b, k)[n - 1][j] == y * k;
      assert d * k + x * (y * k) == (d + x * y) * k;
    }
  }

  /** Scaling the right operand scales the product. */
  lemma ProductOfScaledRight(a: Grid, b: Grid, k: int)
    requires Rectangular(a) && Rectangular(b) && ColsOf(a) == RowsOf(b) && RowsOf(a) > 0
    ensures Rectangular(Scaled(b, k)) && ColsOf(a) == RowsOf(Scaled(b, k)) && Rectangular(Product(a, b))
    ensures Product(a, Scaled(b, k)) == Scaled(Product(a, b), k)
  {
    if RowsOf(b) > 0 {
      ShapeDeterminesDimensions(Scaled(b, k), RowsOf(b), ColsOf(b));
    }
    ShapeDeterminesDimensions(Product(a, b), RowsOf(a), ColsOf(b));
    forall r, j | 0 <= r < RowsOf(a) && 0 <= j < ColsOf(b)
      ensures Product(a, Scaled(b, k))[r][j] == Scaled(Product(a, b), k)[r][j]
    {
      DotOfScaledRight(a, b, k, r, j, ColsOf(a));
    }
    SameCells(Product(a, Scaled(b, k)), Scaled(Product(a, b), k), RowsOf(a), ColsOf(b));
  }

  /** The transpose of a sum is the sum of the transposes. */
  lemma TransposeSum(a: Grid, b: Grid)
    requires Rectangular(a) && HasShape(b, RowsOf(a), ColsOf(a)) && RowsOf(a) > 0 && ColsOf(a) > 0
    ensures Rectangular(b) && Rectangular(Sum(a, b)) && Rectangular(Transposed(a))
    ensures HasShape(Transposed(b), RowsOf(Transposed(a)), ColsOf(Transposed(a)))
    ensures Transposed(Sum(a, b)) == Sum(Transposed(a), Transposed(b))
  {
    ShapeDeterminesDimensions(b, RowsOf(a), ColsOf(a));
    ShapeDeterminesDimensions(Sum(a, b), RowsOf(a), ColsOf(a));
    ShapeDeterminesDimensions(Transposed(a), ColsOf(a), RowsOf(a));
    SameCells(Transposed(Sum(a, b)), Sum(Transposed(a), Transposed(b)), ColsOf(a), RowsOf(a));
  }

  /** Swapping and transposing the operands of a prefix sum leaves it unchanged. */
  lemma {:induction false} DotOfTransposed(a: Grid, b: Grid, r: nat, c: nat, n: nat)
    requires Rectangular(a) && Rectangular(b) && ColsOf(a) == RowsOf(b)
    requires RowsOf(a) > 0 && ColsOf(a) > 0 && ColsOf(b) > 0
    requires r < RowsOf(a) && c < ColsOf(b) && n <= ColsOf(a)
    ensures Rectangular(Transposed(a)) && Rectangular(Transposed(b))
    ensures RowsOf(Transposed(b)) == ColsOf(b) && ColsOf(Transposed(b)) == RowsOf(b)
    ensures RowsOf(Transposed(a)) == ColsOf(a) && ColsOf(Transposed(a)) == RowsOf(a)
    ensures Dot(Transposed(b), Transposed(a), c, r, n) == Dot(a, b, r, c, n)
  {
    ShapeDeterminesDimensions(Transposed(a), ColsOf(a), RowsOf(a));
    ShapeDeterminesDimensions(Transposed(b), ColsOf(b), RowsOf(b));
    if n > 0 {
      DotOfTransposed(a, b, r, c, n - 1);
      var x, y := a[r][n - 1], b[n - 1][c];
      assert Transposed(b)[c][n - 1] == y && Transposed(a)[n - 1][r] == x;
      assert y * x == x * y;
    }
  }

  /** The transpose of a product is the product of the transposes, in reverse order. */
  lemma TransposeProduct(a: Grid, b: Grid)
    requires Rectangular(a) && Rectangular(b) && ColsOf(a) == RowsOf(b)
    requires RowsOf(a) > 0 && ColsOf(a) > 0 && ColsOf(b) > 0
    ensures Rectangular(Product(a, b)) && Rectangular(Transposed(a)) && Rectangular(Transposed(b))
    ensures ColsOf(Transposed(b)) == RowsOf(Transposed(a))
    ensures Transposed(Product(a, b)) == Product(Transposed(b), Transposed(a))
  {
    ShapeDeterminesDimensions(Product(a, b), RowsOf(a), ColsOf(b));
    DotOfTransposed(a, b, 0, 0, 0);
    forall i, j | 0 <= i < ColsOf(b) && 0 <= j < RowsOf(a)
      ensures Transposed(Product(a, b))[i][j] == Product(Transposed(b), Transposed(a))[i][j]
    {
      DotOfTransposed(a, b, j, i, ColsOf(a));
    }
    SameCells(Transposed(Product(a, b)), Product(Transposed(b), Transposed(a)), ColsOf(b), RowsOf(a));
  }

  /**
   * The sum over k in [0, n) of a[r][k] times the partial product of row k
   * of `b` with column `col` of `c` over [0, m): the double sum that both
   * bracketings of a triple product reduce to.
   */
  function Nested(a: Grid, b: Grid, c: Grid, r: nat, col: nat, n: nat, m: nat): int
    requires Rectangular(a) && Rectangular(b) && Rectangular(c)
    requires ColsOf(a) == RowsOf(b) && ColsOf(b) == RowsOf(c)
    requires r < RowsOf(a) && col < ColsOf(c) && n <= ColsOf(a) && m <= ColsOf(b)
  {
    if n == 0 then 0 else Nested(a, b, c, r, col, n - 1, m) + a[r][n - 1] * Dot(b, c, n - 1, col, m)
  }

  lemma {:induction false} NestedEmpty(a: Grid, b: Grid, c: Grid, r: nat, col: nat, n: nat)
    requires Rectangular(a) && Rectangular(b) && Rectangular(c)
    requires ColsOf(a) == RowsOf(b) && ColsOf(b) == RowsOf(c)
    requires r < RowsOf(a) && col < ColsOf(c) && n <= ColsOf(a)
    ensures Nested(a, b, c, r, col, n, 0) == 0
  {
    if n > 0 {
      NestedEmpty(a, b, c, r, col, n - 1);
    }
  }

  /** Widening the inner sum by one term adds one term of the outer product. */
  lemma {:induction false} NestedStep(a: Grid, b: Grid, c: Grid, r: nat, col: nat, n: nat, m: nat)
    requires Rectangular(a) && Rectangular(b) && Rectangular(c)
    requires ColsOf(a) == RowsOf(b) && ColsOf(b) == RowsOf(c)
    requires r < RowsOf(a) && col < ColsOf(c) && n <= ColsOf(a) && m < ColsOf(b)
    ensures Nested(a, b, c, r, col, n, m + 1) == Nested(a, b, c, r, col, n, m) + Dot(a, b, r, m, n) * c[m][col]
  {
    if n > 0 {
      NestedStep(a, b, c, r, col, n - 1, m);
      var x, y, z := a[r][n - 1], b[n - 1][m], c[m][col];
      var d, e := Dot(b, c, n - 1, col, m), Dot(a, b, r, m, n - 1);
      assert x * (d + y * z) == x * d + (x * y) * z;
      assert e * z + (x * y) * z == (e + x * y) * z;
    }
  }

  lemma {:induction false} ProductThenDot(a: Grid, b: Grid, c: Grid, r: nat, col: nat, m: nat)
    requires Rectangular(a) && Rectangular(b) && Rectangular(c)
    requires ColsOf(a) == RowsOf(b) && ColsOf(b) == RowsOf(c) && RowsOf(a) > 0
    requires r < RowsOf(a) && col < ColsOf(c) && m <= ColsOf(b)
    ensures Rectangular(Product(a, b)) && ColsOf(Product(a, b)) == ColsOf(b)
    ensures Dot(Product(a, b), c, r, col, m) == Nested(a, b, c, r, col, ColsOf(a), m)
  {
    ShapeDeterminesDimensions(Product(a, b), RowsOf(a), ColsOf(b));
    if m == 0 {
      NestedEmpty(a, b, c, r, col, ColsOf(a));
    } else {
      ProductThenDot(a, b, c, r, col, m - 1);
      NestedStep(a, b, c, r, col, ColsOf(a), m - 1);
    }
  }

  lemma {:induction false} DotThenProduct(a: Grid, b: Grid, c: Grid, r: nat, col: nat, n: nat)
    requires Rectangular(a) && Rectangular(b) && Rectangular(c)
    requires ColsOf(a) == RowsOf(b) && ColsOf(b) == RowsOf(c) && RowsOf(b) > 0
    requires r < RowsOf(a) && col < ColsOf(c) && n <= ColsOf(a)
    ensures Rectangular(Product(b, c)) && RowsOf(Product(b, c)) == ColsOf(a)
    ensures Dot(a, Product(b, c), r, col, n) == Nested(a, b, c, r, col, n, ColsOf(b))
  {
    ShapeDeterminesDimensions(Product(b, c), RowsOf(b), ColsOf(c));
    if n > 0 {
      DotThenProduct(a, b, c, r, col, n - 1);
    }
  }

  /** The matrix product is associative. */
  lemma ProductAssociates(a: Grid, b: Grid, c: Grid)
    requires Rectangular(a) && Rectangular(b) && Rectangular(c)
    requires ColsOf(a) == RowsOf(b) && ColsOf(b) == RowsOf(c) && RowsOf(a) > 0 && RowsOf(b) > 0
    ensures Rectangular(Product(a, b)) && ColsOf(Product(a, b)) == RowsOf(c)
    ensures Rectangular(Product(b, c)) && ColsOf(a) == RowsOf(Product(b, c))
    ensures Product(Product(a, b), c) == Product(a, Product(b, c))
  {
    ShapeDeterminesDimensions(Product(a, b), RowsOf(a), ColsOf(b));
    ShapeDeterminesDimensions(Product(b, c), RowsOf(b), ColsOf(c));
    forall r, col | 0 <= r < RowsOf(a) && 0 <= col < ColsOf(c)
      ensures Product(Product(a, b), c)[r][col] == Product(a, Product(b, c))[r][col]
    {
      ProductThenDot(a, b, c, r, col, ColsOf(b));
      DotThenProduct(a, b, c, r, col, ColsOf(a));
    }
    SameCells(Product(Product(a, b), c), Product(a, Product(b, c)), RowsOf(a), ColsOf(c));
  }

  /** Column `j` is the transpose of row `j` of the transpose. */
  lemma ColumnIsTransposedRow(d: Grid, j: nat)
    requires Rectangular(d) && j < ColsOf(d)
    ensures Rectangular([Transposed(d)[j]]) && Column(d, j) == Transposed([Transposed(d)[j]])
  {
    var row := [Transposed(d)[j]];
    ShapeDeterminesDimensions(row, 1, RowsOf(d));
    assert RowsOf(d) > 0;
    SameCells(Column(d, j), Transposed(row), RowsOf(d), 1);
  }

  /** Row `i`, transposed, is column `i` of the transpose. */
  lemma RowIsTransposedColumn(d: Grid, i: nat)
    requires Rectangular(d) && i < RowsOf(d)
    ensures Rectangular([d[i]]) && Transposed([d[i]]) == Column(Transposed(d), i)
  {
    ShapeDeterminesDimensions([d[i]], 1, ColsOf(d));
    SameCells(Transposed([d[i]]), Column(Transposed(d), i), ColsOf(d), 1);
  }

  /** The worked two-by-two scenario. */
  lemma TwoByTwo()
    ensures Product([[1, 2], [3, 4]], [[5, 6], [7, 8]]) == [[19, 22], [43, 50]]
    ensures Sum([[1, 2], [3, 4]], [[5, 6], [7, 8]]) == [[6, 8], [10, 12]]
    ensures Transposed([[1, 2], [3, 4]]) == [[1, 3], [2, 4]]
    ensures Scaled([[1, 2], [3, 4]], 2) == [[2, 4], [6, 8]]
    ensures Filled(2, 3, 1) == [[1, 1, 1], [1, 1, 1]]
  {
    var a: Grid, b: Grid := [[1, 2], [3, 4]], [[5, 6], [7, 8]];
    assert Rectangular(a) && Rectangular(b);
    var p := Product(a, b);
    assert p[0][0] == 19 && p[0][1] == 22 && p[1][0] == 43 && p[1][1] == 50;
    SameCells(p, [[19, 22], [43, 50]], 2, 2);
    SameCells(Sum(a, b), [[6, 8], [10, 12]], 2, 2);
    SameCells(Transposed(a), [[1, 3], [2, 4]], 2, 2);
    SameCells(Scaled(a, 2), [[2, 4], [6, 8]], 2, 2);
    SameCells(Filled(2, 3, 1), [[1, 1, 1], [1, 1, 1]], 2, 3);
  }

  /** The demonstration: a 4 x 3 matrix times a 3 x 3 permutation matrix swaps its first two columns. */
  lemma DemoProduct()
    ensures Rectangular([[1, 2, 3], [2, 3, 4], [3, 4, 5], [3, 5, 7]]) && Rectangular([[0, 1, 0], [1, 0, 0], [0, 0, 1]])
    ensures Product([[1, 2, 3], [2, 3, 4], [3, 4, 5], [3, 5, 7]], [[0, 1, 0], [1, 0, 0], [0, 0, 1]])
      == [[2, 1, 3], [3, 2, 4], [4, 3, 5], [5, 3, 7]]
  {
    var a: Grid, b: Grid := [[1, 2, 3], [2, 3, 4], [3, 4, 5], [3, 5, 7]], [[0, 1, 0], [1, 0, 0], [0, 0, 1]];
    assert Rectangular(a) && Rectangular(b);
    var p := Product(a, b);
    var q: Grid := [[2, 1, 3], [3, 2, 4], [4, 3, 5], [5, 3, 7]];
    forall r, c | 0 <= r < 4 && 0 <= c < 3
      ensures p[r][c] == q[r][c]
    {
      assert p[r][c] == a[r][0] * b[0][c] + a[r][1] * b[1][c] + a[r][2] * b[2][c];
    }
    SameCells(p, q, 4, 3);
  }
}

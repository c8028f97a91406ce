/** Dense matrices of PyMath/matrix.py.

    A `Matrix` records the `(rows, cols)` size it was built with and a grid
    of row vectors. Rows and columns are produced with `range`, so a
    negative dimension yields no rows or no cells while the recorded size
    keeps the number it was given.

    The static `add`, `subtract`, `multiply`, `divide` and `matrix_multiply`
    of the source return `m1 + m2`, `m1 - m2`, `m1 * m2`, `m1 / m2` and
    `m1 @ m2`, so each is modelled by the same function as its operator.
 */
module Matrices {
  import opened Wrappers
  import opened Vectors

  datatype Matrix = Matrix(rows: int, cols: int, cells: seq<seq<real>>)

  /** `len` of a `(rows, cols)` matrix, the product `rows * cols`, is not
      negative. Stated through the signs of the two dimensions, so that it
      stays linear; `NonNegativeLengthIsProduct` shows it is the same. */
  predicate NonNegativeLength(rows: int, cols: int) {
    (rows >= 0 && cols >= 0) || (rows <= 0 && cols <= 0)
  }

  lemma NonNegativeLengthIsProduct(rows: int, cols: int)
    ensures NonNegativeLength(rows, cols) <==> rows * cols >= 0
  {
  }

  /** The grid has `rows` rows of `cols` cells each, counted as `range`
      counts them, and `len(m)` is not negative: the constructor calls `len`
      on the new object, and Python's `len` rejects a negative length. */
  predicate Valid(m: Matrix) {
    && |m.cells| == Extent(m.rows)
    && (forall i :: 0 <= i < |m.cells| ==> |m.cells[i]| == Extent(m.cols))
    && NonNegativeLength(m.rows, m.cols)
  }

  /** The right-hand operand of an element-wise operator or of `@`. */
  datatype MatrixOperand = MatrixArg(m: Matrix) | Scalar(x: real) | NotANumber

  /** Exception kinds the matrix code raises. */
  datatype MatrixError =
    | MatrixSizeError           // shapes that do not fit the operator
    | MatrixMathError           // element-wise operand neither Matrix nor number
    | MatrixMultiplicationError // `@` operand that is not a Matrix
    | MatrixIdentityError       // identity size that is not a number
    | ZeroDivisionError         // `/` by a zero cell or zero scalar
    | TypeError                 // `range()` of a float dimension
    | ValueError                // `len()` of a size whose `rows * cols` is negative
    | IndexError                // first row of an empty list
    | AssertionError            // rows of unequal length

  /** `Matrix((rows, cols), fill)`. The base-class constructor evaluates
      `len(self)`, which is `rows * cols`; a negative product makes `len`
      raise ValueError. */
  function New(rows: int, cols: int, fill: real): (r: Result<Matrix, MatrixError>)
    ensures r.Success? <==> rows * cols >= 0
    ensures r.Failure? ==> r.error == ValueError
    ensures r.Success? ==> Valid(r.value) && r.value.rows == rows && r.value.cols == cols
    ensures r.Success? ==>
              forall i, j :: 0 <= i < Extent(rows) && 0 <= j < Extent(cols) ==> r.value.cells[i][j] == fill
  {
    NonNegativeLengthIsProduct(rows, cols);
    if !NonNegativeLength(rows, cols) then Failure(ValueError)
    else Success(Matrix(rows, cols, seq(Extent(rows), _ => seq(Extent(cols), _ => fill))))
  }

  /** `len(matrix)`: the product of the recorded dimensions, which Python's
      `len` accepts for every matrix that could be built. */
  function Length(m: Matrix): (n: int)
    ensures Valid(m) ==> n >= 0
  {
    NonNegativeLengthIsProduct(m.rows, m.cols);
    m.rows * m.cols
  }

  /** Number of cells in a grid, row by row. */
  function CellCount(cells: seq<seq<real>>): nat {
    if |cells| == 0 then 0 else CellCount(cells[..|cells| - 1]) + |cells[|cells| - 1]|
  }

  lemma {:induction false} CellCountOfRows(cells: seq<seq<real>>, width: nat)
    requires forall i :: 0 <= i < |cells| ==> |cells[i]| == width
    ensures CellCount(cells) == |cells| * width
  {
    if |cells| > 0 {
      CellCountOfRows(cells[..|cells| - 1], width);
    }
  }

  /** For non-negative dimensions `len` counts the cells of the grid. */
  lemma LengthCountsCells(m: Matrix)
    requires Valid(m) && m.rows >= 0 && m.cols >= 0
    ensures Length(m) == CellCount(m.cells)
  {
    CellCountOfRows(m.cells, Extent(m.cols));
  }

  /** A new matrix of r rows and c columns holds r*c cells. */
  lemma NewLength(rows: nat, cols: nat, fill: real)
    ensures New(rows, cols, fill).Success?
    ensures Length(New(rows, cols, fill).value) == CellCount(New(rows, cols, fill).value.cells) == rows * cols
  {
    LengthCountsCells(New(rows, cols, fill).value);
  }

  /** One negative dimension makes the constructor raise ValueError; two
      negative dimensions give a matrix with no rows whose `len` is the
      positive product. */
  lemma NegativeDimensions(fill: real)
    ensures New(-1, 3, fill) == Failure(ValueError)
    ensures New(-1, -3, fill).Success?
    ensures New(-1, -3, fill).value.cells == [] && Length(New(-1, -3, fill).value) == 3
  {
  }

  /** The shape test of the element-wise operators: equal `(rows, cols)`. */
  predicate SameSize(a: Matrix, b: Matrix) {
    a.rows == b.rows && a.cols == b.cols
  }

  /** The grid has at least one cell. */
  predicate HasCells(m: Matrix) {
    Extent(m.rows) > 0 && Extent(m.cols) > 0
  }

  /** `op` is a division and some cell of `m` is zero. */
  predicate ZeroCell(op: ArithOp, m: Matrix) {
    op == Over && exists i, j :: 0 <= i < |m.cells| && 0 <= j < |m.cells[i]| && m.cells[i][j] == 0.0
  }

  /** `self + other`, `self - other`, `self * other`, `self / other` (and the
      static add, subtract, multiply, divide): cell by cell against a matrix
      of the same size, broadcast against a number. */
  function ElementWise(op: ArithOp, self: Matrix, other: MatrixOperand): (r: Result<Matrix, MatrixError>)
    requires Valid(self)
    requires other.MatrixArg? ==> Valid(other.m)
    ensures r.Success? ==> Valid(r.value) && SameSize(r.value, self)
    ensures r == Failure(MatrixSizeError) <==> other.MatrixArg? && !SameSize(self, other.m)
    ensures r == Failure(MatrixMathError) <==> other.NotANumber?
    ensures r.Failure? ==>
              r.error == MatrixSizeError || r.error == MatrixMathError || r.error == MatrixError.ZeroDivisionError
    ensures r == Failure(MatrixError.ZeroDivisionError) <==>
              || (other.MatrixArg? && SameSize(self, other.m) && ZeroCell(op, other.m))
              || (other.Scalar? && op == Over && other.x == 0.0 && HasCells(self))
    ensures r.Success? && other.MatrixArg? ==>
              forall i, j :: 0 <= i < |self.cells| && 0 <= j < |self.cells[i]| ==>
                && (op != Over || other.m.cells[i][j] != 0.0)
                && r.value.cells[i][j] == Apply(op, self.cells[i][j], other.m.cells[i][j])
    ensures r.Success? && other.Scalar? ==>
              forall i, j :: 0 <= i < |self.cells| && 0 <= j < |self.cells[i]| ==>
                r.value.cells[i][j] == Apply(op, self.cells[i][j], other.x)
  {
    match other
    case MatrixArg(o) =>
      if !SameSize(self, o) then Failure(MatrixSizeError)
      else if ZeroCell(op, o) then Failure(MatrixError.ZeroDivisionError)
      else
        Success(Matrix(self.rows, self.cols,
          seq(|self.cells|, i requires 0 <= i < |self.cells| =>
            Pairwise(op, self.cells[i], o.cells[i]))))
    case Scalar(x) =>
      if op == Over && x == 0.0 && HasCells(self) then Failure(MatrixError.ZeroDivisionError)
      else
        Success(Matrix(self.rows, self.cols,
          seq(|self.cells|, i requires 0 <= i < |self.cells| =>
            Broadcast(op, self.cells[i], x))))
    case NotANumber => Failure(MatrixMathError)
  }

  /** Adding an operand and then subtracting the same operand gives back the
      original matrix. */
  lemma AddThenSubtract(a: Matrix, other: MatrixOperand)
    requires Valid(a) && (other.MatrixArg? ==> Valid(other.m))
    requires ElementWise(Plus, a, other).Success?
    ensures ElementWise(Minus, ElementWise(Plus, a, other).value, other) == Success(a)
  {
    var c := ElementWise(Plus, a, other).value;
    var d := ElementWise(Minus, c, other);
    assert d.Success?;
    forall i | 0 <= i < |a.cells|
      ensures d.value.cells[i] == a.cells[i]
    {
    }
    assert d.value.cells == a.cells;
  }

  /** Multiplying by a nonzero number and dividing by it again gives back
      the original matrix. */
  lemma ScaleThenDivide(a: Matrix, x: real)
    requires Valid(a) && x != 0.0
    ensures ElementWise(Over, ElementWise(Times, a, Scalar(x)).value, Scalar(x)) == Success(a)
  {
    var c := ElementWise(Times, a, Scalar(x)).value;
    var d := ElementWise(Over, c, Scalar(x));
    assert d.Success?;
    forall i | 0 <= i < |a.cells|
      ensures d.value.cells[i] == a.cells[i]
    {
      forall j | 0 <= j < |a.cells[i]|
        ensures d.value.cells[i][j] == a.cells[i][j]
      {
        assert c.cells[i][j] == a.cells[i][j] * x;
        assert (a.cells[i][j] * x) / x == a.cells[i][j];
      }
    }
    assert d.value.cells == a.cells;
  }

  /** Column j of a matrix, top to bottom. */
  function Column(m: Matrix, j: int): seq<real>
    requires Valid(m) && 0 <= j < Extent(m.cols)
  {
    seq(|m.cells|, k requires 0 <= k < |m.cells| => m.cells[k][j])
  }

  /** Cell (i, j) of `a @ b`: the sum over k of a[i][k] * b[k][j]. */
  function ProductCell(a: Matrix, b: Matrix, i: int, j: int): real
    requires Valid(a) && Valid(b) && a.cols == b.rows
    requires 0 <= i < Extent(a.rows) && 0 <= j < Extent(b.cols)
  {
    SumProducts(a.cells[i], Column(b, j), Extent(b.rows))
  }

  /** `self @ other` (and the static matrix_multiply). */
  function MatMul(self: Matrix, other: MatrixOperand): (r: Result<Matrix, MatrixError>)
    requires Valid(self)
    requires other.MatrixArg? ==> Valid(other.m)
    ensures r.Success? <==> other.MatrixArg? && self.cols == other.m.rows && NonNegativeLength(self.rows, other.m.cols)
    ensures r == Failure(MatrixSizeError) <==> other.MatrixArg? && self.cols != other.m.rows
    ensures r == Failure(ValueError) <==>
              other.MatrixArg? && self.cols == other.m.rows && !NonNegativeLength(self.rows, other.m.cols)
    ensures r == Failure(MatrixMultiplicationError) <==> !other.MatrixArg?
    ensures r.Success? ==>
              && Valid(r.value) && r.value.rows == self.rows && r.value.cols == other.m.cols
              && forall i, j :: 0 <= i < Extent(self.rows) && 0 <= j < Extent(other.m.cols) ==>
                   r.value.cells[i][j] == SumProducts(self.cells[i], Column(other.m, j), Extent(self.cols))
  {
    match other
    case MatrixArg(o) =>
      if self.cols != o.rows then Failure(MatrixSizeError)
      // the result is built as `Matrix((self.rows, other.cols), 0)`
      else if !NonNegativeLength(self.rows, o.cols) then Failure(ValueError)
      else
        Success(Matrix(self.rows, o.cols,
          seq(Extent(self.rows), i requires 0 <= i < Extent(self.rows) =>
            seq(Extent(o.cols), j requires 0 <= j < Extent(o.cols) => ProductCell(self, o, i, j)))))
    case _ => Failure(MatrixMultiplicationError)
  }

  /** `__matmul__` with its triple loop: after the size check and the
      construction of the result, each cell starts at 0 and accumulates
      `self[i][k] * other[k][j]` for k in `range(other.rows)`. */
  method MatMulLoops(a: Matrix, b: Matrix) returns (r: Result<Matrix, MatrixError>)
    requires Valid(a) && Valid(b)
    ensures r == MatMul(a, MatrixArg(b))
  {
    if a.cols != b.rows {
      return Failure(MatrixSizeError);
    }
    if !NonNegativeLength(a.rows, b.cols) {
      return Failure(ValueError);
    }
    var n := Extent(b.rows);
    var grid: seq<seq<real>> := [];
    var i := 0;
    while i < Extent(a.rows)
      invariant 0 <= i <= Extent(a.rows)
      invariant |grid| == i
      invariant forall ii :: 0 <= ii < i ==> |grid[ii]| == Extent(b.cols)
      invariant forall ii, jj :: 0 <= ii < i && 0 <= jj < Extent(b.cols) ==>
                  grid[ii][jj] == ProductCell(a, b, ii, jj)
    {
      var row: seq<real> := [];
      var j := 0;
      while j < Extent(b.cols)
        invariant 0 <= j <= Extent(b.cols)
        invariant |row| == j
        invariant forall jj :: 0 <= jj < j ==> row[jj] == ProductCell(a, b, i, jj)
      {
        var cell := 0.0;
        var k := 0;
        while k < n
          invariant 0 <= k <= n
          invariant cell == SumProducts(a.cells[i], Column(b, j), k)
        {
          cell := cell + a.cells[i][k] * b.cells[k][j];
          k := k + 1;
        }
        row := row + [cell];
        j := j + 1;
      }
      grid := grid + [row];
      i := i + 1;
    }
    r := Success(Matrix(a.rows, b.cols, grid));
    var expected := MatMul(a, MatrixArg(b)).value;
    forall ii | 0 <= ii < |grid|
      ensures grid[ii] == expected.cells[ii]
    {
    }
    assert expected.cells == grid;
  }

  /** The size argument of `Matrix.identity`. */
  datatype SizeArg = IntSize(n: int) | FloatSize(f: real) | OtherSize

  /** The identity row i of width n. */
  function UnitRow(n: nat, i: int): seq<real> {
    seq(n, k => if k == i then 1.0 else 0.0)
  }

  /** `Matrix.identity(size)`: an n x n grid with 1 on the diagonal and 0
      elsewhere for an integer n; a float size fails in `range`, any other
      kind raises MatrixIdentityError. */
  function Identity(size: SizeArg): (r: Result<Matrix, MatrixError>)
    ensures r.Success? <==> size.IntSize?
    ensures size.FloatSize? ==> r == Failure(MatrixError.TypeError)
    ensures size.OtherSize? ==> r == Failure(MatrixIdentityError)
    ensures r.Success? ==>
              && Valid(r.value) && r.value.rows == size.n && r.value.cols == size.n
              && forall i, j :: 0 <= i < Extent(size.n) && 0 <= j < Extent(size.n) ==>
                   r.value.cells[i][j] == (if i == j then 1.0 else 0.0)
  {
    match size
    case IntSize(n) =>
      Success(Matrix(n, n, seq(Extent(n), i => UnitRow(Extent(n), i))))
    case FloatSize(_) => Failure(MatrixError.TypeError)
    case OtherSize => Failure(MatrixIdentityError)
  }

  lemma {:induction false} UnitTimesColumn(n: nat, i: int, c: seq<real>, m: nat)
    requires m <= n && m <= |c|
    ensures SumProducts(UnitRow(n, i), c, m) == (if 0 <= i < m then c[i] else 0.0)
  {
    if m > 0 {
      UnitTimesColumn(n, i, c, m - 1);
    }
  }

  lemma {:induction false} RowTimesUnit(n: nat, j: int, row: seq<real>, m: nat)
    requires m <= n && m <= |row|
    ensures SumProducts(row, UnitRow(n, j), m) == (if 0 <= j < m then row[j] else 0.0)
  {
    if m > 0 {
      RowTimesUnit(n, j, row, m - 1);
    }
  }

  /** `identity(A.rows) @ A == A`. */
  lemma IdentityIsLeftNeutral(a: Matrix)
    requires Valid(a)
    ensures MatMul(Identity(IntSize(a.rows)).value, MatrixArg(a)) == Success(a)
  {
    var id := Identity(IntSize(a.rows)).value;
    var p := MatMul(id, MatrixArg(a)).value;
    forall i, j | 0 <= i < Extent(a.rows) && 0 <= j < Extent(a.cols)
      ensures p.cells[i][j] == a.cells[i][j]
    {
      assert id.cells[i] == UnitRow(Extent(a.rows), i);
      UnitTimesColumn(Extent(a.rows), i, Column(a, j), Extent(a.rows));
    }
    forall i | 0 <= i < |a.cells|
      ensures p.cells[i] == a.cells[i]
    {
    }
    assert p.cells == a.cells;
  }

  /** `A @ identity(A.cols) == A`. */
  lemma IdentityIsRightNeutral(a: Matrix)
    requires Valid(a)
    ensures MatMul(a, MatrixArg(Identity(IntSize(a.cols)).value)) == Success(a)
  {
    var id := Identity(IntSize(a.cols)).value;
    var p := MatMul(a, MatrixArg(id)).value;
    forall i, j | 0 <= i < Extent(a.rows) && 0 <= j < Extent(a.cols)
      ensures p.cells[i][j] == a.cells[i][j]
    {
      assert Column(id, j) == UnitRow(Extent(a.cols), j);
      RowTimesUnit(Extent(a.cols), j, a.cells[i], Extent(a.cols));
    }
    forall i | 0 <= i < |a.cells|
      ensures p.cells[i] == a.cells[i]
    {
    }
    assert p.cells == a.cells;
  }

  /** The terms `x[k] * (rows[k][l] * col[l])` of a row vector x, a grid
      `rows` and a column vector col; both ways of bracketing a product of
      three matrices sum them. */
  datatype Chain = Chain(x: seq<real>, rows: seq<seq<real>>, col: seq<real>)

  /** Term (k, l) of a chain, 0 outside the grid. */
  function Term(t: Chain, k: int, l: int): real {
    if 0 <= k < |t.x| && 0 <= k < |t.rows| && 0 <= l < |t.rows[k]| && 0 <= l < |t.col|
    then t.x[k] * (t.rows[k][l] * t.col[l])
    else 0.0
  }

  /** Sum of the terms (k, l) over l below n, for one k. */
  function RowSum(t: Chain, k: int, n: nat): real {
    if n == 0 then 0.0 else RowSum(t, k, n - 1) + Term(t, k, n - 1)
  }

  /** Sum of the terms (k, l) over k below m, for one l. */
  function ColSum(t: Chain, l: int, m: nat): real {
    if m == 0 then 0.0 else ColSum(t, l, m - 1) + Term(t, m - 1, l)
  }

  /** The m x n terms summed row by row. */
  function TotalByRows(t: Chain, m: nat, n: nat): real {
    if m == 0 then 0.0 else TotalByRows(t, m - 1, n) + RowSum(t, m - 1, n)
  }

  /** The m x n terms summed column by column. */
  function TotalByCols(t: Chain, m: nat, n: nat): real {
    if n == 0 then 0.0 else TotalByCols(t, m, n - 1) + ColSum(t, n - 1, m)
  }

  lemma {:induction false} TotalByColsNoRows(t: Chain, n: nat)
    ensures TotalByCols(t, 0, n) == 0.0
  {
    if n > 0 {
      TotalByColsNoRows(t, n - 1);
    }
  }

  /** Adding a row to the grid adds that row's sum to the column-wise total. */
  lemma {:induction false} TotalByColsLastRow(t: Chain, m: nat, n: nat)
    requires m > 0
    ensures TotalByCols(t, m, n) == TotalByCols(t, m - 1, n) + RowSum(t, m - 1, n)
  {
    if n > 0 {
      TotalByColsLastRow(t, m, n - 1);
    }
  }

  /** A finite double sum does not depend on the order of summation. */
  lemma {:induction false} TotalsAgree(t: Chain, m: nat, n: nat)
    ensures TotalByRows(t, m, n) == TotalByCols(t, m, n)
  {
    if m > 0 {
      TotalsAgree(t, m - 1, n);
      TotalByColsLastRow(t, m, n);
    } else {
      TotalByColsNoRows(t, n);
    }
  }

  /** Row k of the terms sums to `x[k]` times the dot product of `rows[k]`
      with col. */
  lemma {:induction false} RowSumScaled(t: Chain, k: int, n: nat, c: real, d: real)
    requires 0 <= k < |t.x| && k < |t.rows| && n <= |t.rows[k]| && n <= |t.col|
    requires c == t.x[k] && d == SumProducts(t.rows[k], t.col, n)
    ensures RowSum(t, k, n) == c * d
  {
    if n > 0 {
      var s, u, v := SumProducts(t.rows[k], t.col, n - 1), t.rows[k][n - 1], t.col[n - 1];
      RowSumScaled(t, k, n - 1, c, s);
      assert c * (s + u * v) == c * s + c * (u * v);
    }
  }

  /** Column l of the terms sums to the dot product of x with column l of
      the grid, times `col[l]`. */
  lemma {:induction false} ColSumScaled(t: Chain, l: int, m: nat, column: seq<real>, d: real, c: real)
    requires m <= |t.x| && m <= |t.rows| && m <= |column| && 0 <= l < |t.col|
    requires forall k :: 0 <= k < m ==> l < |t.rows[k]| && column[k] == t.rows[k][l]
    requires d == SumProducts(t.x, column, m) && c == t.col[l]
    ensures ColSum(t, l, m) == d * c
  {
    if m > 0 {
      var s, u, v := SumProducts(t.x, column, m - 1), t.x[m - 1], column[m - 1];
      ColSumScaled(t, l, m - 1, column, s, c);
      assert (s + u * v) * c == s * c + u * (v * c);
    }
  }

  /** Row sums that are the products `u[k] * v[k]` total to the dot product. */
  lemma {:induction false} TotalByRowsIsDot(t: Chain, m: nat, n: nat, u: seq<real>, v: seq<real>)
    requires m <= |u| && m <= |v|
    requires forall k :: 0 <= k < m ==> RowSum(t, k, n) == u[k] * v[k]
    ensures TotalByRows(t, m, n) == SumProducts(u, v, m)
  {
    if m > 0 {
      TotalByRowsIsDot(t, m - 1, n, u, v);
    }
  }

  /** Column sums that are the products `u[l] * v[l]` total to the dot product. */
  lemma {:induction false} TotalByColsIsDot(t: Chain, m: nat, n: nat, u: seq<real>, v: seq<real>)
    requires n <= |u| && n <= |v|
    requires forall l :: 0 <= l < n ==> ColSum(t, l, m) == u[l] * v[l]
    ensures TotalByCols(t, m, n) == SumProducts(u, v, n)
  {
    if n > 0 {
      TotalByColsIsDot(t, m, n - 1, u, v);
    }
  }

  /** Summed row by row, the terms of a chain give the dot product of x with
      the vector w of `rows[k] . col`. */
  lemma RowWiseTotal(t: Chain, q: nat, r: nat, w: seq<real>)
    requires q <= |t.x| && q <= |t.rows| && q <= |w| && r <= |t.col|
    requires forall k :: 0 <= k < q ==> r <= |t.rows[k]|
    requires forall k :: 0 <= k < q ==> w[k] == SumProducts(t.rows[k], t.col, r)
    ensures TotalByRows(t, q, r) == SumProducts(t.x, w, q)
  {
    forall k | 0 <= k < q
      ensures RowSum(t, k, r) == t.x[k] * w[k]
    {
      RowSumScaled(t, k, r, t.x[k], w[k]);
    }
    TotalByRowsIsDot(t, q, r, t.x, w);
  }

  /** Summed column by column, the terms of a chain give the dot product of
      the vector p of `x . cols[l]` with col, where cols holds the columns of
      the grid. */
  lemma ColumnWiseTotal(t: Chain, q: nat, r: nat, cols: seq<seq<real>>, p: seq<real>)
    requires q <= |t.x| && q <= |t.rows| && r <= |cols| && r <= |t.col| && r <= |p|
    requires forall l :: 0 <= l < r ==> q <= |cols[l]|
    requires forall k, l :: 0 <= k < q && 0 <= l < r ==> l < |t.rows[k]| && cols[l][k] == t.rows[k][l]
    requires forall l :: 0 <= l < r ==> p[l] == SumProducts(t.x, cols[l], q)
    ensures TotalByCols(t, q, r) == SumProducts(p, t.col, r)
  {
    forall l | 0 <= l < r
      ensures ColSum(t, l, q) == p[l] * t.col[l]
    {
      ColSumScaled(t, l, q, cols[l], p[l], t.col[l]);
    }
    TotalByColsIsDot(t, q, r, p, t.col);
  }

  /** Cell (i, j) of `(A @ B) @ C` equals cell (i, j) of `A @ (B @ C)`. */
  lemma AssociativeCell(a: Matrix, b: Matrix, c: Matrix, i: int, j: int)
    requires Valid(a) && Valid(b) && Valid(c) && a.cols == b.rows && b.cols == c.rows
    requires b.rows >= 0 && b.cols >= 0 && 0 <= i < a.rows && 0 <= j < c.cols
    ensures var ab := MatMul(a, MatrixArg(b)).value;
            var bc := MatMul(b, MatrixArg(c)).value;
            MatMul(ab, MatrixArg(c)).value.cells[i][j] == MatMul(a, MatrixArg(bc)).value.cells[i][j]
  {
    var ab := MatMul(a, MatrixArg(b)).value;
    var bc := MatMul(b, MatrixArg(c)).value;
    var q, r := Extent(a.cols), Extent(b.cols);
    var cols := seq(r, l requires 0 <= l < r => Column(b, l));
    var t := Chain(a.cells[i], b.cells, Column(c, j));
    RowWiseTotal(t, q, r, Column(bc, j));
    ColumnWiseTotal(t, q, r, cols, ab.cells[i]);
    TotalsAgree(t, q, r);
  }

  /** `(A @ B) @ C == A @ (B @ C)` whenever the sizes fit and the two inner
      products can be built: then both sides are the same matrix, or both
      raise ValueError for a negative `A.rows * C.cols`. With non-negative
      dimensions every product is built. */
  lemma MatMulAssociative(a: Matrix, b: Matrix, c: Matrix)
    requires Valid(a) && Valid(b) && Valid(c) && a.cols == b.rows && b.cols == c.rows
    ensures var ab := MatMul(a, MatrixArg(b));
            var bc := MatMul(b, MatrixArg(c));
            ab.Success? && bc.Success? ==> MatMul(ab.value, MatrixArg(c)) == MatMul(a, MatrixArg(bc.value))
    ensures a.rows >= 0 && a.cols >= 0 && b.cols >= 0 && c.cols >= 0 ==>
              && MatMul(a, MatrixArg(b)).Success? && MatMul(b, MatrixArg(c)).Success?
              && MatMul(MatMul(a, MatrixArg(b)).value, MatrixArg(c)).Success?
  {
    var ab := MatMul(a, MatrixArg(b));
    var bc := MatMul(b, MatrixArg(c));
    if ab.Success? && bc.Success? && NonNegativeLength(a.rows, c.cols) {
      var left := MatMul(ab.value, MatrixArg(c)).value;
      var right := MatMul(a, MatrixArg(bc.value)).value;
      forall i | 0 <= i < Extent(a.rows)
        ensures left.cells[i] == right.cells[i]
      {
        forall j | 0 <= j < Extent(c.cols)
          ensures left.cells[i][j] == right.cells[i][j]
        {
          AssociativeCell(a, b, c, i, j);
        }
      }
      assert left.cells == right.cells;
    }
  }

  /** Without the inner products, the bracketings can disagree: for sizes
      (-1, 0), (0, 2) and (2, 0), `A @ B` raises ValueError, while `B @ C`
      is (0, 0) and `A @ (B @ C)` is (-1, 0), whose `len` is 0. */
  lemma AssociativityNeedsInnerProducts(a: Matrix, b: Matrix, c: Matrix)
    requires a == Matrix(-1, 0, []) && b == Matrix(0, 2, []) && c == Matrix(2, 0, [[], []])
    ensures Valid(a) && Valid(b) && Valid(c)
    ensures MatMul(a, MatrixArg(b)) == Failure(ValueError)
    ensures MatMul(b, MatrixArg(c)).Success?
    ensures MatMul(a, MatrixArg(MatMul(b, MatrixArg(c)).value)).Success?
  {
  }

  /** Every row of the list is as long as the first. */
  predicate Rectangular(list: seq<seq<real>>) {
    forall i :: 0 <= i < |list| ==> |list[i]| == |list[0]|
  }

  /** `Matrix.matrix_from_list(list)`: unequal rows fail the assertion, and
      an empty list then fails reading its first row. */
  function FromList(list: seq<seq<real>>): (r: Result<Matrix, MatrixError>)
    ensures r.Success? <==> |list| > 0 && Rectangular(list)
    ensures |list| == 0 ==> r == Failure(MatrixError.IndexError)
    ensures |list| > 0 && !Rectangular(list) ==> r == Failure(AssertionError)
    ensures r.Success? ==>
              && Valid(r.value) && r.value.rows == |list| && r.value.cols == |list[0]|
              && forall i, j :: 0 <= i < |list| && 0 <= j < |list[i]| ==> r.value.cells[i][j] == list[i][j]
  {
    if !Rectangular(list) then Failure(AssertionError)
    else if |list| == 0 then Failure(MatrixError.IndexError)
    else Success(Matrix(|list|, |list[0]|, list))
  }

  /** A matrix with at least one row and a non-negative column count is
      rebuilt exactly from its own rows. */
  lemma FromListOfCells(m: Matrix)
    requires Valid(m) && m.rows > 0 && m.cols >= 0
    ensures FromList(m.cells) == Success(m)
  {
  }

  /** `Matrix.copy(m)`, computed as `Matrix(m.size()) * m`. */
  function Copy(m: Matrix): (r: Matrix)
    requires Valid(m)
    ensures r == m
  {
    var product := ElementWise(Times, New(m.rows, m.cols, 1.0).value, MatrixArg(m));
    assert product.Success?;
    assert product.value.cells == m.cells by {
      forall i | 0 <= i < |m.cells|
        ensures product.value.cells[i] == m.cells[i]
      {
      }
    }
    product.value
  }
}

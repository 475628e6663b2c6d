/** Matrix<Rows, Columns, double>: a flat row-major store of rows * columns cells with
    bounds-checked (row, column) access, tolerant equality, and the value-level operations the
    header defines: product, scaling, transposition, identity and submatrix. The loops that
    compute these in the source are methods in MatrixLoops, proved equal to these functions. */
module Matrices {
  import opened Outcomes
  import opened DoubleComparison
  import opened Indices
  import opened RowMajorOffsets
  import opened Coordinates
  import opened Directions
  import opened Points

  /** MatrixIndex, built by the `row, column` comma operator. */
  datatype MatrixIndex = MatrixIndex(row: Row, column: Column)

  /** The cells of a matrix, one sequence per row. */
  datatype Grid = Grid(rows: nat, columns: nat, cells: seq<seq<real>>)

  /** A matrix: `rows` rows of `columns` cells each. */
  type Matrix = m: Grid | |m.cells| == m.rows && forall r :: 0 <= r < |m.cells| ==> |m.cells[r]| == m.columns
    witness Grid(0, 0, [])

  /** The cell at an in-range (row, column). */
  function Cell(m: Matrix, row: nat, column: nat): real
    requires row < m.rows && column < m.columns
  {
    m.cells[row][column]
  }

  /** The `values` array of the source: the cells in row-major order, so that the cell at
      (row, column) sits at offset `row * columns + column`. */
  function Values(m: Matrix): (values: seq<real>)
    ensures |values| == m.rows * m.columns
  {
    seq(m.rows * m.columns, i requires 0 <= i < m.rows * m.columns =>
      OffsetCovers(m.rows, m.columns, i);
      m.cells[i / m.columns][i % m.columns])
  }

  /** Each cell is stored at its row-major offset. */
  lemma {:induction false} ValuesHoldCells(m: Matrix, row: nat, column: nat)
    requires row < m.rows && column < m.columns
    ensures row * m.columns + column < |Values(m)|
    ensures Values(m)[row * m.columns + column] == Cell(m, row, column)
  {
    OffsetInRange(m.rows, m.columns, row, column);
    OffsetSplits(m.columns, row, column);
  }

  /** The value at an offset of the store is the cell of its row and column. */
  lemma {:induction false} ValuesAt(m: Matrix, i: nat)
    requires i < |Values(m)|
    ensures i / m.columns < m.rows && i % m.columns < m.columns
    ensures Values(m)[i] == Cell(m, i / m.columns, i % m.columns)
  {
    OffsetCovers(m.rows, m.columns, i);
  }

  /** toAbsoluteOffset: a row or column outside the matrix is an invalid argument; otherwise the
      offset `row * columns + column` lies inside the store. */
  function ToAbsoluteOffset(m: Matrix, index: MatrixIndex): (r: Result<nat>)
    ensures r.Err? <==> index.row.value >= m.rows || index.column.value >= m.columns
    ensures r.Err? ==> r.error == InvalidArgument
    ensures r.Ok? ==> r.value == index.row.value * m.columns + index.column.value
    ensures r.Ok? ==> r.value < m.rows * m.columns
  {
    if index.row.value >= m.rows then
      Err(InvalidArgument)
    else if index.column.value >= m.columns then
      Err(InvalidArgument)
    else
      OffsetInRange(m.rows, m.columns, index.row.value, index.column.value);
      Ok(index.row.value * m.columns + index.column.value)
  }

  /** The const operator[]: the cell at `index`, or an invalid argument when it is outside. */
  function Get(m: Matrix, index: MatrixIndex): (r: Result<real>)
    ensures r.Err? <==> index.row.value >= m.rows || index.column.value >= m.columns
    ensures r.Ok? ==> r.value == Cell(m, index.row.value, index.column.value)
  {
    match ToAbsoluteOffset(m, index)
    case Err(e) => Err(e)
    case Ok(offset) =>
      ValuesHoldCells(m, index.row.value, index.column.value);
      Ok(Values(m)[offset])
  }

  /** Two matrices of the same template arguments. */
  predicate SameShape(a: Matrix, b: Matrix) {
    a.rows == b.rows && a.columns == b.columns
  }

  /** operator==: every pair of stored values is equal within Epsilon. */
  predicate Equals(lhs: Matrix, rhs: Matrix)
    requires SameShape(lhs, rhs)
  {
    var left, right := Values(lhs), Values(rhs);
    forall i :: 0 <= i < |left| ==> IsEqual(left[i], right[i])
  }

  /** operator!=, the negation of operator==. */
  predicate NotEquals(lhs: Matrix, rhs: Matrix)
    requires SameShape(lhs, rhs)
  {
    !Equals(lhs, rhs)
  }

  /** Equality of the stores is equality of every (row, column) cell, within Epsilon. */
  lemma {:induction false} EqualsIsCellwise(lhs: Matrix, rhs: Matrix)
    requires SameShape(lhs, rhs)
    ensures Equals(lhs, rhs) <==>
      forall r: nat, c: nat :: r < lhs.rows && c < lhs.columns ==> IsEqual(Cell(lhs, r, c), Cell(rhs, r, c))
  {
    if Equals(lhs, rhs) {
      EqualValuesGiveEqualCells(lhs, rhs);
    }
    if forall r: nat, c: nat :: r < lhs.rows && c < lhs.columns ==> IsEqual(Cell(lhs, r, c), Cell(rhs, r, c)) {
      EqualCellsGiveEqualValues(lhs, rhs);
    }
  }

  /** One direction of EqualsIsCellwise: equal stores have equal cells. */
  lemma {:induction false} EqualValuesGiveEqualCells(lhs: Matrix, rhs: Matrix)
    requires SameShape(lhs, rhs) && Equals(lhs, rhs)
    ensures forall r: nat, c: nat :: r < lhs.rows && c < lhs.columns ==> IsEqual(Cell(lhs, r, c), Cell(rhs, r, c))
  {
    forall r: nat, c: nat | r < lhs.rows && c < lhs.columns
      ensures IsEqual(Cell(lhs, r, c), Cell(rhs, r, c))
    {
      ValuesHoldCells(lhs, r, c);
      ValuesHoldCells(rhs, r, c);
      var i := r * lhs.columns + c;
      assert IsEqual(Values(lhs)[i], Values(rhs)[i]);
    }
  }

  /** The other direction of EqualsIsCellwise: equal cells give equal stores. */
  lemma {:induction false} EqualCellsGiveEqualValues(lhs: Matrix, rhs: Matrix)
    requires SameShape(lhs, rhs)
    requires forall r: nat, c: nat :: r < lhs.rows && c < lhs.columns ==> IsEqual(Cell(lhs, r, c), Cell(rhs, r, c))
    ensures Equals(lhs, rhs)
  {
    forall i | 0 <= i < |Values(lhs)|
      ensures IsEqual(Values(lhs)[i], Values(rhs)[i])
    {
      ValuesAt(lhs, i);
      ValuesAt(rhs, i);
    }
  }

  /** Matrices of one shape that agree on every cell are the same matrix. */
  lemma {:induction false} CellsDetermineMatrix(a: Matrix, b: Matrix)
    requires SameShape(a, b)
    requires forall r: nat, c: nat :: r < a.rows && c < a.columns ==> Cell(a, r, c) == Cell(b, r, c)
    ensures a == b
  {
    forall r | 0 <= r < a.rows
      ensures a.cells[r] == b.cells[r]
    {
      forall c | 0 <= c < a.columns
        ensures a.cells[r][c] == b.cells[r][c]
      {
        assert Cell(a, r, c) == Cell(b, r, c);
      }
    }
  }

  /** The rows-by-columns matrix whose cell (r, c) is f(r, c); every matrix the source fills
      cell by cell is one of these. */
  function Tabulate(rows: nat, columns: nat, f: (nat, nat) --> real): (m: Matrix)
    requires forall r: nat, c: nat :: r < rows && c < columns ==> f.requires(r, c)
    ensures m.rows == rows && m.columns == columns
    ensures forall r: nat, c: nat :: r < rows && c < columns ==> Cell(m, r, c) == f(r, c)
  {
    Grid(rows, columns,
      seq(rows, (r: int) requires 0 <= r < rows =>
        seq(columns, (c: int) requires 0 <= c < columns => f(r, c))))
  }

  /** The matrix whose row-major store is `values`. */
  function FromValues(rows: nat, columns: nat, values: seq<real>): (m: Matrix)
    requires |values| == rows * columns
    ensures m.rows == rows && m.columns == columns
  {
    Tabulate(rows, columns, (r: nat, c: nat) requires r < rows && c < columns =>
      OffsetInRange(rows, columns, r, c);
      values[r * columns + c])
  }

  /** Reading a matrix's store back gives the matrix. */
  lemma {:induction false} ValuesRoundTrip(m: Matrix)
    ensures FromValues(m.rows, m.columns, Values(m)) == m
  {
    forall r: nat, c: nat | r < m.rows && c < m.columns
      ensures Cell(FromValues(m.rows, m.columns, Values(m)), r, c) == Cell(m, r, c)
    {
      ValuesHoldCells(m, r, c);
    }
    CellsDetermineMatrix(FromValues(m.rows, m.columns, Values(m)), m);
  }

  /** Storing the matrix read from a store gives the store back. */
  lemma {:induction false} FromValuesRoundTrip(rows: nat, columns: nat, values: seq<real>)
    requires |values| == rows * columns
    ensures Values(FromValues(rows, columns, values)) == values
  {
    forall i | 0 <= i < |values|
      ensures Values(FromValues(rows, columns, values))[i] == values[i]
    {
      FromValuesAt(rows, columns, values, i);
    }
  }

  /** One offset of FromValuesRoundTrip. */
  lemma {:induction false} FromValuesAt(rows: nat, columns: nat, values: seq<real>, i: nat)
    requires |values| == rows * columns && i < |values|
    ensures Values(FromValues(rows, columns, values))[i] == values[i]
  {
    var m := FromValues(rows, columns, values);
    ValuesAt(m, i);
    OffsetCovers(rows, columns, i);
    var r, c := i / columns, i % columns;
    assert Cell(m, r, c) == values[r * columns + c];
  }

  /** The matrix with the cell at (row, column) replaced by x. */
  function Updated(m: Matrix, row: nat, column: nat, x: real): (u: Matrix)
    requires row < m.rows && column < m.columns
    ensures SameShape(u, m)
    ensures forall r: nat, c: nat :: r < m.rows && c < m.columns ==>
      Cell(u, r, c) == if r == row && c == column then x else Cell(m, r, c)
  {
    Tabulate(m.rows, m.columns, (r: nat, c: nat) requires r < m.rows && c < m.columns =>
      if r == row && c == column then x else Cell(m, r, c))
  }

  /** Writing the store at the offset of (row, column) replaces exactly that cell. */
  lemma {:induction false} StoreWrite(rows: nat, columns: nat, values: seq<real>, row: nat, column: nat, x: real)
    requires |values| == rows * columns && row < rows && column < columns
    ensures row * columns + column < |values|
    ensures FromValues(rows, columns, values[row * columns + column := x]) ==
      Updated(FromValues(rows, columns, values), row, column, x)
  {
    OffsetInRange(rows, columns, row, column);
    var after := FromValues(rows, columns, values[row * columns + column := x]);
    var expected := Updated(FromValues(rows, columns, values), row, column, x);
    forall r: nat, c: nat | r < rows && c < columns
      ensures Cell(after, r, c) == Cell(expected, r, c)
    {
      OffsetInRange(rows, columns, r, c);
      if r * columns + c == row * columns + column {
        OffsetInjective(columns, r, c, row, column);
      }
    }
    CellsDetermineMatrix(after, expected);
  }

  /** A store of zeros holds the all-zero matrix. */
  lemma {:induction false} ZerosStore(rows: nat, columns: nat)
    ensures FromValues(rows, columns, seq(rows * columns, i => 0.0)) == Zeros(rows, columns)
  {
    var m := FromValues(rows, columns, seq(rows * columns, i => 0.0));
    forall r: nat, c: nat | r < rows && c < columns
      ensures Cell(m, r, c) == 0.0
    {
      OffsetInRange(rows, columns, r, c);
    }
    CellsDetermineMatrix(m, Zeros(rows, columns));
  }

  /** The cells before (row, column) in row-major order agree with `target`: the invariant of
      every loop that fills a matrix row by row. */
  predicate FilledUpTo(m: Matrix, target: Matrix, row: nat, column: nat)
    requires SameShape(m, target)
  {
    forall r: nat, c: nat :: r < m.rows && c < m.columns && (r < row || (r == row && c < column)) ==>
      Cell(m, r, c) == Cell(target, r, c)
  }

  /** Filling the cell at (row, column) from `target` extends the filled prefix by one cell. */
  lemma {:induction false} FillNext(m: Matrix, target: Matrix, row: nat, column: nat)
    requires SameShape(m, target) && row < m.rows && column < m.columns && FilledUpTo(m, target, row, column)
    ensures FilledUpTo(Updated(m, row, column, Cell(target, row, column)), target, row, column + 1)
  {
  }

  /** A completely filled row moves the prefix to the start of the next row. */
  lemma {:induction false} FillNextRow(m: Matrix, target: Matrix, row: nat)
    requires SameShape(m, target) && FilledUpTo(m, target, row, m.columns)
    ensures FilledUpTo(m, target, row + 1, 0)
  {
  }

  /** The invariant of a loop that rewrites a matrix in place, cell by cell in row-major order:
      the cells before (row, column) hold `target`, the others still hold `before`. */
  predicate RewrittenUpTo(m: Matrix, before: Matrix, target: Matrix, row: nat, column: nat)
    requires SameShape(m, target) && SameShape(before, target)
  {
    FilledUpTo(m, target, row, column) &&
    forall r: nat, c: nat :: r < m.rows && c < m.columns && (row < r || (r == row && column <= c)) ==>
      Cell(m, r, c) == Cell(before, r, c)
  }

  lemma {:induction false} RewriteNext(m: Matrix, before: Matrix, target: Matrix, row: nat, column: nat)
    requires SameShape(m, target) && SameShape(before, target) && row < m.rows && column < m.columns
    requires RewrittenUpTo(m, before, target, row, column)
    ensures RewrittenUpTo(Updated(m, row, column, Cell(target, row, column)), before, target, row, column + 1)
  {
  }

  lemma {:induction false} RewriteNextRow(m: Matrix, before: Matrix, target: Matrix, row: nat)
    requires SameShape(m, target) && SameShape(before, target)
    requires RewrittenUpTo(m, before, target, row, m.columns)
    ensures RewrittenUpTo(m, before, target, row + 1, 0)
  {
  }

  /** Once every row is filled the matrix is the target. */
  lemma {:induction false} FilledIsTarget(m: Matrix, target: Matrix)
    requires SameShape(m, target) && FilledUpTo(m, target, m.rows, 0)
    ensures m == target
  {
    CellsDetermineMatrix(m, target);
  }

  /** The default-constructed matrix: every cell is zero. */
  function Zeros(rows: nat, columns: nat): (m: Matrix)
    ensures m.rows == rows && m.columns == columns
    ensures forall r: nat, c: nat :: r < rows && c < columns ==> Cell(m, r, c) == 0.0
  {
    Tabulate(rows, columns, (r: nat, c: nat) => 0.0)
  }

  /** The running sum of the product loop after `count` components:
      lhs[row, 0] * rhs[0, column] + ... + lhs[row, count - 1] * rhs[count - 1, column]. */
  function SumProducts(lhs: Matrix, rhs: Matrix, row: nat, column: nat, count: nat): real
    requires lhs.columns == rhs.rows && row < lhs.rows && column < rhs.columns && count <= lhs.columns
  {
    if count == 0 then 0.0
    else SumProducts(lhs, rhs, row, column, count - 1) + Cell(lhs, row, count - 1) * Cell(rhs, count - 1, column)
  }

  /** operator* of two matrices: cell (r, c) is the sum over k of lhs[r, k] * rhs[k, c]. */
  function Product(lhs: Matrix, rhs: Matrix): (m: Matrix)
    requires lhs.columns == rhs.rows
    ensures m.rows == lhs.rows && m.columns == rhs.columns
    ensures forall r: nat, c: nat :: r < m.rows && c < m.columns ==> Cell(m, r, c) == SumProducts(lhs, rhs, r, c, lhs.columns)
  {
    Tabulate(lhs.rows, rhs.columns,
      (r: nat, c: nat) requires r < lhs.rows && c < rhs.columns => SumProducts(lhs, rhs, r, c, lhs.columns))
  }

  /** operator* with a factor (either side): every cell multiplied by the factor. */
  function Scaled(m: Matrix, factor: real): (r: Matrix)
    ensures SameShape(r, m)
    ensures forall i: nat, j: nat :: i < m.rows && j < m.columns ==> Cell(r, i, j) == Cell(m, i, j) * factor
  {
    Tabulate(m.rows, m.columns, (i: nat, j: nat) requires i < m.rows && j < m.columns => Cell(m, i, j) * factor)
  }

  /** operator/ with a divisor: every cell divided by the divisor. */
  function Divided(m: Matrix, divisor: real): (r: Matrix)
    requires divisor != 0.0
    ensures SameShape(r, m)
    ensures forall i: nat, j: nat :: i < m.rows && j < m.columns ==> Cell(r, i, j) == Cell(m, i, j) / divisor
  {
    Tabulate(m.rows, m.columns, (i: nat, j: nat) requires i < m.rows && j < m.columns => Cell(m, i, j) / divisor)
  }

  /** asMatrix of a point: the column (x, y, z, 1). */
  function PointAsMatrix(p: Point): (m: Matrix)
    ensures m.rows == 4 && m.columns == 1
    ensures Cell(m, 0, 0) == p.x && Cell(m, 1, 0) == p.y && Cell(m, 2, 0) == p.z && Cell(m, 3, 0) == 1.0
  {
    Grid(4, 1, [[p.x], [p.y], [p.z], [1.0]])
  }

  /** asMatrix of a direction: the column (x, y, z, 0). */
  function DirectionAsMatrix(d: Direction): (m: Matrix)
    ensures m.rows == 4 && m.columns == 1
    ensures Cell(m, 0, 0) == d.x && Cell(m, 1, 0) == d.y && Cell(m, 2, 0) == d.z && Cell(m, 3, 0) == 0.0
  {
    Grid(4, 1, [[d.x], [d.y], [d.z], [0.0]])
  }

  /** transpose, as the generic signature promises it: cell (r, c) of the result is cell (c, r)
      of the argument. */
  function Transposed(m: Matrix): (t: Matrix)
    ensures t.rows == m.columns && t.columns == m.rows
    ensures forall r: nat, c: nat :: r < t.rows && c < t.columns ==> Cell(t, r, c) == Cell(m, c, r)
  {
    Tabulate(m.columns, m.rows, (r: nat, c: nat) requires r < m.columns && c < m.rows => Cell(m, c, r))
  }

  /** identity<N>: ones on the diagonal, zeros elsewhere. */
  function Identity(n: nat): (m: Matrix)
    ensures m.rows == n && m.columns == n
    ensures forall r: nat, c: nat :: r < n && c < n ==> Cell(m, r, c) == if r == c then 1.0 else 0.0
  {
    Tabulate(n, n, (r: nat, c: nat) => if r == c then 1.0 else 0.0)
  }

  /** The index shift of submatrix: indices before the skipped one stay, the others move up one. */
  function SkipIndex(target: nat, skipped: nat): (source: nat)
    ensures source != skipped
    ensures target < skipped ==> source == target
  {
    if target < skipped then target else target + 1
  }

  /** submatrix with the column bound the result type calls for (columns - 1): the matrix with
      one row and one column removed. */
  function Submatrix(m: Matrix, skippedRow: nat, skippedColumn: nat): (s: Matrix)
    requires m.rows >= 1 && m.columns >= 1
    ensures s.rows == m.rows - 1 && s.columns == m.columns - 1
    ensures forall r: nat, c: nat :: r < s.rows && c < s.columns ==>
      Cell(s, r, c) == Cell(m, SkipIndex(r, skippedRow), SkipIndex(c, skippedColumn))
  {
    Tabulate(m.rows - 1, m.columns - 1,
      (r: nat, c: nat) requires r < m.rows - 1 && c < m.columns - 1 =>
        Cell(m, SkipIndex(r, skippedRow), SkipIndex(c, skippedColumn)))
  }

  /** Every cell outside the skipped row and column survives in the submatrix, at the position
      the index shift leads back to. */
  lemma {:induction false} SubmatrixKeepsOtherCells(m: Matrix, skippedRow: nat, skippedColumn: nat, r: nat, c: nat)
    requires skippedRow < m.rows && skippedColumn < m.columns
    requires r < m.rows && c < m.columns && r != skippedRow && c != skippedColumn
    ensures var s := Submatrix(m, skippedRow, skippedColumn);
      var sr := if r < skippedRow then r else r - 1;
      var sc := if c < skippedColumn then c else c - 1;
      sr < s.rows && sc < s.columns && Cell(s, sr, sc) == Cell(m, r, c)
  {
    var s := Submatrix(m, skippedRow, skippedColumn);
    var sr := if r < skippedRow then r else r - 1;
    var sc := if c < skippedColumn then c else c - 1;
    assert SkipIndex(sr, skippedRow) == r && SkipIndex(sc, skippedColumn) == c;
  }

  /** Transposing twice gives the matrix back. */
  lemma {:induction false} TransposeInvolution(m: Matrix)
    ensures Transposed(Transposed(m)) == m
  {
    CellsDetermineMatrix(Transposed(Transposed(m)), m);
  }

  /** The identity leaves its own transpose unchanged. */
  lemma {:induction false} IdentityIsSymmetric(n: nat)
    ensures Transposed(Identity(n)) == Identity(n)
  {
    CellsDetermineMatrix(Transposed(Identity(n)), Identity(n));
  }

  lemma {:induction false} SumProductsIdentityLeft(m: Matrix, row: nat, column: nat, count: nat)
    requires row < m.rows && column < m.columns && count <= m.rows
    ensures SumProducts(Identity(m.rows), m, row, column, count) == if row < count then Cell(m, row, column) else 0.0
  {
    if count > 0 {
      SumProductsIdentityLeft(m, row, column, count - 1);
    }
  }

  lemma {:induction false} SumProductsIdentityRight(m: Matrix, row: nat, column: nat, count: nat)
    requires row < m.rows && column < m.columns && count <= m.columns
    ensures SumProducts(m, Identity(m.columns), row, column, count) == if column < count then Cell(m, row, column) else 0.0
  {
    if count > 0 {
      SumProductsIdentityRight(m, row, column, count - 1);
    }
  }

  /** The identity is neutral for the product on both sides. */
  lemma {:induction false} IdentityIsNeutral(m: Matrix)
    ensures Product(Identity(m.rows), m) == m
    ensures Product(m, Identity(m.columns)) == m
  {
    forall r: nat, c: nat | r < m.rows && c < m.columns
      ensures Cell(Product(Identity(m.rows), m), r, c) == Cell(m, r, c)
      ensures Cell(Product(m, Identity(m.columns)), r, c) == Cell(m, r, c)
    {
      SumProductsIdentityLeft(m, r, c, m.rows);
      SumProductsIdentityRight(m, r, c, m.columns);
    }
    CellsDetermineMatrix(Product(Identity(m.rows), m), m);
    CellsDetermineMatrix(Product(m, Identity(m.columns)), m);
  }

  /** Tolerant matrix equality is reflexive and symmetric. */
  lemma EqualsTolerance(a: Matrix, b: Matrix)
    requires SameShape(a, b)
    ensures Equals(a, a)
    ensures Equals(a, b) <==> Equals(b, a)
  {
  }
}

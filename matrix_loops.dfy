/** The loops of Matrix.h: each builds its result in a zero-initialised Matrix through the
    bounds-checked operator[], and is proved to compute the value-level function of Matrices or
    Determinants. Transpose and submatrix are modelled as written: their loop bounds differ from
    what the result type calls for, which only matters for matrices that are not square. */
module MatrixLoops {
  import opened CppStd
  import opened Outcomes
  import opened DoubleComparison
  import opened ValueTypes
  import opened Indices
  import opened Matrices
  import opened Determinants
  import opened MatrixStores

  /** Template arguments are std::size_t values. */
  predicate SizeTShape(m: Matrix) {
    m.rows < SizeTModulus && m.columns < SizeTModulus
  }

  /** The index `Row{row}, Column{column}`. */
  function IndexAt(row: SizeT, column: SizeT): (index: MatrixIndex)
    ensures index.row.value == row && index.column.value == column
  {
    MatrixIndex(ValueType(row), ValueType(column))
  }

  /** One step of a loop that fills a matrix row by row: the cell at (row, column) takes its
      value from `target`, and the filled prefix grows by that cell. */
  method AssignFilled(result: MatrixStore, ghost target: Matrix, row: nat, column: nat, x: real)
    requires result.Valid() && SameShape(result.Value(), target)
    requires row < result.rows && column < result.columns
    requires FilledUpTo(result.Value(), target, row, column) && x == Cell(target, row, column)
    modifies result.values
    ensures result.Valid() && FilledUpTo(result.Value(), target, row, column + 1)
  {
    FillNext(result.Value(), target, row, column);
    result.AssignCell(row, column, x);
  }

  /** operator* of two matrices, with its three nested loops. */
  method Multiply(lhs: Matrix, rhs: Matrix) returns (product: Matrix)
    requires lhs.columns == rhs.rows
    ensures product == Product(lhs, rhs)
  {
    var result := new MatrixStore(lhs.rows, rhs.columns);
    ghost var target := Product(lhs, rhs);
    for targetRow := 0 to lhs.rows
      invariant result.Valid() && FilledUpTo(result.Value(), target, targetRow, 0)
    {
      for targetColumn := 0 to rhs.columns
        invariant result.Valid() && FilledUpTo(result.Value(), target, targetRow, targetColumn)
      {
        var value := 0.0;
        for component := 0 to lhs.columns
          invariant value == SumProducts(lhs, rhs, targetRow, targetColumn, component)
        {
          value := value + Cell(lhs, targetRow, component) * Cell(rhs, component, targetColumn);
        }
        AssignFilled(result, target, targetRow, targetColumn, value);
      }
      FillNextRow(result.Value(), target, targetRow);
    }
    FilledIsTarget(result.Value(), target);
    product := result.Value();
  }

  /** operator* of a matrix (taken by value) and a factor, in either order: a copy multiplied
      in place. The argument itself is a value and stays as it was. */
  method Times(m: Matrix, factor: real) returns (r: Matrix)
    ensures r == Scaled(m, factor)
  {
    var copy := new MatrixStore.Copy(m);
    copy.MultiplyBy(factor);
    r := copy.Value();
  }

  /** operator/ of a matrix (taken by value) and a divisor: a copy divided in place. */
  method Over(m: Matrix, divisor: real) returns (r: Matrix)
    requires divisor != 0.0
    ensures r == Divided(m, divisor)
  {
    var copy := new MatrixStore.Copy(m);
    copy.DivideBy(divisor);
    r := copy.Value();
  }

  /** fillIdentity: a zero matrix with a 1 written at each (i, i). */
  method FillIdentity(n: nat) returns (identity: Matrix)
    ensures identity == Identity(n)
  {
    var result := new MatrixStore(n, n);
    for i := 0 to n
      invariant result.Valid()
      invariant forall r: nat, c: nat :: r < n && c < n ==>
        Cell(result.Value(), r, c) == if r == c && r < i then 1.0 else 0.0
    {
      result.AssignCell(i, i, 1.0);
    }
    CellsDetermineMatrix(result.Value(), Identity(n));
    identity := result.Value();
  }

  /** What transpose does as written. Its outer loop runs over the M columns as source rows and
      its inner loop over the N rows as source columns, so the first access outside an N-by-M
      matrix that is not square throws invalid_argument; with a dimension of 0 no cell is
      visited. */
  function TransposeAsWritten(m: Matrix): (r: Result<Matrix>)
    ensures r.Ok? ==> r.value.rows == m.columns && r.value.columns == m.rows
  {
    if m.rows == m.columns || m.rows == 0 || m.columns == 0 then Ok(Transposed(m))
    else Err(InvalidArgument)
  }

  /** transpose, as written: for square matrices it is the transposition. */
  lemma {:induction false} TransposeAsWrittenOfSquare(m: Matrix)
    requires m.rows == m.columns
    ensures TransposeAsWritten(m) == Ok(Transposed(m))
    ensures forall r: nat, c: nat :: r < m.rows && c < m.rows ==> Cell(TransposeAsWritten(m).value, r, c) == Cell(m, c, r)
  {
  }

  /** For a 1x2 matrix transpose throws instead of returning the 2x1 transposition. */
  lemma {:induction false} TransposeOfRowThrows(m: Matrix)
    requires m.rows == 1 && m.columns == 2
    ensures TransposeAsWritten(m) == Err(InvalidArgument)
    ensures Transposed(m).rows == 2 && Transposed(m).columns == 1
    ensures Cell(Transposed(m), 1, 0) == Cell(m, 0, 1)
  {
  }

  /** The transposed store after the loops of transpose have written the first N cells of every
      source row before `sourceRow` and the first `sourceColumn` cells of that row; the other
      cells are still 0. */
  ghost predicate TransposedUpTo(t: Matrix, m: Matrix, sourceRow: nat, sourceColumn: nat)
    requires t.rows == m.columns && t.columns == m.rows
  {
    forall i: nat, j: nat :: i < t.rows && j < t.columns ==>
      Cell(t, i, j) == if (j < sourceRow && i < m.rows) || (j == sourceRow && i < sourceColumn) then Cell(m, j, i) else 0.0
  }

  lemma {:induction false} TransposeNext(t: Matrix, m: Matrix, sourceRow: nat, sourceColumn: nat)
    requires t.rows == m.columns && t.columns == m.rows
    requires sourceRow < m.rows && sourceColumn < m.columns
    requires TransposedUpTo(t, m, sourceRow, sourceColumn)
    ensures TransposedUpTo(Updated(t, sourceColumn, sourceRow, Cell(m, sourceRow, sourceColumn)), m, sourceRow, sourceColumn + 1)
  {
  }

  lemma {:induction false} TransposeNextRow(t: Matrix, m: Matrix, sourceRow: nat, sourceColumn: nat)
    requires t.rows == m.columns && t.columns == m.rows
    requires sourceColumn == m.rows && TransposedUpTo(t, m, sourceRow, sourceColumn)
    ensures TransposedUpTo(t, m, sourceRow + 1, 0)
  {
  }

  lemma {:induction false} TransposeDone(t: Matrix, m: Matrix, sourceRow: nat)
    requires t.rows == m.columns && t.columns == m.rows
    requires m.rows == 0 || m.columns == 0 || (m.rows == m.columns && sourceRow >= m.rows)
    requires TransposedUpTo(t, m, sourceRow, 0)
    ensures t == Transposed(m)
  {
    CellsDetermineMatrix(t, Transposed(m));
  }

  /** The inner loop of transpose for one source row: it fails on the first read outside the
      matrix, which happens when the row is past the last one or the matrix has more rows than
      columns. */
  method TransposeSourceRow(transposed: MatrixStore, m: Matrix, sourceRow: nat) returns (outcome: Outcome)
    requires SizeTShape(m) && sourceRow < m.columns
    requires transposed.Valid() && transposed.rows == m.columns && transposed.columns == m.rows
    requires TransposedUpTo(transposed.Value(), m, sourceRow, 0)
    modifies transposed.values
    ensures transposed.Valid()
    ensures outcome.Fail? <==> m.rows >= 1 && (sourceRow >= m.rows || m.rows > m.columns)
    ensures outcome.Fail? ==> outcome.error == InvalidArgument
    ensures outcome.Pass? ==> TransposedUpTo(transposed.Value(), m, sourceRow + 1, 0)
  {
    var n, columns := m.rows, m.columns;
    for sourceColumn := 0 to n
      invariant transposed.Valid()
      invariant sourceColumn > 0 ==> sourceRow < n
      invariant n > columns ==> sourceColumn <= columns
      invariant TransposedUpTo(transposed.Value(), m, sourceRow, sourceColumn)
    {
      var read := Get(m, IndexAt(sourceRow, sourceColumn));
      if read.Err? {
        return Fail(read.error);
      }
      TransposeNext(transposed.Value(), m, sourceRow, sourceColumn);
      var written := transposed.Assign(IndexAt(sourceColumn, sourceRow), read.value);
      assert written.Pass?;
    }
    TransposeNextRow(transposed.Value(), m, sourceRow, n);
    outcome := Pass;
  }

  /** The loops of transpose, with their checked reads and writes. */
  method Transpose(m: Matrix) returns (r: Result<Matrix>)
    requires SizeTShape(m)
    ensures r == TransposeAsWritten(m)
  {
    var n, columns := m.rows, m.columns;
    var transposed := new MatrixStore(columns, n);
    for sourceRow := 0 to columns
      invariant transposed.Valid() && transposed.rows == columns && transposed.columns == n
      invariant sourceRow > 0 && n >= 1 ==> sourceRow <= n <= columns
      invariant TransposedUpTo(transposed.Value(), m, sourceRow, 0)
    {
      var outcome := TransposeSourceRow(transposed, m, sourceRow);
      if outcome.Fail? {
        return Err(outcome.error);
      }
    }
    TransposeDone(transposed.Value(), m, columns);
    r := Ok(transposed.Value());
  }

  /** What submatrix does as written: the result type is (N-1) x (M-1) but the column loop
      runs to N-1. With N <= M the columns from N-1 on stay zero; with N > M the first column
      index past the store throws invalid_argument. */
  function SubmatrixAsWritten(m: Matrix, skippedRow: nat, skippedColumn: nat): (r: Result<Matrix>)
    requires m.rows >= 1 && m.columns >= 1
    ensures r.Ok? ==> r.value.rows == m.rows - 1 && r.value.columns == m.columns - 1
  {
    if m.rows > m.columns then Err(InvalidArgument)
    else Ok(Tabulate(m.rows - 1, m.columns - 1, (r: nat, c: nat) requires r < m.rows - 1 && c < m.columns - 1 =>
      if c < m.rows - 1 then Cell(m, SkipIndex(r, skippedRow), SkipIndex(c, skippedColumn)) else 0.0))
  }

  /** For square matrices submatrix as written is the submatrix. */
  lemma {:induction false} SubmatrixAsWrittenOfSquare(m: Matrix, skippedRow: nat, skippedColumn: nat)
    requires m.rows == m.columns && m.rows >= 1
    ensures SubmatrixAsWritten(m, skippedRow, skippedColumn) == Ok(Submatrix(m, skippedRow, skippedColumn))
  {
    CellsDetermineMatrix(SubmatrixAsWritten(m, skippedRow, skippedColumn).value, Submatrix(m, skippedRow, skippedColumn));
  }

  /** A 2x3 matrix loses its last column: cell (0, 1) of its submatrix without (0, 0) should be
      m[1, 2] but stays 0; and a 3x2 matrix throws. */
  lemma {:induction false} SubmatrixOfWideAndTallMatrices(wide: Matrix, tall: Matrix)
    requires wide.rows == 2 && wide.columns == 3 && tall.rows == 3 && tall.columns == 2
    ensures SubmatrixAsWritten(wide, 0, 0).Ok?
    ensures Cell(SubmatrixAsWritten(wide, 0, 0).value, 0, 1) == 0.0
    ensures Cell(Submatrix(wide, 0, 0), 0, 1) == Cell(wide, 1, 2)
    ensures SubmatrixAsWritten(tall, 0, 0) == Err(InvalidArgument)
  {
  }

  /** The result store after the loops of submatrix have filled the first N-1 cells of every
      target row before `targetRow` and the first `targetColumn` cells of that row; the other
      cells are still 0. */
  ghost predicate SubmatrixUpTo(t: Matrix, m: Matrix, skippedRow: nat, skippedColumn: nat, targetRow: nat, targetColumn: nat)
    requires m.rows >= 1 && m.columns >= 1 && t.rows == m.rows - 1 && t.columns == m.columns - 1
  {
    forall i: nat, j: nat :: i < t.rows && j < t.columns ==>
      Cell(t, i, j) == if (i < targetRow && j < m.rows - 1) || (i == targetRow && j < targetColumn)
        then Cell(m, SkipIndex(i, skippedRow), SkipIndex(j, skippedColumn)) else 0.0
  }

  lemma {:induction false} SubmatrixNext(t: Matrix, m: Matrix, skippedRow: nat, skippedColumn: nat, targetRow: nat, targetColumn: nat)
    requires m.rows >= 1 && m.columns >= 1 && t.rows == m.rows - 1 && t.columns == m.columns - 1
    requires targetRow < t.rows && targetColumn < t.columns
    requires SubmatrixUpTo(t, m, skippedRow, skippedColumn, targetRow, targetColumn)
    ensures SubmatrixUpTo(Updated(t, targetRow, targetColumn, Cell(m, SkipIndex(targetRow, skippedRow), SkipIndex(targetColumn, skippedColumn))),
      m, skippedRow, skippedColumn, targetRow, targetColumn + 1)
  {
  }

  lemma {:induction false} SubmatrixNextRow(t: Matrix, m: Matrix, skippedRow: nat, skippedColumn: nat, targetRow: nat)
    requires m.rows >= 1 && m.columns >= 1 && t.rows == m.rows - 1 && t.columns == m.columns - 1
    requires SubmatrixUpTo(t, m, skippedRow, skippedColumn, targetRow, m.rows - 1)
    ensures SubmatrixUpTo(t, m, skippedRow, skippedColumn, targetRow + 1, 0)
  {
  }

  lemma {:induction false} SubmatrixDone(t: Matrix, m: Matrix, skippedRow: nat, skippedColumn: nat, targetRow: nat)
    requires 1 <= m.rows <= m.columns && t.rows == m.rows - 1 && t.columns == m.columns - 1
    requires targetRow >= t.rows && SubmatrixUpTo(t, m, skippedRow, skippedColumn, targetRow, 0)
    ensures Ok(t) == SubmatrixAsWritten(m, skippedRow, skippedColumn)
  {
    CellsDetermineMatrix(t, SubmatrixAsWritten(m, skippedRow, skippedColumn).value);
  }

  /** The inner loop of submatrix for one target row: with more rows than columns it fails at
      the latest when the target column reaches the last column of the result. */
  method SubmatrixTargetRow(result: MatrixStore, m: Matrix, skippedRow: Row, skippedColumn: Column, targetRow: nat)
    returns (outcome: Outcome)
    requires SizeTShape(m) && m.rows >= 1 && m.columns >= 1 && targetRow < m.rows - 1
    requires result.Valid() && result.rows == m.rows - 1 && result.columns == m.columns - 1
    requires SubmatrixUpTo(result.Value(), m, skippedRow.value, skippedColumn.value, targetRow, 0)
    modifies result.values
    ensures result.Valid()
    ensures outcome.Fail? <==> m.rows > m.columns
    ensures outcome.Fail? ==> outcome.error == InvalidArgument
    ensures outcome.Pass? ==> SubmatrixUpTo(result.Value(), m, skippedRow.value, skippedColumn.value, targetRow + 1, 0)
  {
    var n, columns := m.rows, m.columns;
    var sourceRow := SkipIndex(targetRow, skippedRow.value);
    for targetColumn := 0 to n - 1
      invariant result.Valid()
      invariant n > columns ==> targetColumn < columns
      invariant SubmatrixUpTo(result.Value(), m, skippedRow.value, skippedColumn.value, targetRow, targetColumn)
    {
      var sourceColumn := SkipIndex(targetColumn, skippedColumn.value);
      var read := Get(m, IndexAt(sourceRow, sourceColumn));
      if read.Err? {
        return Fail(read.error);
      }
      if targetColumn < columns - 1 {
        SubmatrixNext(result.Value(), m, skippedRow.value, skippedColumn.value, targetRow, targetColumn);
      }
      var written := result.Assign(IndexAt(targetRow, targetColumn), read.value);
      if written.Fail? {
        return written;
      }
    }
    SubmatrixNextRow(result.Value(), m, skippedRow.value, skippedColumn.value, targetRow);
    outcome := Pass;
  }

  /** The loops of submatrix, with their checked reads and writes. */
  method SubmatrixLoop(m: Matrix, skippedRow: Row, skippedColumn: Column) returns (r: Result<Matrix>)
    requires SizeTShape(m) && m.rows >= 1 && m.columns >= 1
    ensures r == SubmatrixAsWritten(m, skippedRow.value, skippedColumn.value)
  {
    var n, columns := m.rows, m.columns;
    var result := new MatrixStore(n - 1, columns - 1);
    for targetRow := 0 to n - 1
      invariant result.Valid() && result.rows == n - 1 && result.columns == columns - 1
      invariant targetRow > 0 ==> n <= columns
      invariant SubmatrixUpTo(result.Value(), m, skippedRow.value, skippedColumn.value, targetRow, 0)
    {
      var outcome := SubmatrixTargetRow(result, m, skippedRow, skippedColumn, targetRow);
      if outcome.Fail? {
        return Err(outcome.error);
      }
    }
    if n > columns {
      // n - 1 >= columns >= 1, so the first target row has already failed.
      assert false;
    }
    SubmatrixDone(result.Value(), m, skippedRow.value, skippedColumn.value, n - 1);
    r := Ok(result.Value());
  }

  /** determinant: the 2x2 formula, or the loop over the columns of row 0 that accumulates
      m[0, column] * cofactor(m, 0, column). */
  method ComputeDeterminant(m: Matrix) returns (det: real)
    requires SizeTShape(m) && IsSquare(m) && m.rows >= 2
    ensures det == Determinant(m)
    decreases m.rows, 2
  {
    if m.rows == 2 {
      return Cell(m, 0, 0) * Cell(m, 1, 1) - Cell(m, 0, 1) * Cell(m, 1, 0);
    }
    det := 0.0;
    for column := 0 to m.columns
      invariant det == ExpansionSum(m, column)
    {
      var c := ComputeCofactor(m, 0, column);
      det := det + Cell(m, 0, column) * c;
    }
  }

  /** cofactor: the minor, negated when row + column is odd. */
  method ComputeCofactor(m: Matrix, row: nat, column: nat) returns (c: real)
    requires SizeTShape(m) && IsSquare(m) && m.rows >= 3 && row < m.rows && column < m.columns
    ensures c == Cofactor(m, row, column)
    decreases m.rows, 1
  {
    var resultMinor := ComputeMinor(m, row, column);
    c := if (row + column) % 2 == 1 then -resultMinor else resultMinor;
  }

  /** minor: the determinant of the submatrix, which for a square matrix submatrix computes
      correctly. */
  method ComputeMinor(m: Matrix, row: nat, column: nat) returns (minor: real)
    requires SizeTShape(m) && IsSquare(m) && m.rows >= 3 && row < m.rows && column < m.columns
    ensures minor == Minor(m, row, column)
    decreases m.rows, 0
  {
    SubmatrixAsWrittenOfSquare(m, row, column);
    var sub := SubmatrixLoop(m, RowLiteral(row), ColumnLiteral(column));
    minor := ComputeDeterminant(sub.value);
  }

  /** cofactorsOf: transformCells filling each cell with its cofactor, row after row. */
  method CofactorsOfLoop(m: Matrix) returns (cofactors: Matrix)
    requires SizeTShape(m) && IsSquare(m) && m.rows >= 3
    ensures cofactors == CofactorsOf(m)
  {
    var result := new MatrixStore(m.rows, m.columns);
    ghost var target := CofactorsOf(m);
    for row := 0 to m.rows
      invariant result.Valid() && result.Value().rows == m.rows
      invariant FilledUpTo(result.Value(), target, row, 0)
    {
      for column := 0 to m.columns
        invariant result.Valid()
        invariant FilledUpTo(result.Value(), target, row, column)
      {
        var c := ComputeCofactor(m, row, column);
        AssignFilled(result, target, row, column, c);
      }
      FillNextRow(result.Value(), target, row);
    }
    FilledIsTarget(result.Value(), target);
    cofactors := result.Value();
  }

  /** minorsOf: transformCells filling each cell with its minor, row after row. */
  method MinorsOfLoop(m: Matrix) returns (minors: Matrix)
    requires SizeTShape(m) && IsSquare(m) && m.rows >= 3
    ensures minors == MinorsOf(m)
  {
    var result := new MatrixStore(m.rows, m.columns);
    ghost var target := MinorsOf(m);
    for row := 0 to m.rows
      invariant result.Valid() && result.Value().rows == m.rows
      invariant FilledUpTo(result.Value(), target, row, 0)
    {
      for column := 0 to m.columns
        invariant result.Valid()
        invariant FilledUpTo(result.Value(), target, row, column)
      {
        var c := ComputeMinor(m, row, column);
        AssignFilled(result, target, row, column, c);
      }
      FillNextRow(result.Value(), target, row);
    }
    FilledIsTarget(result.Value(), target);
    minors := result.Value();
  }

  /** invertible: the computed determinant is not zero within Epsilon. */
  method ComputeInvertible(m: Matrix) returns (invertible: bool)
    requires SizeTShape(m) && IsSquare(m) && m.rows >= 2
    ensures invertible == Invertible(m)
  {
    var det := ComputeDeterminant(m);
    invertible := !IsEqual(det, 0.0);
  }

  /** inverse: throws invalid_argument when the determinant is zero within Epsilon, otherwise
      transposes the cofactors and divides them by the determinant. */
  method ComputeInverse(m: Matrix) returns (r: Result<Matrix>)
    requires SizeTShape(m) && IsSquare(m) && m.rows >= 3
    ensures r == Inverse(m)
  {
    var det := ComputeDeterminant(m);
    if IsEqual(det, 0.0) {
      return Err(InvalidArgument);
    }
    var cofactors := CofactorsOfLoop(m);
    var transposed := Transpose(cofactors);
    var inverse := Over(transposed.value, det);
    r := Ok(inverse);
  }
}

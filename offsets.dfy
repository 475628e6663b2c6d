/** Arithmetic facts about row-major offsets `row * columns + column`, shared by the matrix and
    the canvas stores. */
module RowMajorOffsets {

  lemma MulAtLeast(k: int, n: nat)
    requires k >= 1
    ensures k * n >= n
  {
    assert k * n == (k - 1) * n + n;
    assert (k - 1) * n >= 0;
  }

  /** An in-range (row, column) pair has an offset inside the store. */
  lemma {:induction false} OffsetInRange(rows: nat, columns: nat, row: nat, column: nat)
    requires row < rows && column < columns
    ensures row * columns + column < rows * columns
  {
    assert (rows - row) * columns == rows * columns - row * columns;
    MulAtLeast(rows - row, columns);
  }

  /** The offset determines its row and column: they are its quotient and remainder. */
  lemma {:induction false} OffsetSplits(columns: nat, row: nat, column: nat)
    requires column < columns
    ensures (row * columns + column) / columns == row
    ensures (row * columns + column) % columns == column
  {
    var q, m := (row * columns + column) / columns, (row * columns + column) % columns;
    assert q * columns + m == row * columns + column;
    if q > row {
      assert (q - row) * columns == q * columns - row * columns;
      MulAtLeast(q - row, columns);
    } else if q < row {
      assert (row - q) * columns == row * columns - q * columns;
      MulAtLeast(row - q, columns);
    }
  }

  /** Distinct in-range (row, column) pairs have distinct offsets. */
  lemma {:induction false} OffsetInjective(columns: nat, r1: nat, c1: nat, r2: nat, c2: nat)
    requires c1 < columns && c2 < columns
    requires r1 * columns + c1 == r2 * columns + c2
    ensures r1 == r2 && c1 == c2
  {
    OffsetSplits(columns, r1, c1);
    OffsetSplits(columns, r2, c2);
  }

  /** Every offset inside a rows-by-columns store is the offset of an in-range pair. */
  lemma {:induction false} OffsetCovers(rows: nat, columns: nat, i: nat)
    requires i < rows * columns
    ensures columns > 0 && i / columns < rows && i % columns < columns
    ensures (i / columns) * columns + i % columns == i
  {
    if columns > 0 {
      var q := i / columns;
      assert q * columns <= i;
      assert (rows - q) * columns == rows * columns - q * columns;
    }
  }

  /** Advancing one row in row-major order moves the offset by the row length. */
  lemma NextRowOffset(columns: nat, row: nat)
    ensures row * columns + columns == (row + 1) * columns
  {
  }
}

/** A Matrix object whose `values` array the source writes in place: through the non-const
    operator[], and by the compound operators *= and /=. */
module MatrixStores {
  import opened Outcomes
  import opened Indices
  import opened Matrices

  class MatrixStore {
    const rows: nat
    const columns: nat
    /** std::array<double, Rows * Columns>, row after row. */
    const values: array<real>

    ghost predicate Valid()
      reads this
    {
      values.Length == rows * columns
    }

    /** The matrix the store currently holds. */
    function Value(): (m: Matrix)
      reads this, values
      requires Valid()
      ensures m.rows == rows && m.columns == columns
    {
      FromValues(rows, columns, values[..])
    }

    /** `Matrix<Rows, Columns> result{}`: every cell zero. */
    constructor (rows: nat, columns: nat)
      ensures Valid() && fresh(values)
      ensures Value() == Zeros(rows, columns)
    {
      this.rows := rows;
      this.columns := columns;
      values := new real[rows * columns](i => 0.0);
      new;
      assert values[..] == seq(rows * columns, i => 0.0);
      ZerosStore(rows, columns);
    }

    /** A copy of a matrix value, as made by `auto result = identity<4>` or by passing a matrix
        by value. */
    constructor Copy(m: Matrix)
      ensures Valid() && fresh(values)
      ensures Value() == m
    {
      rows := m.rows;
      columns := m.columns;
      var stored := Values(m);
      values := new real[m.rows * m.columns](i requires 0 <= i < |stored| => stored[i]);
      new;
      assert values[..] == stored;
      ValuesRoundTrip(m);
    }

    /** The const operator[]: the cell at `index`, or an invalid argument outside the matrix. */
    method At(index: MatrixIndex) returns (r: Result<real>)
      requires Valid()
      ensures r == Get(Value(), index)
    {
      var offset := ToAbsoluteOffset(Value(), index);
      if offset.Err? {
        return Err(offset.error);
      }
      var x := CellAt(index.row.value, index.column.value);
      r := Ok(x);
    }

    /** The read once toAbsoluteOffset has accepted (row, column). */
    method CellAt(row: nat, column: nat) returns (x: real)
      requires Valid() && row < rows && column < columns
      ensures x == Cell(Value(), row, column)
    {
      ValuesHoldCells(Value(), row, column);
      FromValuesRoundTrip(rows, columns, values[..]);
      x := values[row * columns + column];
    }

    /** Assignment through the non-const operator[]: an invalid argument outside the matrix,
        otherwise exactly the cell at `index` takes the new value. */
    method Assign(index: MatrixIndex, x: real) returns (outcome: Outcome)
      requires Valid()
      modifies values
      ensures Valid()
      ensures outcome.Fail? <==> index.row.value >= rows || index.column.value >= columns
      ensures outcome.Fail? ==> outcome.error == InvalidArgument && values[..] == old(values[..])
      ensures outcome.Pass? ==> Value() == Updated(old(Value()), index.row.value, index.column.value, x)
    {
      var offset := ToAbsoluteOffset(Value(), index);
      if offset.Err? {
        return Fail(offset.error);
      }
      AssignCell(index.row.value, index.column.value, x);
      outcome := Pass;
    }

    /** The write once toAbsoluteOffset has accepted (row, column). */
    method AssignCell(row: nat, column: nat, x: real)
      requires Valid() && row < rows && column < columns
      modifies values
      ensures Valid()
      ensures Value() == Updated(old(Value()), row, column, x)
    {
      StoreWrite(rows, columns, values[..], row, column, x);
      values[row * columns + column] := x;
    }

    /** One step of a loop that rewrites the store in place: the cell at (row, column) takes its
        value from `target`, and the rewritten prefix grows by that cell. */
    method AssignRewritten(ghost before: Matrix, ghost target: Matrix, row: nat, column: nat, x: real)
      requires Valid() && SameShape(Value(), target) && SameShape(before, target)
      requires row < rows && column < columns
      requires RewrittenUpTo(Value(), before, target, row, column) && x == Cell(target, row, column)
      modifies values
      ensures Valid() && RewrittenUpTo(Value(), before, target, row, column + 1)
    {
      RewriteNext(Value(), before, target, row, column);
      AssignCell(row, column, x);
    }

    /** operator*=: every cell multiplied by the factor, in place. */
    method MultiplyBy(factor: real)
      requires Valid()
      modifies values
      ensures Valid()
      ensures Value() == Scaled(old(Value()), factor)
    {
      ghost var target := Scaled(Value(), factor);
      ghost var before := Value();
      for r := 0 to rows
        invariant Valid() && Value().rows == rows
        invariant RewrittenUpTo(Value(), before, target, r, 0)
      {
        for c := 0 to columns
          invariant Valid()
          invariant RewrittenUpTo(Value(), before, target, r, c)
        {
          var current := CellAt(r, c);
          assert current == Cell(before, r, c);
          var x := current * factor;
          assert x == Cell(target, r, c);
          AssignRewritten(before, target, r, c, x);
        }
        RewriteNextRow(Value(), before, target, r);
      }
      FilledIsTarget(Value(), target);
    }

    /** operator/=: every cell divided by the divisor, in place. */
    method DivideBy(divisor: real)
      requires Valid() && divisor != 0.0
      modifies values
      ensures Valid()
      ensures Value() == Divided(old(Value()), divisor)
    {
      ghost var target := Divided(Value(), divisor);
      ghost var before := Value();
      for r := 0 to rows
        invariant Valid() && Value().rows == rows
        invariant RewrittenUpTo(Value(), before, target, r, 0)
      {
        for c := 0 to columns
          invariant Valid()
          invariant RewrittenUpTo(Value(), before, target, r, c)
        {
          var current := CellAt(r, c);
          assert current == Cell(before, r, c);
          var x := current / divisor;
          assert x == Cell(target, r, c);
          AssignRewritten(before, target, r, c, x);
        }
        RewriteNextRow(Value(), before, target, r);
      }
      FilledIsTarget(Value(), target);
    }
  }
}

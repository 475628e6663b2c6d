/** The canvas: a columns x rows buffer of colours, read and written through bounds-checked
    indices or through points of the image plane. */
module Canvases {
  import opened CppStd
  import opened Outcomes
  import opened DoubleComparison
  import opened ValueTypes
  import opened Indices
  import opened Colors
  import opened Points

  /** CanvasIndex, built by `column, row`: a pixel named by its column and its row. */
  datatype CanvasIndex = CanvasIndex(column: Column, row: Row)

  /** Canvas: the colours of its pixels in a heap array of rows * columns cells, row after row. */
  class Canvas {
    const columns: Column
    const rows: Row
    const data: array<Color>

    /** The buffer holds one cell per pixel, and its size is a valid std::size_t. */
    predicate Valid() {
      data.Length == rows.value * columns.value && rows.value * columns.value < SizeTModulus
    }

    /** The index names a pixel of this canvas. */
    predicate InBounds(index: CanvasIndex) {
      index.row.value < rows.value && index.column.value < columns.value
    }

    /** The constructor: the buffer comes from createCanvasData, whose cells are value-initialised
        colours, so every pixel starts black. */
    constructor(columns: Column, rows: Row)
      requires rows.value * columns.value < SizeTModulus
      ensures Valid() && this.columns == columns && this.rows == rows && fresh(data)
      ensures forall i :: 0 <= i < data.Length ==> data[i] == Black
    {
      this.columns := columns;
      this.rows := rows;
      data := new Color[rows.value * columns.value](_ => Black);
    }

    /** checkIndex: an invalid argument unless both the row and the column are in range. */
    function CheckIndex(index: CanvasIndex): (r: Outcome)
      ensures r.Pass? <==> InBounds(index)
      ensures r.Fail? ==> r.error == InvalidArgument
    {
      if GreaterOrEqual(index.row, rows) || GreaterOrEqual(index.column, columns) then Fail(InvalidArgument)
      else Pass
    }

    /** toAbsoluteOffset: the position of the pixel in the row-major buffer; for a pixel of the
        canvas it is a cell of the buffer. */
    function ToAbsoluteOffset(index: CanvasIndex): (offset: SizeT)
      requires Valid()
      ensures InBounds(index) ==> offset == index.row.value * columns.value + index.column.value
      ensures InBounds(index) ==> offset < data.Length
    {
      if InBounds(index) then
        OffsetIsInBuffer(index.row.value, index.column.value, rows.value, columns.value);
        Wrap(index.row.value * columns.value + index.column.value)
      else Wrap(index.row.value * columns.value + index.column.value)
    }

    /** Distinct pixels of the canvas lie in distinct cells of the buffer. */
    lemma OffsetIsInjective(a: CanvasIndex, b: CanvasIndex)
      requires Valid() && InBounds(a) && InBounds(b)
      requires ToAbsoluteOffset(a) == ToAbsoluteOffset(b)
      ensures a == b
    {
      DivisionRecoversIndex(a.row.value, a.column.value, columns.value);
      DivisionRecoversIndex(b.row.value, b.column.value, columns.value);
    }

    /** Every cell of the buffer holds some pixel of the canvas. */
    lemma OffsetIsSurjective(offset: int)
      requires Valid() && 0 <= offset < data.Length
      ensures var index := CanvasIndex(ValueType(offset % columns.value), ValueType(offset / columns.value));
        InBounds(index) && ToAbsoluteOffset(index) == offset
    {
      var row, column := offset / columns.value, offset % columns.value;
      assert row < rows.value by {
        if row >= rows.value {
          assert row * columns.value >= rows.value * columns.value by {
            MultiplicationIsMonotonic(rows.value, row, columns.value);
          }
        }
      }
    }

    /** The const operator[] with a CanvasIndex: the colour of the pixel, after checkIndex. */
    method At(index: CanvasIndex) returns (r: Result<Color>)
      requires Valid()
      ensures r.Err? <==> !InBounds(index)
      ensures r.Err? ==> r.error == InvalidArgument
      ensures r.Ok? ==> r.value == data[ToAbsoluteOffset(index)]
    {
      var check := CheckIndex(index);
      if check.Fail? {
        return Err(check.error);
      }
      r := Ok(data[ToAbsoluteOffset(index)]);
    }

    /** An assignment through the non-const operator[] with a CanvasIndex: after checkIndex the
        pixel's cell takes the colour and every other pixel keeps its own. */
    method Write(index: CanvasIndex, color: Color) returns (r: Outcome)
      requires Valid()
      modifies data
      ensures r.Fail? <==> !InBounds(index)
      ensures r.Fail? ==> r.error == InvalidArgument && data[..] == old(data[..])
      ensures r.Pass? ==> data[..] == old(data[..])[ToAbsoluteOffset(index) := color]
      ensures r.Pass? ==> forall other :: InBounds(other) && other != index
                            ==> data[ToAbsoluteOffset(other)] == old(data[ToAbsoluteOffset(other)])
    {
      r := CheckIndex(index);
      if r.Fail? {
        return;
      }
      data[ToAbsoluteOffset(index)] := color;
      forall other | InBounds(other) && other != index
        ensures ToAbsoluteOffset(other) != ToAbsoluteOffset(index)
      {
        if ToAbsoluteOffset(other) == ToAbsoluteOffset(index) {
          OffsetIsInjective(other, index);
        }
      }
    }

    /** indexFromPoint: column round(x) and row rows - round(y), both as std::size_t, so the
        subtraction wraps around when round(y) exceeds the number of rows. */
    function IndexFromPoint(point: Point): (index: CanvasIndex)
      ensures index.column.value == RoundDouble(point.x)
      ensures RoundDouble(point.y) <= rows.value ==> index.row.value == rows.value - RoundDouble(point.y)
      ensures RoundDouble(point.y) > rows.value ==> index.row.value == rows.value - RoundDouble(point.y) + SizeTModulus
    {
      CanvasIndex(ValueType(RoundDouble(point.x)), Minus(rows, ValueType(RoundDouble(point.y))))
    }

    /** A point names a pixel exactly when its rounded x is a column and its rounded y lies in
        1 .. rows: a rounded y of zero, or one beyond the rows, lands outside the canvas. */
    lemma {:induction false} PointInBounds(point: Point)
      ensures InBounds(IndexFromPoint(point))
        <==> RoundDouble(point.x) < columns.value && 1 <= RoundDouble(point.y) <= rows.value
    {
      var y := RoundDouble(point.y);
      if y > rows.value {
        assert IndexFromPoint(point).row.value >= rows.value;
      }
    }

    /** The const operator[] with a Point: the pixel the point maps to, after checkIndex. */
    method AtPoint(point: Point) returns (r: Result<Color>)
      requires Valid()
      ensures r.Err? <==> !InBounds(IndexFromPoint(point))
      ensures r.Err? ==> r.error == InvalidArgument
      ensures r.Ok? ==> r.value == data[ToAbsoluteOffset(IndexFromPoint(point))]
    {
      var index := IndexFromPoint(point);
      r := At(index);
    }

    /** An assignment through the non-const operator[] with a Point. */
    method WritePoint(point: Point, color: Color) returns (r: Outcome)
      requires Valid()
      modifies data
      ensures r.Fail? <==> !InBounds(IndexFromPoint(point))
      ensures r.Fail? ==> r.error == InvalidArgument && data[..] == old(data[..])
      ensures r.Pass? ==> data[..] == old(data[..])[ToAbsoluteOffset(IndexFromPoint(point)) := color]
    {
      var index := IndexFromPoint(point);
      r := Write(index, color);
    }
  }

  /** Row r of a buffer with c columns starts at cell r * c; a pixel of the canvas is in the buffer. */
  lemma {:induction false} OffsetIsInBuffer(row: nat, column: nat, rows: nat, columns: nat)
    requires row < rows && column < columns
    ensures row * columns + column < rows * columns
  {
    MultiplicationIsMonotonic(row + 1, rows, columns);
  }

  /** A whole row of the buffer lies inside it. */
  lemma {:induction false} RowIsInBuffer(row: nat, rows: nat, columns: nat)
    requires row < rows
    ensures row * columns + columns <= rows * columns
  {
    MultiplicationIsMonotonic(row + 1, rows, columns);
    assert (row + 1) * columns == row * columns + columns;
  }

  /** Dividing an offset by the number of columns gives its row back, the remainder its column. */
  lemma {:induction false} DivisionRecoversIndex(row: nat, column: nat, columns: nat)
    requires column < columns
    ensures (row * columns + column) / columns == row && (row * columns + column) % columns == column
  {
    var n := row * columns + column;
    var q, m := n / columns, n % columns;
    assert (q - row) * columns == column - m;
    if q > row {
      MultiplicationIsMonotonic(1, q - row, columns);
    } else if q < row {
      MultiplicationIsMonotonic(1, row - q, columns);
    }
  }

  /** Multiplying by a natural number keeps the order. */
  lemma {:induction false} MultiplicationIsMonotonic(a: nat, b: nat, c: nat)
    requires a <= b
    ensures a * c <= b * c
  {
  }

  /** A fresh 20 x 10 canvas is black; red written to pixel (3, 2) is read back from it. */
  method SetPixelColorToRed() returns (before: Result<Color>, after: Result<Color>)
    ensures before == Ok(Black) && after == Ok(Red)
  {
    var canvas := new Canvas(ColumnLiteral(20), RowLiteral(10));
    var index := CanvasIndex(ColumnLiteral(3), RowLiteral(2));
    before := canvas.At(index);
    var written := canvas.Write(index, Red);
    after := canvas.At(index);
  }

  /** On a 20 x 10 canvas, row 10, column 20, and both are out of range. */
  method OutOfRangeAccessThrows() returns (rowOut: Result<Color>, columnOut: Result<Color>, bothOut: Result<Color>)
    ensures rowOut == Err(InvalidArgument) && columnOut == Err(InvalidArgument) && bothOut == Err(InvalidArgument)
  {
    var canvas := new Canvas(ColumnLiteral(20), RowLiteral(10));
    rowOut := canvas.At(CanvasIndex(ColumnLiteral(10), RowLiteral(10)));
    columnOut := canvas.At(CanvasIndex(ColumnLiteral(20), RowLiteral(9)));
    bothOut := canvas.At(CanvasIndex(ColumnLiteral(20), RowLiteral(10)));
  }
}

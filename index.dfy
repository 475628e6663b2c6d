/** Row and column indices, their literals, and the half-open Range they are counted through. */
module Indices {
  import opened CppStd
  import opened Outcomes
  import opened ValueTypes

  datatype RowTag = RowTag
  datatype ColumnTag = ColumnTag

  /** Row: a std::size_t row index. */
  type Row = ValueType<RowTag>

  /** Column: a std::size_t column index. */
  type Column = ValueType<ColumnTag>

  /** The literal `n_row`. */
  function RowLiteral(n: SizeT): (r: Row)
    ensures r.value == n
  {
    ValueType(n)
  }

  /** The literal `n_column`. */
  function ColumnLiteral(n: SizeT): (c: Column)
    ensures c.value == n
  {
    ValueType(n)
  }

  /** A half-open range [beginValue, endValue) of indices of one kind. */
  datatype Range<Tag> = Range(beginValue: ValueType<Tag>, endValue: ValueType<Tag>)

  /** The Range constructor: a range whose end is before its begin is a logic error. */
  function MakeRange<Tag>(begin: ValueType<Tag>, end: ValueType<Tag>): (r: Result<Range<Tag>>)
    ensures r.Err? <==> end.value < begin.value
    ensures r.Err? ==> r.error == LogicError
    ensures r.Ok? ==> r.value.beginValue == begin && r.value.endValue == end
  {
    if Less(end, begin) then Err(LogicError) else Ok(Range(begin, end))
  }

  /** The indices a counting iterator visits from begin() to end(). */
  function Elements<Tag>(range: Range<Tag>): (s: seq<ValueType<Tag>>)
    requires range.beginValue.value <= range.endValue.value
    ensures |s| == range.endValue.value - range.beginValue.value
    ensures forall i :: 0 <= i < |s| ==> s[i].value == range.beginValue.value + i
  {
    seq(range.endValue.value - range.beginValue.value,
        i requires 0 <= i < range.endValue.value - range.beginValue.value =>
          ValueType(range.beginValue.value + i))
  }

  /** A range built without error visits every index from begin up to, not including, end,
      each once, in increasing order. */
  lemma RangeVisitsEachIndexOnce<Tag>(begin: ValueType<Tag>, end: ValueType<Tag>)
    requires MakeRange(begin, end).Ok?
    ensures var s := Elements(MakeRange(begin, end).value);
      (forall v: ValueType<Tag> :: v in s <==> begin.value <= v.value < end.value) &&
      (forall i, j :: 0 <= i < j < |s| ==> s[i].value < s[j].value)
  {
    var s := Elements(MakeRange(begin, end).value);
    forall v: ValueType<Tag> | begin.value <= v.value < end.value
      ensures v in s
    {
      assert s[v.value - begin.value] == v;
    }
  }
}

/** ValueType and the Numeric mixins: a std::size_t wrapped in a distinct type per tag, with
    increment, decrement, addition, subtraction and ordering on the wrapped value. */
module ValueTypes {
  import opened CppStd

  /** ValueType<std::size_t, CRTP>: `Tag` keeps row and column indices apart. */
  datatype ValueType<Tag> = ValueType(value: SizeT)

  /** Prefix ++: the value grows by one, modulo 2^64. */
  function Increment<Tag>(t: ValueType<Tag>): (r: ValueType<Tag>)
    ensures t.value < SizeTModulus - 1 ==> r.value == t.value + 1
    ensures t.value == SizeTModulus - 1 ==> r.value == 0
  {
    ValueType(Wrap(t.value + 1))
  }

  /** Postfix ++: the previous value is returned and the variable is incremented. */
  function PostIncrement<Tag>(t: ValueType<Tag>): (r: (ValueType<Tag>, ValueType<Tag>))
    ensures r.0 == t && r.1 == Increment(t)
  {
    (t, Increment(t))
  }

  /** Prefix --: the value shrinks by one, modulo 2^64. */
  function Decrement<Tag>(t: ValueType<Tag>): (r: ValueType<Tag>)
    ensures t.value > 0 ==> r.value == t.value - 1
    ensures t.value == 0 ==> r.value == SizeTModulus - 1
  {
    ValueType(Wrap(t.value - 1))
  }

  /** Postfix --: the previous value is returned and the variable is decremented. */
  function PostDecrement<Tag>(t: ValueType<Tag>): (r: (ValueType<Tag>, ValueType<Tag>))
    ensures r.0 == t && r.1 == Decrement(t)
  {
    (t, Decrement(t))
  }

  /** operator+ and operator+= (the latter stores this sum in its left operand). */
  function Plus<Tag>(lhs: ValueType<Tag>, rhs: ValueType<Tag>): (r: ValueType<Tag>)
    ensures lhs.value + rhs.value < SizeTModulus ==> r.value == lhs.value + rhs.value
    ensures lhs.value + rhs.value >= SizeTModulus ==> r.value == lhs.value + rhs.value - SizeTModulus
  {
    ValueType(Wrap(lhs.value + rhs.value))
  }

  /** operator- and operator-= (the latter stores this difference in its left operand). */
  function Minus<Tag>(lhs: ValueType<Tag>, rhs: ValueType<Tag>): (r: ValueType<Tag>)
    ensures rhs.value <= lhs.value ==> r.value == lhs.value - rhs.value
    ensures lhs.value < rhs.value ==> r.value == lhs.value - rhs.value + SizeTModulus
  {
    ValueType(Wrap(lhs.value - rhs.value))
  }

  predicate Less<Tag>(lhs: ValueType<Tag>, rhs: ValueType<Tag>) {
    lhs.value < rhs.value
  }

  predicate Greater<Tag>(lhs: ValueType<Tag>, rhs: ValueType<Tag>) {
    Less(rhs, lhs)
  }

  predicate LessOrEqual<Tag>(lhs: ValueType<Tag>, rhs: ValueType<Tag>) {
    !Greater(lhs, rhs)
  }

  predicate GreaterOrEqual<Tag>(lhs: ValueType<Tag>, rhs: ValueType<Tag>) {
    !Less(lhs, rhs)
  }

  /** Increment and decrement undo each other, across the wrap-around too. */
  lemma IncrementDecrementInverse<Tag>(t: ValueType<Tag>)
    ensures Decrement(Increment(t)) == t
    ensures Increment(Decrement(t)) == t
  {
  }

  /** Subtracting what was added gives the original value back, across the wrap-around too. */
  lemma PlusMinusInverse<Tag>(a: ValueType<Tag>, b: ValueType<Tag>)
    ensures Minus(Plus(a, b), b) == a
    ensures Plus(Minus(a, b), b) == a
  {
  }

  /** The derived comparisons form a total order whose equivalence is equality of values. */
  lemma OrderIsTotal<Tag>(a: ValueType<Tag>, b: ValueType<Tag>, c: ValueType<Tag>)
    ensures LessOrEqual(a, b) <==> Less(a, b) || a == b
    ensures GreaterOrEqual(a, b) <==> LessOrEqual(b, a)
    ensures LessOrEqual(a, b) || LessOrEqual(b, a)
    ensures LessOrEqual(a, b) && LessOrEqual(b, a) ==> a == b
    ensures Less(a, b) && Less(b, c) ==> Less(a, c)
    ensures !(Less(a, b) && Less(b, a))
  {
  }
}

/** Tolerance comparison of doubles and the rounding of a double to a size. */
module DoubleComparison {
  import opened CppStd

  /** epsilon<T>: the comparison tolerance for every floating-point type. */
  const Epsilon: real := 0.000001

  function Abs(x: real): real {
    if x < 0.0 then -x else x
  }

  /** isEqual: two doubles are equal when they differ by strictly less than Epsilon. */
  predicate IsEqual(lhs: real, rhs: real) {
    Abs(lhs - rhs) < Epsilon
  }

  /** roundDouble: std::lround, then a conversion to std::size_t (negative values wrap). The
      `long` that std::lround returns is unspecified when the rounding lies outside its range,
      so nothing is promised there. */
  function RoundDouble(value: real): (r: SizeT)
    ensures 0 <= Round(value) < LongLimit ==> r == Round(value) && r as real - 0.5 <= value <= r as real + 0.5
    ensures -LongLimit <= Round(value) < 0 ==> r == Round(value) + SizeTModulus
  {
    Wrap(Round(value))
  }

  /** IsEqual is reflexive and symmetric, and values Epsilon or more apart are unequal. */
  lemma IsEqualTolerance(a: real, b: real)
    ensures IsEqual(a, a)
    ensures IsEqual(a, b) <==> IsEqual(b, a)
    ensures IsEqual(a, b) <==> a - Epsilon < b < a + Epsilon
  {
  }

  /** IsEqual is not transitive: a chain of near-equal values can end far away. */
  lemma IsEqualNotTransitive()
    ensures IsEqual(0.0, 0.0000006) && IsEqual(0.0000006, 0.0000012) && !IsEqual(0.0, 0.0000012)
  {
  }

  /** Halves round away from zero: 2.5 becomes 3, and -0.5 wraps to the largest size. */
  lemma RoundDoubleExamples()
    ensures RoundDouble(2.5) == 3 && RoundDouble(2.49) == 2 && RoundDouble(0.0) == 0
    ensures RoundDouble(-0.5) == SizeTModulus - 1
  {
  }
}

/** Coordinate<SubType>: the x, y, z storage and the tolerant equality shared by Point and
    Direction. The phantom parameter `Sub` keeps the two kinds of tuple distinct types. */
module Coordinates {
  import opened DoubleComparison

  datatype Coordinate<Sub> = Coordinate(x: real, y: real, z: real)

  /** The default constructor: every component is zero. */
  function Zero<Sub>(): (c: Coordinate<Sub>)
    ensures c.x == 0.0 && c.y == 0.0 && c.z == 0.0
  {
    Coordinate(0.0, 0.0, 0.0)
  }

  /** operator==: every component pair is equal within Epsilon. */
  predicate Equals<Sub>(lhs: Coordinate<Sub>, rhs: Coordinate<Sub>) {
    IsEqual(lhs.x, rhs.x) && IsEqual(lhs.y, rhs.y) && IsEqual(lhs.z, rhs.z)
  }

  /** operator!=, derived from operator==. */
  predicate NotEquals<Sub>(lhs: Coordinate<Sub>, rhs: Coordinate<Sub>) {
    !Equals(lhs, rhs)
  }

  /** Tolerant equality is reflexive and symmetric, and holds of any two tuples closer than
      Epsilon in every component. */
  lemma EqualsTolerance<Sub>(a: Coordinate<Sub>, b: Coordinate<Sub>)
    ensures Equals(a, a)
    ensures Equals(a, b) <==> Equals(b, a)
    ensures Equals(a, b) <==> Abs(a.x - b.x) < Epsilon && Abs(a.y - b.y) < Epsilon && Abs(a.z - b.z) < Epsilon
  {
  }

  /** A difference of 0.1 in a single component makes two tuples unequal. */
  lemma TenthApartIsUnequal<Sub>(a: Coordinate<Sub>)
    ensures NotEquals(a, Coordinate(a.x + 0.1, a.y, a.z))
    ensures NotEquals(a, Coordinate(a.x, a.y - 0.1, a.z))
    ensures NotEquals(a, Coordinate(a.x, a.y, a.z + 0.1))
  {
  }
}

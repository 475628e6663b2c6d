/** Direction: a vector in space, with vector arithmetic, length, normalisation, dot and cross
    products. The compound assignments of the source are functions returning the updated value. */
module Directions {
  import opened CppStd
  import opened Outcomes
  import opened DoubleComparison
  import opened Coordinates

  datatype DirectionTag = DirectionTag

  type Direction = Coordinate<DirectionTag>

  /** operator+= (and the derived operator+). */
  function Add(lhs: Direction, rhs: Direction): (r: Direction)
    ensures r.x == lhs.x + rhs.x && r.y == lhs.y + rhs.y && r.z == lhs.z + rhs.z
  {
    Coordinate(lhs.x + rhs.x, lhs.y + rhs.y, lhs.z + rhs.z)
  }

  /** Unary operator-. */
  function Negate(d: Direction): (r: Direction)
    ensures r.x == -d.x && r.y == -d.y && r.z == -d.z
  {
    Coordinate(-d.x, -d.y, -d.z)
  }

  /** operator-= (and the derived operator-): addition of the negated right operand. */
  function Subtract(lhs: Direction, rhs: Direction): (r: Direction)
    ensures r.x == lhs.x - rhs.x && r.y == lhs.y - rhs.y && r.z == lhs.z - rhs.z
  {
    Add(lhs, Negate(rhs))
  }

  /** operator*= with a factor (and the derived operator*). */
  function Scale(d: Direction, factor: real): (r: Direction)
  {
    Coordinate(d.x * factor, d.y * factor, d.z * factor)
  }

  /** operator/=: multiplication by the reciprocal of the factor. */
  function Divide(d: Direction, factor: real): (r: Direction)
    requires factor != 0.0
    ensures r.x == d.x / factor && r.y == d.y / factor && r.z == d.z / factor
    ensures Scale(r, factor) == d
  {
    Scale(d, 1.0 / factor)
  }

  /** dot: the sum of the component products. */
  function Dot(lhs: Direction, rhs: Direction): real {
    lhs.x * rhs.x + lhs.y * rhs.y + lhs.z * rhs.z
  }

  /** cross: the vector product, orthogonal to both operands. */
  function Cross(lhs: Direction, rhs: Direction): (r: Direction)
    ensures Dot(r, lhs) == 0.0 && Dot(r, rhs) == 0.0
  {
    Coordinate(lhs.y * rhs.z - lhs.z * rhs.y, lhs.z * rhs.x - lhs.x * rhs.z, lhs.x * rhs.y - lhs.y * rhs.x)
  }

  /** magnitude: the square root of the sum of the squared components, that is of Dot(d, d). */
  ghost function Magnitude(d: Direction): (r: real)
    ensures r >= 0.0
    ensures HasSquareRoot(Dot(d, d)) ==> r * r == Dot(d, d)
  {
    Sqrt(Dot(d, d))
  }

  /** normalize: the direction divided by its magnitude; a magnitude equal to zero within
      Epsilon is an invalid argument. */
  ghost function Normalize(d: Direction): (r: Result<Direction>)
    ensures r.Err? <==> IsEqual(Magnitude(d), 0.0)
    ensures r.Err? ==> r.error == InvalidArgument
    ensures r.Ok? ==> Magnitude(d) != 0.0 && r.value == Divide(d, Magnitude(d))
  {
    var mag := Magnitude(d);
    if IsEqual(mag, 0.0) then Err(InvalidArgument) else Ok(Coordinate(d.x / mag, d.y / mag, d.z / mag))
  }

  /** A direction whose squared components sum to m * m has magnitude m. */
  lemma {:induction false} MagnitudeOfScaled(d: Direction, m: real)
    requires m >= 0.0
    requires d.x * d.x + d.y * d.y + d.z * d.z == m * m
    ensures Magnitude(d) == m
  {
    assert Dot(d, d) == m * m;
    SqrtOfSquare(m);
  }

  /** A normalised direction has magnitude 1. */
  lemma {:induction false} NormalizedHasUnitMagnitude(d: Direction)
    requires HasSquareRoot(Dot(d, d))
    requires Normalize(d).Ok?
    ensures Dot(Normalize(d).value, Normalize(d).value) == 1.0
    ensures Magnitude(Normalize(d).value) == 1.0
  {
    var m := Magnitude(d);
    var n := Normalize(d).value;
    assert m * m == d.x * d.x + d.y * d.y + d.z * d.z;
    assert n.x * n.x == d.x * d.x / (m * m);
    assert n.y * n.y == d.y * d.y / (m * m);
    assert n.z * n.z == d.z * d.z / (m * m);
    assert n.x * n.x + n.y * n.y + n.z * n.z == (d.x * d.x + d.y * d.y + d.z * d.z) / (m * m);
    MagnitudeOfScaled(n, 1.0);
  }

  /** Normalising a direction of magnitude 1 leaves it unchanged. */
  lemma {:induction false} NormalizeUnitIsIdentity(d: Direction)
    requires d.x * d.x + d.y * d.y + d.z * d.z == 1.0
    ensures Normalize(d) == Ok(d)
  {
    MagnitudeOfScaled(d, 1.0);
  }

  /** Normalising is idempotent: a normalised direction normalises to itself. */
  lemma {:induction false} NormalizeIsIdempotent(d: Direction)
    requires HasSquareRoot(Dot(d, d))
    requires Normalize(d).Ok?
    ensures Magnitude(Normalize(d).value) == 1.0
    ensures Normalize(Normalize(d).value) == Normalize(d)
  {
    NormalizedHasUnitMagnitude(d);
    NormalizeUnitIsIdentity(Normalize(d).value);
  }

  /** The default direction has magnitude 0 and cannot be normalised. */
  lemma {:induction false} ZeroCannotBeNormalized(d: Direction)
    requires d.x == 0.0 && d.y == 0.0 && d.z == 0.0
    ensures Magnitude(d) == 0.0 && Normalize(d) == Err(InvalidArgument)
  {
    MagnitudeOfScaled(d, 0.0);
  }

  /** The unit axes have magnitude 1. */
  lemma {:induction false} AxesHaveUnitMagnitude(d: Direction)
    requires d == Coordinate(1.0, 0.0, 0.0) || d == Coordinate(0.0, 1.0, 0.0) || d == Coordinate(0.0, 0.0, 1.0)
    ensures Magnitude(d) == 1.0
  {
    MagnitudeOfScaled(d, 1.0);
  }

  /** Normalising (4, 0, 0) gives the x axis. */
  lemma {:induction false} NormalizeExample(d: Direction)
    requires d.x == 4.0 && d.y == 0.0 && d.z == 0.0
    ensures Normalize(d).Ok?
    ensures Normalize(d).value.x == 1.0 && Normalize(d).value.y == 0.0 && Normalize(d).value.z == 0.0
  {
    MagnitudeOfScaled(d, 4.0);
  }

  /** The negation is the additive inverse and subtraction undoes addition. */
  lemma {:induction false} InverseLaws(a: Direction, b: Direction)
    ensures Add(a, Negate(a)) == Zero()
    ensures Add(Subtract(a, b), b) == a && Subtract(Add(a, b), b) == a
  {
  }

  /** The dot product is symmetric; the cross product is anti-symmetric. */
  lemma ProductLaws(a: Direction, b: Direction)
    ensures Dot(a, b) == Dot(b, a)
    ensures Cross(a, b) == Negate(Cross(b, a))
  {
  }

  /** The dot and cross products of (1, 2, 3) and (2, 3, 4). */
  lemma DotCrossExamples()
    ensures Dot(Coordinate(1.0, 2.0, 3.0), Coordinate(2.0, 3.0, 4.0)) == 20.0
    ensures Cross(Coordinate(1.0, 2.0, 3.0), Coordinate(2.0, 3.0, 4.0)) == Coordinate(-1.0, 2.0, -1.0)
    ensures Cross(Coordinate(2.0, 3.0, 4.0), Coordinate(1.0, 2.0, 3.0)) == Coordinate(1.0, -2.0, 1.0)
  {
  }
}

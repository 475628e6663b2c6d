/** Ray: an origin and a direction, immutable once built. */
module Rays {
  import opened DoubleComparison
  import Coordinates
  import opened Directions
  import opened Points
  import opened Matrices
  import opened Transformations

  datatype Ray = Ray(origin: Point, direction: Direction)

  /** The default ray: zero origin and zero direction. */
  const DefaultRay: Ray := Ray(Coordinates.Zero(), Coordinates.Zero())

  /** operator==: origins equal and directions equal, each within Epsilon per component. */
  predicate Equals(lhs: Ray, rhs: Ray) {
    Coordinates.Equals(lhs.origin, rhs.origin) && Coordinates.Equals(lhs.direction, rhs.direction)
  }

  /** position: the point reached after travelling `time` units of the direction. */
  function Position(ray: Ray, time: real): (p: Point)
  {
    Displace(ray.origin, Scale(ray.direction, time))
  }

  /** transform: the transformation applied to the origin (as a point) and to the direction (as a
      direction). */
  function Transform(ray: Ray, m: Matrix): (r: Ray)
    requires IsTransform(m)
  {
    Ray(MultiplyPoint(m, ray.origin), MultiplyDirection(m, ray.direction))
  }

  /** Ray equality is reflexive and symmetric, and compares all six components within Epsilon;
      the default ray is all zero. */
  lemma {:induction false} EqualsTolerance(a: Ray, b: Ray)
    ensures Equals(a, a)
    ensures Equals(a, b) <==> Equals(b, a)
    ensures Equals(a, b) <==> (IsEqual(a.origin.x, b.origin.x) && IsEqual(a.origin.y, b.origin.y)
      && IsEqual(a.origin.z, b.origin.z) && IsEqual(a.direction.x, b.direction.x)
      && IsEqual(a.direction.y, b.direction.y) && IsEqual(a.direction.z, b.direction.z))
    ensures DefaultRay.origin == Coordinates.Coordinate(0.0, 0.0, 0.0)
    ensures DefaultRay.direction == Coordinates.Coordinate(0.0, 0.0, 0.0)
  {
    Coordinates.EqualsTolerance(a.origin, b.origin);
    Coordinates.EqualsTolerance(a.direction, b.direction);
  }

  /** Rays whose origins differ by 1 in x are unequal. */
  lemma {:induction false} RayInequalityExample(a: Ray, b: Ray)
    requires a.direction == b.direction && a.origin.y == b.origin.y && a.origin.z == b.origin.z
    requires b.origin.x == a.origin.x + 1.0
    ensures !Equals(a, b)
  {
  }

  /** At time 0 the ray is at its origin; positions at two times differ by the direction scaled
      by the time difference. */
  lemma {:induction false} PositionLaws(ray: Ray, t: real, s: real)
    ensures Position(ray, 0.0) == ray.origin
    ensures Difference(Position(ray, t), Position(ray, s)) == Scale(ray.direction, t - s)
  {
    var d := ray.direction;
    assert d.x * t - d.x * s == d.x * (t - s);
    assert d.y * t - d.y * s == d.y * (t - s);
    assert d.z * t - d.z * s == d.z * (t - s);
  }

  /** The ray from (2, 3, 4) along x at times 0, 1, -2 and 2.5. */
  lemma {:induction false} PositionExamples(ray: Ray)
    requires ray == Ray(Coordinates.Coordinate(2.0, 3.0, 4.0), Coordinates.Coordinate(1.0, 0.0, 0.0))
    ensures Position(ray, 0.0) == Coordinates.Coordinate(2.0, 3.0, 4.0)
    ensures Position(ray, 1.0) == Coordinates.Coordinate(3.0, 3.0, 4.0)
    ensures Position(ray, -2.0) == Coordinates.Coordinate(0.0, 3.0, 4.0)
    ensures Position(ray, 2.5) == Coordinates.Coordinate(4.5, 3.0, 4.0)
  {
  }

  /** Transforming a ray maps each of its positions: the position of the transformed ray at time t
      is the transformed position of the ray at time t. */
  lemma {:induction false} TransformMapsPositions(ray: Ray, m: Matrix, t: real)
    requires IsTransform(m)
    ensures Position(Transform(ray, m), t) == MultiplyPoint(m, Position(ray, t))
  {
    var moved, image := Position(Transform(ray, m), t), MultiplyPoint(m, Position(ray, t));
    PositionComponents(Transform(ray, m), t);
    assert moved.x == image.x by { PositionRow(ray, m, t, 0); }
    assert moved.y == image.y by { PositionRow(ray, m, t, 1); }
    assert moved.z == image.z by { PositionRow(ray, m, t, 2); }
  }

  /** Row i of TransformMapsPositions. */
  lemma {:induction false} PositionRow(ray: Ray, m: Matrix, t: real, i: nat)
    requires IsTransform(m) && i < 3
    ensures var o, d, p := ray.origin, ray.direction, Position(ray, t);
      Cell(m, i, 0) * p.x + Cell(m, i, 1) * p.y + Cell(m, i, 2) * p.z + Cell(m, i, 3)
        == Cell(m, i, 0) * o.x + Cell(m, i, 1) * o.y + Cell(m, i, 2) * o.z + Cell(m, i, 3)
          + (Cell(m, i, 0) * d.x + Cell(m, i, 1) * d.y + Cell(m, i, 2) * d.z) * t
  {
    var o, d, p := ray.origin, ray.direction, Position(ray, t);
    PositionComponents(ray, t);
    RowIsLinear(Cell(m, i, 0), Cell(m, i, 1), Cell(m, i, 2), Cell(m, i, 3), o, d, t, p,
                Cell(m, i, 0) * o.x + Cell(m, i, 1) * o.y + Cell(m, i, 2) * o.z + Cell(m, i, 3),
                Cell(m, i, 0) * d.x + Cell(m, i, 1) * d.y + Cell(m, i, 2) * d.z,
                Cell(m, i, 0) * p.x + Cell(m, i, 1) * p.y + Cell(m, i, 2) * p.z + Cell(m, i, 3));
  }

  /** The components of a position along a ray. */
  lemma {:induction false} PositionComponents(ray: Ray, t: real)
    ensures var p := Position(ray, t);
      p.x == ray.origin.x + ray.direction.x * t && p.y == ray.origin.y + ray.direction.y * t
      && p.z == ray.origin.z + ray.direction.z * t
  {
  }

  /** A row (a, b, c, w) of a matrix applied to the point p = o + d t is the row applied to o
      plus t times the row applied to d. */
  lemma {:induction false} RowIsLinear(a: real, b: real, c: real, w: real, o: Point, d: Direction, t: real,
                                       p: Point, atOrigin: real, atDirection: real, atPosition: real)
    requires p.x == o.x + d.x * t && p.y == o.y + d.y * t && p.z == o.z + d.z * t
    requires atOrigin == a * o.x + b * o.y + c * o.z + w
    requires atDirection == a * d.x + b * d.y + c * d.z
    requires atPosition == a * p.x + b * p.y + c * p.z + w
    ensures atPosition == atOrigin + atDirection * t
  {
    calc {
      atPosition;
      a * (o.x + d.x * t) + b * (o.y + d.y * t) + c * (o.z + d.z * t) + w;
      a * o.x + b * o.y + c * o.z + w + (a * d.x + b * d.y + c * d.z) * t;
    }
  }

  /** Translating a ray moves its origin and keeps its direction. */
  lemma {:induction false} TranslatingARay(ray: Ray, x: real, y: real, z: real)
    ensures Transform(ray, TranslationMatrix(x, y, z))
      == Ray(Displace(ray.origin, Coordinates.Coordinate(x, y, z)), ray.direction)
  {
    TranslationMovesPointsOnly(x, y, z, ray.origin, ray.direction);
  }

  /** Scaling a ray scales both its origin and its direction. */
  lemma {:induction false} ScalingARay(ray: Ray, x: real, y: real, z: real)
    ensures Transform(ray, ScalingMatrix(x, y, z))
      == Ray(Coordinates.Coordinate(x * ray.origin.x, y * ray.origin.y, z * ray.origin.z),
             Coordinates.Coordinate(x * ray.direction.x, y * ray.direction.y, z * ray.direction.z))
  {
    ScalingScales(x, y, z, ray.origin, ray.direction);
  }
}

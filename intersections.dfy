/** The ray-sphere intersection engine: intersection records, the two-slot result of intersect,
    the quadratic that intersect solves, and the selection of the visible hit. */
module Intersections {
  import opened CppStd
  import opened Outcomes
  import opened DoubleComparison
  import Coordinates
  import opened Directions
  import opened Points
  import opened Matrices
  import opened Determinants
  import opened DeterminantLaws
  import opened Transformations
  import opened Rays
  import Spheres

  /** Intersection: the time along the ray and the object hit (std::variant of one shape). */
  datatype Intersection = Intersection(time: real, shape: Spheres.Sphere)

  /** The default intersection: time 0 on the default sphere. */
  const DefaultIntersection: Intersection := Intersection(0.0, Spheres.DefaultSphere)

  /** Intersection::operator==: the times are exactly equal (no tolerance) and the objects are
      equal as spheres, that is by position. */
  predicate IntersectionEquals(lhs: Intersection, rhs: Intersection) {
    lhs.time == rhs.time && Spheres.Equals(lhs.shape, rhs.shape)
  }

  /** The storage of IntersectionResult: two slots and the number of them in use. */
  datatype IntersectionSlots = IntersectionSlots(times: seq<Intersection>, count: SizeT)

  /** IntersectionResult: always two slots; its constructors set count to 0 or 2. */
  type IntersectionResult = r: IntersectionSlots | |r.times| == 2 && (r.count == 0 || r.count == 2)
    witness IntersectionSlots([Intersection(0.0, Spheres.DefaultSphere), Intersection(0.0, Spheres.DefaultSphere)], 0)

  /** The default IntersectionResult: no intersection, two default records. */
  const NoIntersections: IntersectionResult := IntersectionSlots([DefaultIntersection, DefaultIntersection], 0)

  /** IntersectionResult(shape, first, second): two records on the same shape. */
  function TwoIntersections(shape: Spheres.Sphere, first: real, second: real): (r: IntersectionResult)
    ensures r.count == 2 && r.times[0].time == first && r.times[1].time == second
    ensures r.times[0].shape == shape && r.times[1].shape == shape
  {
    IntersectionSlots([Intersection(first, shape), Intersection(second, shape)], 2)
  }

  /** IntersectionResult::operator[]: an invalid argument for an index at or beyond count,
      otherwise the record in that slot. */
  function At(r: IntersectionResult, index: SizeT): (i: Result<Intersection>)
    ensures i.Err? <==> index >= r.count
    ensures i.Err? ==> i.error == InvalidArgument
    ensures i.Ok? ==> index < 2 && i.value == r.times[index]
  {
    if index >= r.count then Err(InvalidArgument) else Ok(r.times[index])
  }

  /** IntersectionResult::operator==: equal counts and equal records slot by slot. */
  predicate ResultEquals(lhs: IntersectionResult, rhs: IntersectionResult) {
    lhs.count == rhs.count && IntersectionEquals(lhs.times[0], rhs.times[0])
    && IntersectionEquals(lhs.times[1], rhs.times[1])
  }

  /** Every index of the default result is out of range, and a two-record result gives back
      its records at indices 0 and 1 and nothing beyond. */
  lemma {:induction false} ResultAccess(shape: Spheres.Sphere, first: real, second: real, index: SizeT)
    ensures At(NoIntersections, index) == Err(InvalidArgument)
    ensures At(TwoIntersections(shape, first, second), 0) == Ok(Intersection(first, shape))
    ensures At(TwoIntersections(shape, first, second), 1) == Ok(Intersection(second, shape))
    ensures index >= 2 ==> At(TwoIntersections(shape, first, second), index) == Err(InvalidArgument)
  {
  }

  /** Results are equal only with equal counts; the times are compared exactly, so records a
      millionth apart differ. */
  lemma {:induction false} ResultEqualityExamples(shape: Spheres.Sphere, first: real, second: real)
    ensures !ResultEquals(NoIntersections, TwoIntersections(shape, first, second))
    ensures ResultEquals(TwoIntersections(shape, first, second), TwoIntersections(shape, first, second))
    ensures !ResultEquals(TwoIntersections(shape, first, second), TwoIntersections(shape, first + 0.000001, second))
  {
    Coordinates.EqualsTolerance(shape.position, shape.position);
  }

  /** The coefficients a, b, c of the quadratic a t^2 + b t + c = 0 whose roots are the times at
      which the ray is at distance 1 from the centre. */
  datatype Quadratic = Quadratic(a: real, b: real, c: real)

  /** The coefficients computed by discriminant and intersect for a centre and a ray. */
  function Coefficients(center: Point, ray: Ray): Quadratic {
    var centerToRay := Difference(ray.origin, center);
    Quadratic(Dot(ray.direction, ray.direction), 2.0 * Dot(ray.direction, centerToRay), Dot(centerToRay, centerToRay) - 1.0)
  }

  /** b^2 - 4 a c. */
  function QuadraticDiscriminant(q: Quadratic): real {
    q.b * q.b - 4.0 * q.a * q.c
  }

  /** a t^2 + b t + c. */
  function Evaluate(q: Quadratic, t: real): real {
    q.a * t * t + q.b * t + q.c
  }

  /** The ray is at distance exactly 1 from the centre at time t. */
  predicate Touches(center: Point, ray: Ray, t: real) {
    var offset := Difference(Position(ray, t), center);
    Dot(offset, offset) == 1.0
  }

  /** The ray touches the unit sphere about the centre exactly at the roots of the quadratic. */
  lemma {:induction false} TouchesAtRoots(center: Point, ray: Ray, t: real)
    ensures Touches(center, ray, t) <==> Evaluate(Coefficients(center, ray), t) == 0.0
  {
    var offset := Difference(Position(ray, t), center);
    assert Dot(offset, offset) == Evaluate(Coefficients(center, ray), t) + 1.0 by {
      var o, d := Difference(ray.origin, center), ray.direction;
      assert offset == Coordinates.Coordinate(o.x + d.x * t, o.y + d.y * t, o.z + d.z * t);
      assert Coefficients(center, ray) == Quadratic(Dot(d, d), 2.0 * Dot(d, o), Dot(o, o) - 1.0);
      SumOfSquares(o, d, t, offset);
    }
  }

  /** |o + d t|^2 - 1 = |d|^2 t^2 + 2 (d . o) t + |o|^2 - 1. */
  lemma {:induction false} SumOfSquares(o: Direction, d: Direction, t: real, offset: Direction)
    requires offset == Coordinates.Coordinate(o.x + d.x * t, o.y + d.y * t, o.z + d.z * t)
    ensures Dot(offset, offset) == Evaluate(Quadratic(Dot(d, d), 2.0 * Dot(d, o), Dot(o, o) - 1.0), t) + 1.0
  {
    SquareOfSum(o.x, d.x, t);
    SquareOfSum(o.y, d.y, t);
    SquareOfSum(o.z, d.z, t);
    assert Dot(d, d) * t * t == d.x * d.x * t * t + d.y * d.y * t * t + d.z * d.z * t * t;
    assert 2.0 * Dot(d, o) * t == 2.0 * d.x * o.x * t + 2.0 * d.y * o.y * t + 2.0 * d.z * o.z * t;
  }

  lemma {:induction false} SquareOfSum(o: real, d: real, t: real)
    ensures (o + d * t) * (o + d * t) == d * d * t * t + 2.0 * d * o * t + o * o
  {
  }

  /** discriminant(sphere, ray): b^2 - 4 a c for the ray as given (not transformed). */
  function Discriminant(sphere: Spheres.Sphere, ray: Ray): real {
    QuadraticDiscriminant(Coefficients(sphere.position, ray))
  }

  /** A negative discriminant means the ray never comes within distance 1 of the centre. */
  lemma {:induction false} NegativeDiscriminantMisses(sphere: Spheres.Sphere, ray: Ray, t: real)
    requires Discriminant(sphere, ray) < 0.0
    ensures !Touches(sphere.position, ray, t)
  {
    TouchesAtRoots(sphere.position, ray, t);
    NoRootBelowZero(Coefficients(sphere.position, ray), t);
  }

  /** 4 a (a t^2 + b t + c) = (2 a t + b)^2 - (b^2 - 4 a c). */
  lemma {:induction false} CompletedSquare(q: Quadratic, t: real)
    ensures 4.0 * q.a * Evaluate(q, t) == (2.0 * q.a * t + q.b) * (2.0 * q.a * t + q.b) - QuadraticDiscriminant(q)
  {
  }

  /** A quadratic with a negative discriminant has no root. */
  lemma {:induction false} NoRootBelowZero(q: Quadratic, t: real)
    requires QuadraticDiscriminant(q) < 0.0
    ensures Evaluate(q, t) != 0.0
  {
    CompletedSquare(q, t);
    var u := 2.0 * q.a * t + q.b;
    assert u * u >= 0.0;
  }

  /** The two roots computed from a root s of the discriminant, smaller first. */
  function Roots(q: Quadratic, s: real): (roots: (real, real))
    requires q.a != 0.0
    ensures roots.0 <= roots.1
  {
    var t1 := (-q.b - s) / (2.0 * q.a);
    var t2 := (-q.b + s) / (2.0 * q.a);
    if t1 > t2 then (t2, t1) else (t1, t2)
  }

  /** With s^2 = b^2 - 4 a c and a != 0, both roots solve the quadratic and no other time
      does. */
  lemma {:induction false} RootsSolve(q: Quadratic, s: real, t: real)
    requires q.a != 0.0 && s * s == QuadraticDiscriminant(q)
    ensures Evaluate(q, Roots(q, s).0) == 0.0 && Evaluate(q, Roots(q, s).1) == 0.0
    ensures Evaluate(q, t) == 0.0 ==> t == Roots(q, s).0 || t == Roots(q, s).1
  {
    IsRoot(q, s, -1.0);
    IsRoot(q, s, 1.0);
    Factorisation(q, s, t);
  }

  /** (-b + sign s) / 2a solves the quadratic. */
  lemma {:induction false} IsRoot(q: Quadratic, s: real, sign: real)
    requires q.a != 0.0 && s * s == QuadraticDiscriminant(q) && (sign == 1.0 || sign == -1.0)
    ensures Evaluate(q, (-q.b + sign * s) / (2.0 * q.a)) == 0.0
  {
    var t := (-q.b + sign * s) / (2.0 * q.a);
    CompletedSquare(q, t);
    assert 2.0 * q.a * t == -q.b + sign * s;
    assert (2.0 * q.a * t + q.b) * (2.0 * q.a * t + q.b) == s * s by {
      assert 2.0 * q.a * t + q.b == sign * s;
    }
    assert 4.0 * q.a * Evaluate(q, t) == 0.0;
  }

  /** A root of the quadratic is (-b - s) / 2a or (-b + s) / 2a. */
  lemma {:induction false} Factorisation(q: Quadratic, s: real, t: real)
    requires q.a != 0.0 && s * s == QuadraticDiscriminant(q)
    ensures Evaluate(q, t) == 0.0 ==> t == (-q.b - s) / (2.0 * q.a) || t == (-q.b + s) / (2.0 * q.a)
  {
    CompletedSquare(q, t);
    var u := 2.0 * q.a * t + q.b;
    if Evaluate(q, t) == 0.0 {
      assert u * u == s * s;
      SquaresEqual(u, s);
      if u == s {
        assert 2.0 * q.a * t == -q.b + s;
      } else {
        assert 2.0 * q.a * t == -q.b - s;
      }
    }
  }

  /** Equal squares mean equal values up to sign. */
  lemma {:induction false} SquaresEqual(u: real, s: real)
    requires u * u == s * s
    ensures u == s || u == -s
  {
    assert (u - s) * (u + s) == 0.0;
    if u != s {
      assert u - s != 0.0;
    }
  }

  /** The part of intersect after the ray has been taken into object space. A zero direction
      makes a = 0, where the source divides 0 by 0. */
  ghost function IntersectInObjectSpace(shape: Spheres.Sphere, objectRay: Ray): Result<IntersectionResult> {
    var q := Coefficients(shape.position, objectRay);
    var discriminant := QuadraticDiscriminant(q);
    if discriminant < 0.0 then Ok(NoIntersections)
    else if q.a == 0.0 then Err(NotANumber)
    else
      var roots := Roots(q, Sqrt(discriminant));
      Ok(TwoIntersections(shape, roots.0, roots.1))
  }

  /** intersect: the ray taken into object space by the inverse of the shape's transform, then
      the quadratic solved there. */
  ghost function Intersect(shape: Spheres.Sphere, ray: Ray): Result<IntersectionResult> {
    match Inverse(shape.transform)
    case Err(e) => Err(e)
    case Ok(inverse) => IntersectInObjectSpace(shape, Transform(ray, inverse))
  }

  /** intersect throws invalid_argument exactly when the transform is not invertible. */
  lemma {:induction false} IntersectSingular(shape: Spheres.Sphere, ray: Ray)
    ensures Intersect(shape, ray).Err? && Intersect(shape, ray).error == InvalidArgument
      <==> !Invertible(shape.transform)
  {
  }

  /** In object space, intersect fails (dividing 0 by 0) exactly when the discriminant is not
      negative and the ray's direction is zero; it reports no intersection exactly when the
      discriminant is negative. */
  lemma {:induction false} ObjectSpaceOutcome(shape: Spheres.Sphere, objectRay: Ray)
    ensures var r, q := IntersectInObjectSpace(shape, objectRay), Coefficients(shape.position, objectRay);
      (r.Err? <==> QuadraticDiscriminant(q) >= 0.0 && q.a == 0.0)
      && (r.Err? ==> r.error == NotANumber)
      && (r.Ok? ==> (r.value.count == 0 <==> QuadraticDiscriminant(q) < 0.0))
  {
  }

  /** When intersect reports no intersection, the ray never touches the sphere. */
  lemma {:induction false} ObjectSpaceMiss(shape: Spheres.Sphere, objectRay: Ray, t: real)
    requires IntersectInObjectSpace(shape, objectRay) == Ok(NoIntersections)
    ensures !Touches(shape.position, objectRay, t)
  {
    var q := Coefficients(shape.position, objectRay);
    TouchesAtRoots(shape.position, objectRay, t);
    NoRootBelowZero(q, t);
  }

  /** When intersect reports two records, both are on the shape, the smaller time first, the ray
      touches the sphere at both times (given the root of the discriminant) and at no other. */
  lemma {:induction false} ObjectSpaceHits(shape: Spheres.Sphere, objectRay: Ray, t: real)
    requires IntersectInObjectSpace(shape, objectRay).Ok?
    requires IntersectInObjectSpace(shape, objectRay).value.count == 2
    requires HasSquareRoot(QuadraticDiscriminant(Coefficients(shape.position, objectRay)))
    ensures var r := IntersectInObjectSpace(shape, objectRay).value;
      r.times[0].time <= r.times[1].time && r.times[0].shape == shape && r.times[1].shape == shape
      && Touches(shape.position, objectRay, r.times[0].time)
      && Touches(shape.position, objectRay, r.times[1].time)
      && (Touches(shape.position, objectRay, t) ==> t == r.times[0].time || t == r.times[1].time)
  {
    var q := Coefficients(shape.position, objectRay);
    var roots := Roots(q, Sqrt(QuadraticDiscriminant(q)));
    RootsSolve(q, Sqrt(QuadraticDiscriminant(q)), t);
    TouchesAtRoots(shape.position, objectRay, t);
    TouchesAtRoots(shape.position, objectRay, roots.0);
    TouchesAtRoots(shape.position, objectRay, roots.1);
  }

  /** The point lies on the shape: taken into object space by the inverse of the shape's
      transform, it is at distance 1 from the shape's position. */
  ghost predicate OnShape(shape: Spheres.Sphere, point: Point) {
    match Inverse(shape.transform)
    case Err(_) => false
    case Ok(inverse) =>
      var offset := Difference(MultiplyPoint(inverse, point), shape.position);
      Dot(offset, offset) == 1.0
  }

  /** The quadratic that intersect solves for a shape and a world-space ray. */
  ghost function WorldCoefficients(shape: Spheres.Sphere, ray: Ray): Quadratic
    requires Invertible(shape.transform)
  {
    Coefficients(shape.position, Transform(ray, Inverse(shape.transform).value))
  }

  /** What intersect promises in world space: with no records, no point of the ray lies on the
      shape; with two records, the ray is on the shape at both times, the smaller first, and
      at no other time (given the root of the discriminant). */
  lemma {:induction false} IntersectFindsSurface(shape: Spheres.Sphere, ray: Ray, t: real)
    requires Intersect(shape, ray).Ok?
    ensures Invertible(shape.transform)
    ensures var r := Intersect(shape, ray).value;
      (r.count == 0 ==> !OnShape(shape, Position(ray, t)))
      && (r.count == 2 ==> r.times[0].time <= r.times[1].time)
      && (r.count == 2 && HasSquareRoot(QuadraticDiscriminant(WorldCoefficients(shape, ray))) ==>
            OnShape(shape, Position(ray, r.times[0].time)) && OnShape(shape, Position(ray, r.times[1].time))
            && (OnShape(shape, Position(ray, t)) ==> t == r.times[0].time || t == r.times[1].time))
  {
    var inverse := Inverse(shape.transform).value;
    var objectRay := Transform(ray, inverse);
    var r := Intersect(shape, ray).value;
    assert Inverse(shape.transform) == Ok(inverse);
    OnShapeInObjectSpace(shape, ray, t);
    if r.count == 0 {
      ObjectSpaceMiss(shape, objectRay, t);
    } else if HasSquareRoot(QuadraticDiscriminant(WorldCoefficients(shape, ray))) {
      ObjectSpaceHits(shape, objectRay, t);
      OnShapeInObjectSpace(shape, ray, r.times[0].time);
      OnShapeInObjectSpace(shape, ray, r.times[1].time);
    }
  }

  /** A world-space position of the ray lies on the shape exactly when the transformed ray
      touches the unit sphere about the shape's position at the same time. */
  lemma {:induction false} OnShapeInObjectSpace(shape: Spheres.Sphere, ray: Ray, t: real)
    requires Invertible(shape.transform)
    ensures OnShape(shape, Position(ray, t))
      <==> Touches(shape.position, Transform(ray, Inverse(shape.transform).value), t)
  {
    TransformMapsPositions(ray, Inverse(shape.transform).value, t);
  }

  /** intersect takes the ray into object space by the inverse it computed. */
  lemma {:induction false} IntersectThroughInverse(shape: Spheres.Sphere, ray: Ray, inverse: Matrix)
    requires Inverse(shape.transform) == Ok(inverse)
    ensures IsTransform(inverse)
    ensures Intersect(shape, ray) == IntersectInObjectSpace(shape, Transform(ray, inverse))
  {
  }

  /** A shape with the identity transform sees the ray as given. */
  lemma {:induction false} IntersectWithIdentity(shape: Spheres.Sphere, ray: Ray)
    requires shape.transform == Identity(4)
    ensures Intersect(shape, ray) == IntersectInObjectSpace(shape, ray)
  {
    Spheres.IdentityInverse(shape.transform);
    IdentityTransformsNothing(ray.origin, ray.direction);
  }

  /** A shape translated by (x, y, z) sees the ray's origin moved back by (x, y, z). */
  lemma {:induction false} IntersectWithTranslation(shape: Spheres.Sphere, ray: Ray, x: real, y: real, z: real)
    requires shape.transform == TranslationMatrix(x, y, z)
    ensures Intersect(shape, ray)
      == IntersectInObjectSpace(shape, Ray(Displace(ray.origin, Coordinates.Coordinate(-x, -y, -z)), ray.direction))
  {
    var inverse := TranslationMatrix(-x, -y, -z);
    var moved := Ray(Displace(ray.origin, Coordinates.Coordinate(-x, -y, -z)), ray.direction);
    assert Transform(ray, inverse) == moved by {
      TranslatingARay(ray, -x, -y, -z);
    }
    TranslationInverse(x, y, z);
    IntersectThroughInverse(shape, ray, inverse);
  }

  /** A shape scaled by factors whose product is not zero within Epsilon (see
      Transformations.ScalingInverse for the singular case) sees the ray scaled by the
      reciprocal factors, which Rays.ScalingARay spells out. */
  lemma {:induction false} IntersectWithScaling(shape: Spheres.Sphere, ray: Ray, x: real, y: real, z: real)
    requires shape.transform == ScalingMatrix(x, y, z) && !IsEqual(x * y * z, 0.0)
    ensures x != 0.0 && y != 0.0 && z != 0.0
    ensures Intersect(shape, ray) == IntersectInObjectSpace(shape, Transform(ray, ScalingMatrix(1.0 / x, 1.0 / y, 1.0 / z)))
  {
    ScalingInverse(x, y, z);
    IntersectThroughInverse(shape, ray, ScalingMatrix(1.0 / x, 1.0 / y, 1.0 / z));
  }

  /** intersect in object space for known coefficients q whose discriminant has the root s. */
  lemma {:induction false} SolvedInObjectSpace(shape: Spheres.Sphere, objectRay: Ray, q: Quadratic, s: real, first: real, second: real)
    requires Coefficients(shape.position, objectRay) == q && SolvedBy(q, s, first, second)
    ensures IntersectInObjectSpace(shape, objectRay) == Ok(TwoIntersections(shape, first, second))
  {
    SqrtIs(s, QuadraticDiscriminant(q));
  }

  /** The discriminant of q is the square of s, and Roots gives (first, second). */
  predicate SolvedBy(q: Quadratic, s: real, first: real, second: real) {
    q.a != 0.0 && s >= 0.0 && s * s == QuadraticDiscriminant(q) && Roots(q, s) == (first, second)
  }

  /** The quadratics of the tests' rays along z: their discriminants and roots. */
  lemma {:induction false} ThroughRoots()
    ensures SolvedBy(Quadratic(1.0, -10.0, 24.0), 2.0, 4.0, 6.0)
  {
  }

  lemma {:induction false} TangentRoots()
    ensures SolvedBy(Quadratic(1.0, -10.0, 25.0), 0.0, 5.0, 5.0)
  {
  }

  lemma {:induction false} InsideRoots()
    ensures SolvedBy(Quadratic(1.0, 0.0, -1.0), 2.0, -1.0, 1.0)
  {
  }

  lemma {:induction false} BeyondRoots()
    ensures SolvedBy(Quadratic(1.0, 10.0, 24.0), 2.0, -6.0, -4.0)
  {
  }

  lemma {:induction false} MissingDiscriminants()
    ensures QuadraticDiscriminant(Quadratic(1.0, -10.0, 28.0)) < 0.0
    ensures QuadraticDiscriminant(Quadratic(1.0, -10.0, 49.0)) < 0.0
  {
  }

  lemma {:induction false} ThroughCoefficients(center: Point, ray: Ray)
    requires center == Spheres.Origin
    requires ray == Ray(Coordinates.Coordinate(0.0, 0.0, -5.0), Coordinates.Coordinate(0.0, 0.0, 1.0))
    ensures Coefficients(center, ray) == Quadratic(1.0, -10.0, 24.0)
  {
  }

  /** In object space, the ray along z from (0, 0, -5) meets the unit sphere at 4 and 6. */
  lemma {:induction false} ThroughInObjectSpace(shape: Spheres.Sphere, ray: Ray)
    requires shape.position == Spheres.Origin
    requires ray == Ray(Coordinates.Coordinate(0.0, 0.0, -5.0), Coordinates.Coordinate(0.0, 0.0, 1.0))
    ensures IntersectInObjectSpace(shape, ray) == Ok(TwoIntersections(shape, 4.0, 6.0))
  {
    ThroughCoefficients(shape.position, ray);
    ThroughRoots();
    SolvedInObjectSpace(shape, ray, Quadratic(1.0, -10.0, 24.0), 2.0, 4.0, 6.0);
  }

  lemma {:induction false} TangentCoefficients(center: Point, ray: Ray)
    requires center == Spheres.Origin
    requires ray == Ray(Coordinates.Coordinate(0.0, 1.0, -5.0), Coordinates.Coordinate(0.0, 0.0, 1.0))
    ensures Coefficients(center, ray) == Quadratic(1.0, -10.0, 25.0)
  {
  }

  /** In object space, the ray along z tangent from (0, 1, -5) meets it twice at 5. */
  lemma {:induction false} TangentInObjectSpace(shape: Spheres.Sphere, ray: Ray)
    requires shape.position == Spheres.Origin
    requires ray == Ray(Coordinates.Coordinate(0.0, 1.0, -5.0), Coordinates.Coordinate(0.0, 0.0, 1.0))
    ensures IntersectInObjectSpace(shape, ray) == Ok(TwoIntersections(shape, 5.0, 5.0))
  {
    TangentCoefficients(shape.position, ray);
    TangentRoots();
    SolvedInObjectSpace(shape, ray, Quadratic(1.0, -10.0, 25.0), 0.0, 5.0, 5.0);
  }

  lemma {:induction false} InsideCoefficients(center: Point, ray: Ray)
    requires center == Spheres.Origin
    requires ray == Ray(Coordinates.Coordinate(0.0, 0.0, 0.0), Coordinates.Coordinate(0.0, 0.0, 1.0))
    ensures Coefficients(center, ray) == Quadratic(1.0, 0.0, -1.0)
  {
  }

  /** In object space, the ray along z from the centre meets it behind at -1 and ahead at 1. */
  lemma {:induction false} InsideInObjectSpace(shape: Spheres.Sphere, ray: Ray)
    requires shape.position == Spheres.Origin
    requires ray == Ray(Coordinates.Coordinate(0.0, 0.0, 0.0), Coordinates.Coordinate(0.0, 0.0, 1.0))
    ensures IntersectInObjectSpace(shape, ray) == Ok(TwoIntersections(shape, -1.0, 1.0))
  {
    InsideCoefficients(shape.position, ray);
    InsideRoots();
    SolvedInObjectSpace(shape, ray, Quadratic(1.0, 0.0, -1.0), 2.0, -1.0, 1.0);
  }

  lemma {:induction false} BeyondCoefficients(center: Point, ray: Ray)
    requires center == Spheres.Origin
    requires ray == Ray(Coordinates.Coordinate(0.0, 0.0, 5.0), Coordinates.Coordinate(0.0, 0.0, 1.0))
    ensures Coefficients(center, ray) == Quadratic(1.0, 10.0, 24.0)
  {
  }

  /** In object space, the ray along z from (0, 0, 5) meets it only behind, at -6 and -4. */
  lemma {:induction false} BeyondInObjectSpace(shape: Spheres.Sphere, ray: Ray)
    requires shape.position == Spheres.Origin
    requires ray == Ray(Coordinates.Coordinate(0.0, 0.0, 5.0), Coordinates.Coordinate(0.0, 0.0, 1.0))
    ensures IntersectInObjectSpace(shape, ray) == Ok(TwoIntersections(shape, -6.0, -4.0))
  {
    BeyondCoefficients(shape.position, ray);
    BeyondRoots();
    SolvedInObjectSpace(shape, ray, Quadratic(1.0, 10.0, 24.0), 2.0, -6.0, -4.0);
  }

  lemma {:induction false} PassingCoefficients(center: Point, ray: Ray)
    requires center == Spheres.Origin
    requires ray == Ray(Coordinates.Coordinate(0.0, 2.0, -5.0), Coordinates.Coordinate(0.0, 0.0, 1.0))
    ensures Coefficients(center, ray) == Quadratic(1.0, -10.0, 28.0)
  {
  }

  /** In object space, the ray along z from (0, 2, -5) misses the unit sphere. */
  lemma {:induction false} PassingInObjectSpace(shape: Spheres.Sphere, ray: Ray)
    requires shape.position == Spheres.Origin
    requires ray == Ray(Coordinates.Coordinate(0.0, 2.0, -5.0), Coordinates.Coordinate(0.0, 0.0, 1.0))
    ensures IntersectInObjectSpace(shape, ray) == Ok(NoIntersections)
  {
    PassingCoefficients(shape.position, ray);
    MissingDiscriminants();
  }

  lemma {:induction false} AsideCoefficients(center: Point, ray: Ray)
    requires center == Spheres.Origin
    requires ray == Ray(Coordinates.Coordinate(-5.0, 0.0, -5.0), Coordinates.Coordinate(0.0, 0.0, 1.0))
    ensures Coefficients(center, ray) == Quadratic(1.0, -10.0, 49.0)
  {
  }

  /** In object space, the ray along z from (-5, 0, -5) misses the unit sphere. */
  lemma {:induction false} AsideInObjectSpace(shape: Spheres.Sphere, ray: Ray)
    requires shape.position == Spheres.Origin
    requires ray == Ray(Coordinates.Coordinate(-5.0, 0.0, -5.0), Coordinates.Coordinate(0.0, 0.0, 1.0))
    ensures IntersectInObjectSpace(shape, ray) == Ok(NoIntersections)
  {
    AsideCoefficients(shape.position, ray);
    MissingDiscriminants();
  }

  /** The tests' intersections with the untransformed unit sphere about the origin. */
  lemma {:induction false} IntersectExamples(shape: Spheres.Sphere, through: Ray, tangent: Ray, inside: Ray,
                                             beyond: Ray, passing: Ray)
    requires shape.position == Spheres.Origin && shape.transform == Identity(4)
    requires through == Ray(Coordinates.Coordinate(0.0, 0.0, -5.0), Coordinates.Coordinate(0.0, 0.0, 1.0))
    requires tangent == Ray(Coordinates.Coordinate(0.0, 1.0, -5.0), Coordinates.Coordinate(0.0, 0.0, 1.0))
    requires inside == Ray(Coordinates.Coordinate(0.0, 0.0, 0.0), Coordinates.Coordinate(0.0, 0.0, 1.0))
    requires beyond == Ray(Coordinates.Coordinate(0.0, 0.0, 5.0), Coordinates.Coordinate(0.0, 0.0, 1.0))
    requires passing == Ray(Coordinates.Coordinate(0.0, 2.0, -5.0), Coordinates.Coordinate(0.0, 0.0, 1.0))
    ensures Intersect(shape, through) == Ok(TwoIntersections(shape, 4.0, 6.0))
    ensures Intersect(shape, tangent) == Ok(TwoIntersections(shape, 5.0, 5.0))
    ensures Intersect(shape, inside) == Ok(TwoIntersections(shape, -1.0, 1.0))
    ensures Intersect(shape, beyond) == Ok(TwoIntersections(shape, -6.0, -4.0))
    ensures Intersect(shape, passing) == Ok(NoIntersections)
  {
    ThroughInObjectSpace(shape, through);
    TangentInObjectSpace(shape, tangent);
    InsideInObjectSpace(shape, inside);
    BeyondInObjectSpace(shape, beyond);
    PassingInObjectSpace(shape, passing);
    IntersectWithIdentity(shape, through);
    IntersectWithIdentity(shape, tangent);
    IntersectWithIdentity(shape, inside);
    IntersectWithIdentity(shape, beyond);
    IntersectWithIdentity(shape, passing);
  }

  /** A sphere scaled by f > 0 about the origin meets the ray from (0, 0, -5) along z at 5 - f
      and 5 + f (the test's factor 2 gives 3 and 7). */
  lemma {:induction false} ScaledSphereHits(shape: Spheres.Sphere, ray: Ray, f: real)
    requires f > 0.0 && !IsEqual(f * f * f, 0.0)
    requires shape.position == Spheres.Origin && shape.transform == ScalingMatrix(f, f, f)
    requires ray == Ray(Coordinates.Coordinate(0.0, 0.0, -5.0), Coordinates.Coordinate(0.0, 0.0, 1.0))
    ensures Intersect(shape, ray) == Ok(TwoIntersections(shape, 5.0 - f, 5.0 + f))
  {
    var g := 1.0 / f;
    var objectRay := Transform(ray, ScalingMatrix(g, g, g));
    assert Intersect(shape, ray) == IntersectInObjectSpace(shape, objectRay) by {
      IntersectWithScaling(shape, ray, f, f, f);
    }
    ScalingARay(ray, g, g, g);
    ScaledInObjectSpace(shape, objectRay, f, g);
  }

  /** In object space, the ray from (0, 0, -5 g) along z at speed g = 1 / f meets the unit sphere
      at 5 - f and 5 + f. */
  lemma {:induction false} ScaledInObjectSpace(shape: Spheres.Sphere, objectRay: Ray, f: real, g: real)
    requires f > 0.0 && g == 1.0 / f && shape.position == Spheres.Origin
    requires objectRay.origin.x == g * 0.0 && objectRay.origin.y == g * 0.0 && objectRay.origin.z == g * -5.0
    requires objectRay.direction.x == g * 0.0 && objectRay.direction.y == g * 0.0 && objectRay.direction.z == g * 1.0
    ensures IntersectInObjectSpace(shape, objectRay) == Ok(TwoIntersections(shape, 5.0 - f, 5.0 + f))
  {
    var q := Quadratic(g * g, -10.0 * (g * g), 25.0 * (g * g) - 1.0);
    ScaledCoefficients(shape.position, objectRay, g);
    ScaledRoots(f, g);
    SolvedInObjectSpace(shape, objectRay, q, 2.0 * g, 5.0 - f, 5.0 + f);
  }

  /** The coefficients for the unit sphere about the origin and the ray from (0, 0, -5 g) along
      z at speed g. */
  lemma {:induction false} ScaledCoefficients(center: Point, objectRay: Ray, g: real)
    requires center.x == 0.0 && center.y == 0.0 && center.z == 0.0
    requires objectRay.origin.x == g * 0.0 && objectRay.origin.y == g * 0.0 && objectRay.origin.z == g * -5.0
    requires objectRay.direction.x == g * 0.0 && objectRay.direction.y == g * 0.0 && objectRay.direction.z == g * 1.0
    ensures Coefficients(center, objectRay) == Quadratic(g * g, -10.0 * (g * g), 25.0 * (g * g) - 1.0)
  {
    var d, o := objectRay.direction, Difference(objectRay.origin, center);
    assert Dot(d, d) == g * g;
    assert Dot(d, o) == -5.0 * (g * g);
    assert Dot(o, o) == 25.0 * (g * g);
  }

  /** With f g = 1 and g > 0, the quadratic g^2 t^2 - 10 g^2 t + 25 g^2 - 1 has the discriminant
      (2 g)^2 and the roots 5 - f and 5 + f. */
  lemma {:induction false} ScaledRoots(f: real, g: real)
    requires f > 0.0 && g == 1.0 / f
    ensures SolvedBy(Quadratic(g * g, -10.0 * (g * g), 25.0 * (g * g) - 1.0), 2.0 * g, 5.0 - f, 5.0 + f)
  {
    var gg := g * g;
    var q := Quadratic(gg, -10.0 * gg, 25.0 * gg - 1.0);
    assert g > 0.0 && f * g == 1.0;
    assert gg > 0.0;
    calc {
      QuadraticDiscriminant(q);
      100.0 * (gg * gg) - 4.0 * gg * (25.0 * gg - 1.0);
      4.0 * gg;
      (2.0 * g) * (2.0 * g);
    }
    assert (5.0 - f) * (2.0 * gg) == 10.0 * gg - 2.0 * g by {
      assert f * gg == g;
    }
    assert (5.0 + f) * (2.0 * gg) == 10.0 * gg + 2.0 * g by {
      assert f * gg == g;
    }
    assert (-q.b - 2.0 * g) / (2.0 * q.a) == 5.0 - f;
    assert (-q.b + 2.0 * g) / (2.0 * q.a) == 5.0 + f;
  }

  /** The sphere moved by 5 along x is missed by the ray from (0, 0, -5) along z. */
  lemma {:induction false} TranslatedSphereMisses(shape: Spheres.Sphere, ray: Ray)
    requires shape.position == Spheres.Origin && shape.transform == TranslationMatrix(5.0, 0.0, 0.0)
    requires ray == Ray(Coordinates.Coordinate(0.0, 0.0, -5.0), Coordinates.Coordinate(0.0, 0.0, 1.0))
    ensures Intersect(shape, ray) == Ok(NoIntersections)
  {
    IntersectWithTranslation(shape, ray, 5.0, 0.0, 0.0);
    var objectRay := Ray(Coordinates.Coordinate(-5.0, 0.0, -5.0), Coordinates.Coordinate(0.0, 0.0, 1.0));
    assert Ray(Displace(ray.origin, Coordinates.Coordinate(-5.0, -0.0, -0.0)), ray.direction) == objectRay;
    AsideInObjectSpace(shape, objectRay);
  }

  /** Among the first n intersections, k is the visible hit: its time is not negative, every
      earlier non-negative time is strictly later than it, and every later one among the first n
      is not earlier (ties go to the first). */
  predicate IsHitAmong(inters: seq<Intersection>, n: int, k: int) {
    0 <= k < n <= |inters| && inters[k].time >= 0.0
    && (forall i :: 0 <= i < k && inters[i].time >= 0.0 ==> inters[i].time > inters[k].time)
    && (forall i :: k < i < n && inters[i].time >= 0.0 ==> inters[i].time >= inters[k].time)
  }

  /** k is the visible hit of the whole array. */
  predicate IsHit(inters: seq<Intersection>, k: int) {
    IsHitAmong(inters, |inters|, k)
  }

  /** hit: the intersection with the smallest non-negative time, the first of equal ones; none
      when every time is negative. */
  method Hit(inters: seq<Intersection>) returns (r: Option<Intersection>)
    ensures r.None? <==> forall i :: 0 <= i < |inters| ==> inters[i].time < 0.0
    ensures r.Some? ==> exists k :: IsHit(inters, k) && r.value == inters[k]
  {
    var minIndex := -1;
    var index := 0;
    while index < |inters|
      invariant 0 <= index <= |inters| && -1 <= minIndex < index
      invariant minIndex == -1 <==> forall i :: 0 <= i < index ==> inters[i].time < 0.0
      invariant minIndex != -1 ==> IsHitAmong(inters, index, minIndex)
    {
      var current := inters[index];
      if current.time >= 0.0 {
        if minIndex == -1 || inters[minIndex].time > current.time {
          minIndex := index;
        }
      }
      index := index + 1;
    }
    if minIndex == -1 {
      r := None;
    } else {
      r := Some(inters[minIndex]);
    }
  }

  /** The visible hit is unique, so the intersection hit returns is determined. */
  lemma {:induction false} HitIsUnique(inters: seq<Intersection>, j: int, k: int)
    requires IsHit(inters, j) && IsHit(inters, k)
    ensures j == k
  {
  }

  /** The tests of hit: times 1 and 2 give the first; -1 and 1 the second; -2 and -1 none;
      5, 7, -3 and 2 the fourth. */
  lemma {:induction false} HitExamples(shape: Spheres.Sphere)
    ensures IsHit([Intersection(1.0, shape), Intersection(2.0, shape)], 0)
    ensures IsHit([Intersection(-1.0, shape), Intersection(1.0, shape)], 1)
    ensures forall i :: 0 <= i < 2 ==> [Intersection(-2.0, shape), Intersection(-1.0, shape)][i].time < 0.0
    ensures IsHit([Intersection(5.0, shape), Intersection(7.0, shape), Intersection(-3.0, shape),
                   Intersection(2.0, shape)], 3)
  {
  }
}

/** Sphere: a unit sphere in object space around `position`, placed in the world by `transform`,
    and its surface normal. */
module Spheres {
  import opened CppStd
  import opened Outcomes
  import opened DoubleComparison
  import Coordinates
  import opened Directions
  import opened Points
  import opened Matrices
  import opened Determinants
  import opened DeterminantLaws
  import opened Transformations
  import opened Materials

  /** Matrix<4, 4, double>. */
  type Transform = m: Matrix | IsTransform(m) witness Identity(4)

  datatype Sphere = Sphere(position: Point, transform: Transform, material: Material)

  /** The default constructor arguments: the origin, identity<4> and defaultMaterial. */
  const DefaultSphere: Sphere := Sphere(Coordinates.Zero(), Identity(4), DefaultMaterial)

  /** operator==: the positions are equal within Epsilon; transform and material are not
      compared. */
  predicate Equals(lhs: Sphere, rhs: Sphere) {
    Coordinates.Equals(lhs.position, rhs.position)
  }

  /** Two spheres at the same position are equal whatever their transforms and materials, and
      spheres at positions a tenth apart are not. */
  lemma {:induction false} EqualityIgnoresTransformAndMaterial(s: Sphere, t: Transform, m: Material)
    ensures Equals(s, Sphere(s.position, t, m))
    ensures !Equals(s, Sphere(Coordinates.Coordinate(s.position.x + 0.1, s.position.y, s.position.z), s.transform, s.material))
  {
    Coordinates.EqualsTolerance(s.position, s.position);
  }

  /** The origin of object space. */
  const Origin: Point := Coordinates.Zero()

  /** The steps of normalAt before the final normalize: the point taken into object space by
      the inverse transform, its offset from the origin, and that offset taken back to world
      space by the transposed inverse. */
  function WorldNormal(s: Sphere, point: Point): (r: Result<Direction>)
    ensures r.Err? <==> !Invertible(s.transform)
    ensures r.Err? ==> r.error == InvalidArgument
  {
    match Inverse(s.transform)
    case Err(e) => Err(e)
    case Ok(inverse) => Ok(NormalFromInverse(inverse, point))
  }

  /** The world normal at `point` given the inverse transform. */
  function NormalFromInverse(inverse: Transform, point: Point): Direction {
    var objectPoint := MultiplyPoint(inverse, point);
    var objectNormal := Difference(objectPoint, Origin);
    MultiplyDirection(Transposed(inverse), objectNormal)
  }

  /** normalAt: the world normal normalised. */
  ghost function NormalAt(s: Sphere, point: Point): Result<Direction> {
    match WorldNormal(s, point)
    case Err(e) => Err(e)
    case Ok(normal) => Normalize(normal)
  }

  /** normalAt throws an invalid argument exactly when the transform is not invertible or the
      world normal has magnitude zero within Epsilon. */
  lemma {:induction false} NormalAtFailures(s: Sphere, point: Point)
    ensures NormalAt(s, point).Err? <==> !Invertible(s.transform) || IsEqual(Magnitude(WorldNormal(s, point).value), 0.0)
    ensures NormalAt(s, point).Err? ==> NormalAt(s, point).error == InvalidArgument
  {
  }

  /** A normal has length 1, so normalising it again changes nothing (when the root of the
      world normal's squared length exists). */
  lemma {:induction false} NormalIsNormalized(s: Sphere, point: Point)
    requires NormalAt(s, point).Ok?
    requires HasSquareRoot(Dot(WorldNormal(s, point).value, WorldNormal(s, point).value))
    ensures Magnitude(NormalAt(s, point).value) == 1.0
    ensures Normalize(NormalAt(s, point).value) == NormalAt(s, point)
  {
    var normal := WorldNormal(s, point).value;
    assert NormalAt(s, point) == Normalize(normal);
    NormalizeIsIdempotent(normal);
  }

  /** The point lies on the unit sphere around the origin. */
  predicate OnUnitSphere(point: Point) {
    point.x * point.x + point.y * point.y + point.z * point.z == 1.0
  }

  /** With the identity transform the world normal at a point is the point's offset from the
      origin. */
  lemma {:induction false} WorldNormalOnIdentity(s: Sphere, point: Point)
    requires s.transform == Identity(4)
    ensures WorldNormal(s, point) == Ok(Coordinates.Coordinate(point.x, point.y, point.z))
  {
    IdentityInverse(s.transform);
    IdentityNormal(s.transform, point);
  }

  /** With the identity transform the normal at a point on the unit sphere is the point's
      offset from the origin. */
  lemma {:induction false} NormalOnUnitSphere(s: Sphere, point: Point)
    requires s.transform == Identity(4) && OnUnitSphere(point)
    ensures NormalAt(s, point) == Ok(Coordinates.Coordinate(point.x, point.y, point.z))
  {
    WorldNormalOnIdentity(s, point);
    UnitOffsetIsNormal(point);
  }

  /** identity<4> is its own inverse. */
  lemma {:induction false} IdentityInverse(m: Matrix)
    requires m == Identity(4)
    ensures Inverse(m) == Ok(m)
  {
    IdentityDeterminantAndInverse(4);
  }

  /** Through the identity the world normal is the offset of the point from the origin. */
  lemma {:induction false} IdentityNormal(m: Transform, point: Point)
    requires m == Identity(4)
    ensures NormalFromInverse(m, point) == Coordinates.Coordinate(point.x, point.y, point.z)
  {
    IdentityIsSymmetric(4);
    IdentityTransformsNothing(point, Difference(point, Origin));
  }

  /** The offset from the origin of a point on the unit sphere normalises to itself. */
  lemma {:induction false} UnitOffsetIsNormal(point: Point)
    ensures OnUnitSphere(point) ==>
      Normalize(Coordinates.Coordinate(point.x, point.y, point.z)) == Ok(Coordinates.Coordinate(point.x, point.y, point.z))
  {
    if OnUnitSphere(point) {
      NormalizeUnitIsIdentity(Coordinates.Coordinate(point.x, point.y, point.z));
    }
  }

  /** Transposing the inverse of a translation gives a matrix that moves no direction. */
  lemma {:induction false} TransposedTranslationKeepsDirections(x: real, y: real, z: real, d: Direction)
    ensures MultiplyDirection(Transposed(TranslationMatrix(x, y, z)), d) == d
  {
  }

  /** On a translated sphere the world normal is the offset of the point from the translated
      centre. */
  lemma {:induction false} NormalOnTranslatedSphere(s: Sphere, x: real, y: real, z: real, point: Point)
    requires s.transform == TranslationMatrix(x, y, z)
    ensures WorldNormal(s, point) == Ok(Difference(point, Coordinates.Coordinate(x, y, z)))
    ensures NormalAt(s, point) == Normalize(Difference(point, Coordinates.Coordinate(x, y, z)))
  {
    var inverse := TranslationMatrix(-x, -y, -z);
    assert Inverse(s.transform) == Ok(inverse) by {
      TranslationInverse(x, y, z);
    }
    TranslatedNormal(x, y, z, point);
  }

  /** The world normal through the inverse of a translation is the offset from the translated
      centre. */
  lemma {:induction false} TranslatedNormal(x: real, y: real, z: real, point: Point)
    ensures NormalFromInverse(TranslationMatrix(-x, -y, -z), point) == Difference(point, Coordinates.Coordinate(x, y, z))
  {
    var inverse := TranslationMatrix(-x, -y, -z);
    var objectNormal := Difference(MultiplyPoint(inverse, point), Origin);
    TranslationMovesPointsOnly(-x, -y, -z, point, objectNormal);
    TransposedTranslationKeepsDirections(-x, -y, -z, objectNormal);
  }

  /** A scaling is its own transpose. */
  lemma {:induction false} ScalingIsSymmetric(x: real, y: real, z: real)
    ensures Transposed(ScalingMatrix(x, y, z)) == ScalingMatrix(x, y, z)
  {
    CellsDetermineMatrix(Transposed(ScalingMatrix(x, y, z)), ScalingMatrix(x, y, z));
  }

  /** The world normal through the inverse of a scaling by non-zero factors divides each
      component of the point by the square of that axis' factor. */
  lemma {:induction false} ScaledNormal(x: real, y: real, z: real, point: Point)
    requires x != 0.0 && y != 0.0 && z != 0.0
    ensures NormalFromInverse(ScalingMatrix(1.0 / x, 1.0 / y, 1.0 / z), point)
      == Coordinates.Coordinate(point.x / (x * x), point.y / (y * y), point.z / (z * z))
  {
    var inverse := ScalingMatrix(1.0 / x, 1.0 / y, 1.0 / z);
    ScalingIsSymmetric(1.0 / x, 1.0 / y, 1.0 / z);
    var objectNormal := Difference(MultiplyPoint(inverse, point), Origin);
    ScalingScales(1.0 / x, 1.0 / y, 1.0 / z, point, objectNormal);
  }

  /** On a sphere scaled by (x, y, z) the world normal divides each component of the point by
      the square of that axis' factor; the normal is undefined when the scaling is singular. */
  lemma {:induction false} NormalOnScaledSphere(s: Sphere, x: real, y: real, z: real, point: Point)
    requires s.transform == ScalingMatrix(x, y, z)
    ensures IsEqual(x * y * z, 0.0) ==> NormalAt(s, point) == Err(InvalidArgument)
    ensures !IsEqual(x * y * z, 0.0) ==> (x != 0.0 && y != 0.0 && z != 0.0
      && WorldNormal(s, point) == Ok(Coordinates.Coordinate(point.x / (x * x), point.y / (y * y), point.z / (z * z))))
  {
    ScalingInverse(x, y, z);
    if !IsEqual(x * y * z, 0.0) {
      ScaledNormal(x, y, z, point);
    }
  }

  /** normalAt measures the object-space normal from the origin, not from `position`, which
      intersect treats as the centre: on the sphere of the identity transform centred at
      (5, 0, 0), the point (5, 1, 0) lies straight above the centre, yet its normal is not
      (0, 1, 0). */
  lemma {:induction false} NormalIgnoresPosition(s: Sphere, point: Point)
    requires s.transform == Identity(4)
    requires s.position == Coordinates.Coordinate(5.0, 0.0, 0.0) && point == Coordinates.Coordinate(5.0, 1.0, 0.0)
    ensures NormalAt(s, point) != Ok(Coordinates.Coordinate(0.0, 1.0, 0.0))
  {
    WorldNormalOnIdentity(s, point);
    NormalizeKeepsNonZeroX(Coordinates.Coordinate(5.0, 1.0, 0.0));
  }

  /** Normalising keeps a non-zero x component non-zero. */
  lemma {:induction false} NormalizeKeepsNonZeroX(d: Direction)
    requires d.x != 0.0
    ensures Normalize(d).Ok? ==> Normalize(d).value.x != 0.0
  {
  }

  /** The world normal measured from the sphere's centre `position`, consistently with
      intersect. */
  function WorldNormalAboutCentre(s: Sphere, point: Point): (r: Result<Direction>)
    ensures r.Err? <==> !Invertible(s.transform)
  {
    match Inverse(s.transform)
    case Err(e) => Err(e)
    case Ok(inverse) =>
      var objectNormal := Difference(MultiplyPoint(inverse, point), s.position);
      Ok(MultiplyDirection(Transposed(inverse), objectNormal))
  }

  /** normalAt with the object-space normal measured from `position`. */
  ghost function NormalAtAboutCentre(s: Sphere, point: Point): Result<Direction> {
    match WorldNormalAboutCentre(s, point)
    case Err(e) => Err(e)
    case Ok(normal) => Normalize(normal)
  }

  /** With the identity transform the normal measured from the centre at a point one unit away
      from the centre is the point's offset from the centre, wherever the centre is. */
  lemma {:induction false} NormalAboutCentreOnSphere(s: Sphere, point: Point)
    requires s.transform == Identity(4)
    requires OnUnitSphere(Displace(Origin, Difference(point, s.position)))
    ensures NormalAtAboutCentre(s, point) == Ok(Difference(point, s.position))
  {
    WorldNormalAboutCentreOnIdentity(s, point);
    UnitOffsetIsNormal(Displace(Origin, Difference(point, s.position)));
  }

  /** With the identity transform the world normal measured from the centre is the offset of the
      point from the centre. */
  lemma {:induction false} WorldNormalAboutCentreOnIdentity(s: Sphere, point: Point)
    requires s.transform == Identity(4)
    ensures WorldNormalAboutCentre(s, point) == Ok(Difference(point, s.position))
  {
    IdentityInverse(s.transform);
    IdentityIsSymmetric(4);
    IdentityTransformsNothing(point, Difference(point, s.position));
  }
}

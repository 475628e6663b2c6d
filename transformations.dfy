/** The affine transformations of Transformations.h: translation and scaling matrices, built by
    writing three cells of a copy of identity<4>, and the application of a 4x4 matrix to a point
    (embedded with w = 1) or a direction (embedded with w = 0). */
module Transformations {
  import opened Outcomes
  import opened DoubleComparison
  import opened Coordinates
  import opened Directions
  import opened Points
  import opened Matrices
  import opened Determinants
  import opened DeterminantLaws
  import opened MatrixStores
  import opened MatrixLoops

  /** Matrix<4, 4, double>. */
  predicate IsTransform(m: Matrix) {
    m.rows == 4 && m.columns == 4
  }

  /** The bottom row of an affine transformation is (0, 0, 0, 1): it keeps w. */
  predicate Affine(m: Matrix)
    requires IsTransform(m)
  {
    Cell(m, 3, 0) == 0.0 && Cell(m, 3, 1) == 0.0 && Cell(m, 3, 2) == 0.0 && Cell(m, 3, 3) == 1.0
  }

  /** translation(x, y, z): identity<4> with (x, y, z) in column 3 of rows 0 to 2. */
  function TranslationMatrix(x: real, y: real, z: real): (m: Matrix)
    ensures IsTransform(m) && Affine(m)
  {
    Grid(4, 4, [[1.0, 0.0, 0.0, x], [0.0, 1.0, 0.0, y], [0.0, 0.0, 1.0, z], [0.0, 0.0, 0.0, 1.0]])
  }

  /** scaling(x, y, z): identity<4> with x, y, z on the first three diagonal cells. */
  function ScalingMatrix(x: real, y: real, z: real): (m: Matrix)
    ensures IsTransform(m) && Affine(m)
  {
    Grid(4, 4, [[x, 0.0, 0.0, 0.0], [0.0, y, 0.0, 0.0], [0.0, 0.0, z, 0.0], [0.0, 0.0, 0.0, 1.0]])
  }

  /** Writing the offset into column 3 of identity<4> gives the translation matrix. */
  lemma {:induction false} TranslationWrites(x: real, y: real, z: real)
    ensures Updated(Updated(Updated(Identity(4), 0, 3, x), 1, 3, y), 2, 3, z) == TranslationMatrix(x, y, z)
  {
    CellsDetermineMatrix(Updated(Updated(Updated(Identity(4), 0, 3, x), 1, 3, y), 2, 3, z), TranslationMatrix(x, y, z));
  }

  /** Writing the factors onto the diagonal of identity<4> gives the scaling matrix. */
  lemma {:induction false} ScalingWrites(x: real, y: real, z: real)
    ensures Updated(Updated(Updated(Identity(4), 0, 0, x), 1, 1, y), 2, 2, z) == ScalingMatrix(x, y, z)
  {
    CellsDetermineMatrix(Updated(Updated(Updated(Identity(4), 0, 0, x), 1, 1, y), 2, 2, z), ScalingMatrix(x, y, z));
  }

  /** translation: a copy of identity<4> whose cells (0, 3), (1, 3), (2, 3) are overwritten. */
  method Translation(x: real, y: real, z: real) returns (m: Matrix)
    ensures m == TranslationMatrix(x, y, z)
  {
    var identity := FillIdentity(4);
    var result := new MatrixStore.Copy(identity);
    result.AssignCell(0, 3, x);
    result.AssignCell(1, 3, y);
    result.AssignCell(2, 3, z);
    m := result.Value();
    TranslationWrites(x, y, z);
  }

  /** scaling: a copy of identity<4> whose cells (0, 0), (1, 1), (2, 2) are overwritten. */
  method Scaling(x: real, y: real, z: real) returns (m: Matrix)
    ensures m == ScalingMatrix(x, y, z)
  {
    var identity := FillIdentity(4);
    var result := new MatrixStore.Copy(identity);
    result.AssignCell(0, 0, x);
    result.AssignCell(1, 1, y);
    result.AssignCell(2, 2, z);
    m := result.Value();
    ScalingWrites(x, y, z);
  }

  /** The product loop over four components, written out. */
  lemma {:induction false} SumProducts4(lhs: Matrix, rhs: Matrix, row: nat, column: nat)
    requires lhs.columns == 4 && rhs.rows == 4 && row < lhs.rows && column < rhs.columns
    ensures SumProducts(lhs, rhs, row, column, 4) ==
      Cell(lhs, row, 0) * Cell(rhs, 0, column) + Cell(lhs, row, 1) * Cell(rhs, 1, column)
      + Cell(lhs, row, 2) * Cell(rhs, 2, column) + Cell(lhs, row, 3) * Cell(rhs, 3, column)
  {
    assert SumProducts(lhs, rhs, row, column, 1) == Cell(lhs, row, 0) * Cell(rhs, 0, column);
    assert SumProducts(lhs, rhs, row, column, 2) == SumProducts(lhs, rhs, row, column, 1) + Cell(lhs, row, 1) * Cell(rhs, 1, column);
    assert SumProducts(lhs, rhs, row, column, 3) == SumProducts(lhs, rhs, row, column, 2) + Cell(lhs, row, 2) * Cell(rhs, 2, column);
  }

  /** Matrix<4, 4> * Point: row i of the result is m[i, 0] x + m[i, 1] y + m[i, 2] z + m[i, 3],
      so column 3 moves the point (MultiplyPointIsProduct shows this is the source's product with
      asMatrix(point), rows 0 to 2). */
  function MultiplyPoint(m: Matrix, p: Point): (r: Point)
    requires IsTransform(m)
  {
    Coordinate(RowTimesPoint(m, 0, p), RowTimesPoint(m, 1, p), RowTimesPoint(m, 2, p))
  }

  /** Row i of a transformation applied to the point (x, y, z, 1). */
  function RowTimesPoint(m: Matrix, i: nat, p: Point): real
    requires IsTransform(m) && i < 4
  {
    Cell(m, i, 0) * p.x + Cell(m, i, 1) * p.y + Cell(m, i, 2) * p.z + Cell(m, i, 3)
  }

  /** Matrix<4, 4> * Direction: like a point, but with w = 0, so column 3 (the translation part)
      does not act on a direction (MultiplyDirectionIsProduct shows this is the source's product
      with asMatrix(direction), rows 0 to 2). */
  function MultiplyDirection(m: Matrix, d: Direction): (r: Direction)
    requires IsTransform(m)
  {
    Coordinate(Cell(m, 0, 0) * d.x + Cell(m, 0, 1) * d.y + Cell(m, 0, 2) * d.z,
               Cell(m, 1, 0) * d.x + Cell(m, 1, 1) * d.y + Cell(m, 1, 2) * d.z,
               Cell(m, 2, 0) * d.x + Cell(m, 2, 1) * d.y + Cell(m, 2, 2) * d.z)
  }

  /** multiply(transformation, point): the product with asMatrix(point), read at rows 0 to 2. */
  lemma {:induction false} MultiplyPointIsProduct(m: Matrix, p: Point)
    requires IsTransform(m)
    ensures var transformed := Product(m, PointAsMatrix(p));
      MultiplyPoint(m, p) == Coordinate(Cell(transformed, 0, 0), Cell(transformed, 1, 0), Cell(transformed, 2, 0))
  {
    SumProducts4(m, PointAsMatrix(p), 0, 0);
    SumProducts4(m, PointAsMatrix(p), 1, 0);
    SumProducts4(m, PointAsMatrix(p), 2, 0);
  }

  /** multiply(transformation, direction): the product with asMatrix(direction), read at rows 0
      to 2. */
  lemma {:induction false} MultiplyDirectionIsProduct(m: Matrix, d: Direction)
    requires IsTransform(m)
    ensures var transformed := Product(m, DirectionAsMatrix(d));
      MultiplyDirection(m, d) == Coordinate(Cell(transformed, 0, 0), Cell(transformed, 1, 0), Cell(transformed, 2, 0))
  {
    SumProducts4(m, DirectionAsMatrix(d), 0, 0);
    SumProducts4(m, DirectionAsMatrix(d), 1, 0);
    SumProducts4(m, DirectionAsMatrix(d), 2, 0);
  }

  /** A translation moves a point by its offset and leaves every direction as it is. */
  lemma {:induction false} TranslationMovesPointsOnly(x: real, y: real, z: real, p: Point, d: Direction)
    ensures MultiplyPoint(TranslationMatrix(x, y, z), p) == Displace(p, Coordinate(x, y, z))
    ensures MultiplyDirection(TranslationMatrix(x, y, z), d) == d
  {
  }

  /** A scaling multiplies the components of points and directions alike. */
  lemma {:induction false} ScalingScales(x: real, y: real, z: real, p: Point, d: Direction)
    ensures MultiplyPoint(ScalingMatrix(x, y, z), p) == Coordinate(x * p.x, y * p.y, z * p.z)
    ensures MultiplyDirection(ScalingMatrix(x, y, z), d) == Coordinate(x * d.x, y * d.y, z * d.z)
  {
  }

  /** identity<4> moves nothing. */
  lemma {:induction false} IdentityTransformsNothing(p: Point, d: Direction)
    ensures MultiplyPoint(Identity(4), p) == p
    ensures MultiplyDirection(Identity(4), d) == d
  {
  }

  /** The regrouping behind ProductRow, over plain reals: c0..c3 are row i of a * b (the
      bottom row of b being 0, 0, 0, 1) and (qx, qy, qz) is b applied to (x, y, z). */
  lemma {:induction false} Regroup(a0: real, a1: real, a2: real, a3: real,
                                   b00: real, b01: real, b02: real, b03: real,
                                   b10: real, b11: real, b12: real, b13: real,
                                   b20: real, b21: real, b22: real, b23: real,
                                   x: real, y: real, z: real,
                                   c0: real, c1: real, c2: real, c3: real, qx: real, qy: real, qz: real)
    requires c0 == a0 * b00 + a1 * b10 + a2 * b20 && c1 == a0 * b01 + a1 * b11 + a2 * b21
    requires c2 == a0 * b02 + a1 * b12 + a2 * b22 && c3 == a0 * b03 + a1 * b13 + a2 * b23 + a3
    requires qx == b00 * x + b01 * y + b02 * z + b03 && qy == b10 * x + b11 * y + b12 * z + b13
    requires qz == b20 * x + b21 * y + b22 * z + b23
    ensures c0 * x + c1 * y + c2 * z + c3 == a0 * qx + a1 * qy + a2 * qz + a3
  {
    calc {
      a0 * qx + a1 * qy + a2 * qz + a3;
      a0 * (b00 * x + b01 * y + b02 * z + b03) + a1 * (b10 * x + b11 * y + b12 * z + b13)
        + a2 * (b20 * x + b21 * y + b22 * z + b23) + a3;
      (a0 * b00 * x + a0 * b01 * y + a0 * b02 * z + a0 * b03)
        + (a1 * b10 * x + a1 * b11 * y + a1 * b12 * z + a1 * b13)
        + (a2 * b20 * x + a2 * b21 * y + a2 * b22 * z + a2 * b23) + a3;
      (a0 * b00 + a1 * b10 + a2 * b20) * x + (a0 * b01 + a1 * b11 + a2 * b21) * y
        + (a0 * b02 + a1 * b12 + a2 * b22) * z + (a0 * b03 + a1 * b13 + a2 * b23 + a3);
    }
  }

  /** Cell (i, j) of a * b when the bottom row of b is (0, 0, 0, 1). */
  lemma {:induction false} AffineProductCell(a: Matrix, b: Matrix, i: nat, j: nat)
    requires IsTransform(a) && IsTransform(b) && Affine(b) && i < 4 && j < 4
    ensures Cell(Product(a, b), i, j) == Cell(a, i, 0) * Cell(b, 0, j) + Cell(a, i, 1) * Cell(b, 1, j)
      + Cell(a, i, 2) * Cell(b, 2, j) + (if j == 3 then Cell(a, i, 3) else 0.0)
  {
    SumProducts4(a, b, i, j);
  }

  /** Row i of a * b applied to p equals row i of a applied to b p. */
  lemma {:induction false} ProductRow(a: Matrix, b: Matrix, p: Point, i: nat)
    requires IsTransform(a) && IsTransform(b) && Affine(b) && i < 3
    ensures RowTimesPoint(Product(a, b), i, p) == RowTimesPoint(a, i, MultiplyPoint(b, p))
  {
    AffineProductCell(a, b, i, 0);
    AffineProductCell(a, b, i, 1);
    AffineProductCell(a, b, i, 2);
    AffineProductCell(a, b, i, 3);
    RowRegroup(a, b, Product(a, b), p, i);
  }

  /** ProductRow for any matrix ab whose row i holds the cells of a * b. */
  lemma {:induction false} RowRegroup(a: Matrix, b: Matrix, ab: Matrix, p: Point, i: nat)
    requires IsTransform(a) && IsTransform(b) && IsTransform(ab) && Affine(b) && i < 3
    requires forall j: nat :: j < 4 ==>
      (Cell(ab, i, j) == Cell(a, i, 0) * Cell(b, 0, j) + Cell(a, i, 1) * Cell(b, 1, j)
        + Cell(a, i, 2) * Cell(b, 2, j) + (if j == 3 then Cell(a, i, 3) else 0.0))
    ensures RowTimesPoint(ab, i, p) == RowTimesPoint(a, i, MultiplyPoint(b, p))
  {
    var q := MultiplyPoint(b, p);
    Regroup(Cell(a, i, 0), Cell(a, i, 1), Cell(a, i, 2), Cell(a, i, 3),
            Cell(b, 0, 0), Cell(b, 0, 1), Cell(b, 0, 2), Cell(b, 0, 3),
            Cell(b, 1, 0), Cell(b, 1, 1), Cell(b, 1, 2), Cell(b, 1, 3),
            Cell(b, 2, 0), Cell(b, 2, 1), Cell(b, 2, 2), Cell(b, 2, 3),
            p.x, p.y, p.z, Cell(ab, i, 0), Cell(ab, i, 1), Cell(ab, i, 2), Cell(ab, i, 3), q.x, q.y, q.z);
  }

  /** Applying a product is applying its factors one after the other, right factor first, when
      the right factor is affine. */
  lemma {:induction false} ProductAppliesInTurn(a: Matrix, b: Matrix, p: Point)
    requires IsTransform(a) && IsTransform(b) && Affine(b)
    ensures MultiplyPoint(Product(a, b), p) == MultiplyPoint(a, MultiplyPoint(b, p))
  {
    var ab, q := Product(a, b), MultiplyPoint(b, p);
    assert MultiplyPoint(ab, p).x == MultiplyPoint(a, q).x by { ProductRow(a, b, p, 0); }
    assert MultiplyPoint(ab, p).y == MultiplyPoint(a, q).y by { ProductRow(a, b, p, 1); }
    assert MultiplyPoint(ab, p).z == MultiplyPoint(a, q).z by { ProductRow(a, b, p, 2); }
  }

  /** C * B * A applied to a point is A, then B, then C applied in turn. */
  lemma {:induction false} ChainedTransformations(a: Matrix, b: Matrix, c: Matrix, p: Point)
    requires IsTransform(a) && IsTransform(b) && IsTransform(c) && Affine(a) && Affine(b)
    ensures MultiplyPoint(Product(Product(c, b), a), p) == MultiplyPoint(c, MultiplyPoint(b, MultiplyPoint(a, p)))
  {
    ProductAppliesInTurn(Product(c, b), a, p);
    ProductAppliesInTurn(c, b, MultiplyPoint(a, p));
  }

  /** A scaling is the diagonal matrix of (x, y, z, 1). */
  lemma {:induction false} ScalingIsDiagonal(x: real, y: real, z: real)
    ensures ScalingMatrix(x, y, z) == Diagonal([x, y, z, 1.0])
  {
    CellsDetermineMatrix(ScalingMatrix(x, y, z), Diagonal([x, y, z, 1.0]));
  }

  /** The inverse of a scaling divides: it exists unless x * y * z is zero within Epsilon, and
      then it is the scaling by the reciprocals. */
  lemma {:induction false} ScalingInverse(x: real, y: real, z: real)
    ensures Inverse(ScalingMatrix(x, y, z)).Err? <==> IsEqual(x * y * z, 0.0)
    ensures !IsEqual(x * y * z, 0.0) ==>
      x != 0.0 && y != 0.0 && z != 0.0 && Inverse(ScalingMatrix(x, y, z)) == Ok(ScalingMatrix(1.0 / x, 1.0 / y, 1.0 / z))
  {
    var d := [x, y, z, 1.0];
    ScalingIsDiagonal(x, y, z);
    assert d[1..] == [y, z, 1.0] && d[2..] == [z, 1.0] && d[3..] == [1.0] && d[4..] == [];
    assert ProductOf(d[3..]) == 1.0;
    assert ProductOf(d[2..]) == z;
    assert ProductOf(d) == x * y * z;
    DiagonalInverse(d);
    if !IsEqual(x * y * z, 0.0) {
      ScalingIsDiagonal(1.0 / x, 1.0 / y, 1.0 / z);
      assert Reciprocals(d) == [1.0 / x, 1.0 / y, 1.0 / z, 1.0];
    }
  }

  /** The cofactors of a translation, transposed, form the translation by the negated offset. */
  lemma {:induction false} TranslationCofactor(x: real, y: real, z: real, i: nat, j: nat)
    requires i < 4 && j < 4
    ensures Cofactor(TranslationMatrix(x, y, z), j, i) == Cell(TranslationMatrix(-x, -y, -z), i, j)
  {
    var t := TranslationMatrix(x, y, z);
    Cofactor4(t, j, i);
  }

  /** A translation has determinant 1. */
  lemma {:induction false} TranslationDeterminant(x: real, y: real, z: real)
    ensures Determinant(TranslationMatrix(x, y, z)) == 1.0
  {
    var t := TranslationMatrix(x, y, z);
    Determinant4(t);
    TranslationCofactor(x, y, z, 0, 0);
    TranslationCofactor(x, y, z, 3, 0);
  }

  /** The inverse of a translation subtracts the offset. */
  lemma {:induction false} TranslationInverse(x: real, y: real, z: real)
    ensures Inverse(TranslationMatrix(x, y, z)) == Ok(TranslationMatrix(-x, -y, -z))
  {
    var t := TranslationMatrix(x, y, z);
    TranslationDeterminant(x, y, z);
    var inv := Inverse(t).value;
    forall i: nat, j: nat | i < 4 && j < 4
      ensures Cell(inv, i, j) == Cell(TranslationMatrix(-x, -y, -z), i, j)
    {
      TranslationCofactor(x, y, z, i, j);
    }
    CellsDetermineMatrix(inv, TranslationMatrix(-x, -y, -z));
  }
}

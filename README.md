# Ray tracer kernel, modelled in Dafny

This project models the header-only kernel of a small ray tracer written in C++17 in the style of
"The Ray Tracer Challenge". The kernel is made of:

- tolerant floating-point comparison with `epsilon = 0.000001`;
- strongly typed `Row`/`Column` indices with `size_t` arithmetic;
- `Point`, `Direction` and `Color` value types;
- a fixed-size row-major `Matrix<N, M>` with product, transpose, submatrix, minor, cofactor,
  determinant and inverse;
- translation and scaling transforms;
- rays, unit spheres and ray–sphere intersection, with the `hit` selection;
- reflection and Phong lighting;
- a `Canvas` of colours and its PPM (P3) text output, which wraps lines at 70 characters.

## How the model is built

- Value types (`Coordinate`, `Color`, `Ray`, `Sphere`, `Material`, `Intersection`,
  `IntersectionResult`) are Dafny datatypes.
  - `Point` and `Direction` share one phantom-tagged `Coordinate`, as the C++ types share the
    `Coordinate<SubType>` base.
  - `Row` and `Column` share one phantom-tagged `ValueType` whose value is a `size_t`. Its
    arithmetic wraps modulo 2^64, as the source's unsigned arithmetic does.
- Doubles are modelled as mathematical reals.
  - `roundDouble` is modelled by `CppStd.Round`, which rounds half away from zero, and
    `CppStd.Wrap`, which converts to `size_t`.
  - `std::sqrt` and `std::pow` are ghost functions. A lemma that needs an exact square root takes
    `HasSquareRoot(x)` as a premise.
- Every `throw std::invalid_argument` / `std::logic_error` of the source is an `Err` of a
  `Result` (or a `Fail` of an `Outcome`). The error kind is stated in the contracts.
- `Matrix` is a grid of cells (`Matrices.Matrix`).
  - `Values(m)` is its row-major store, the source's `values` array.
  - The in-place operations (`*=`, `/=` and cell assignment through `operator[]`) are methods of
    the class `MatrixStores.MatrixStore`, which holds an `array<real>`.
  - The source's loops (product, transpose, submatrix, identity, determinant, cofactor and minor
    matrices, inverse) are methods in `MatrixLoops`. Each method is proved equal to a
    specification function in `Matrices` or `Determinants`, and the algebra is proved about
    those functions (`DeterminantLaws`, `Transformations`). `AdjugateLaws` writes the 3×3 and
    4×4 determinants out from the cells and proves from them that `inverse` is a two-sided
    inverse for those sizes.
- `Canvas` is a class over an `array<Color>` with the source's bounds checks.
  - An output stream is modelled as the text written to it.
  - `printPPMPixelRow` and `printPPMPixels` are loops proved equal to `WrapRow` and `PixelsText`.
  - Lemmas show that no line of the pixel text exceeds 70 characters, and that the wrapping only
    ever replaces a space by a line break between two whole colour triples.

## Model

All source paths below are relative to the repository root.

| member | source | states |
|---|---|---|
| CppStd.Round | RayTracerTest/include/DoubleComparison.h:17-20 | `std::round`: the result is within one half of the input, and ties go away from zero |
| CppStd.Sqrt | RayTracerTest/include/Direction.h:41-43 | `std::sqrt` is non-negative and, where a root exists, squares back to its argument |
| CppStd.IntPow | RayTracerTest/include/Light.h:42 | the power by a natural exponent: 1 for exponent 0, base times the power one lower otherwise, and positive for a positive base |
| CppStd.Pow | RayTracerTest/include/Light.h:42 | `std::pow` of a positive base is positive, and equals the repeated product for a non-negative integral exponent |
| DoubleComparison.IsEqual | RayTracerTest/include/DoubleComparison.h:11-14 | `isEqual`: the absolute difference is strictly below epsilon; no `ensures`, its laws are `DoubleComparison.IsEqualTolerance` |
| DoubleComparison.IsEqualTolerance | RayTracerTest/include/DoubleComparison.h:8-14 | `isEqual` is reflexive and symmetric, and holds exactly when the two values differ by less than epsilon |
| DoubleComparison.IsEqualNotTransitive | RayTracerTest/include/DoubleComparison.h:11-14 | tolerant equality is not transitive: 0 ≈ 0.0000006 ≈ 0.0000012, but 0 ≉ 0.0000012 |
| DoubleComparison.RoundDouble | RayTracerTest/include/DoubleComparison.h:17-20 | `roundDouble` is the nearest integer when that lies in [0, 2^63), the non-negative range of the `long` that `std::lround` returns; a negative rounding no lower than -2^63 wraps modulo 2^64 |
| DoubleComparison.RoundDoubleExamples | RayTracerTest/include/DoubleComparison.h:17-20 | 2.5 rounds to 3, 2.49 to 2, 0 to 0, and -0.5 wraps to 2^64-1 |
| ValueTypes.Increment | RayTracerTest/include/ValueType.h:14-17 | prefix `++` adds one, wrapping the largest `size_t` to 0 |
| ValueTypes.PostIncrement | RayTracerTest/include/ValueType.h:19-23 | postfix `++` yields the old value and stores the incremented one |
| ValueTypes.Decrement | RayTracerTest/include/ValueType.h:28-31 | prefix `--` subtracts one, wrapping 0 to the largest `size_t` |
| ValueTypes.PostDecrement | RayTracerTest/include/ValueType.h:33-37 | postfix `--` yields the old value and stores the decremented one |
| ValueTypes.Plus | RayTracerTest/include/ValueType.h:42-49 | `+` is the sum modulo 2^64 |
| ValueTypes.Minus | RayTracerTest/include/ValueType.h:54-61 | `-` is the difference modulo 2^64 |
| ValueTypes.IncrementDecrementInverse | RayTracerTest/include/ValueType.h:12-38 | `++` and `--` undo each other for every value, across the wrap-around too |
| ValueTypes.PlusMinusInverse | RayTracerTest/include/ValueType.h:40-62 | adding then subtracting the same value (or the reverse) gives back the original |
| ValueTypes.Less | RayTracerTest/include/ValueType.h:77-79 | `<` compares the wrapped values; no `ensures`, its order laws are `ValueTypes.OrderIsTotal` |
| ValueTypes.Greater | RayTracerTest/include/ValueType.h:81-83 | `>` is `<` with the operands swapped; no `ensures`, see `ValueTypes.OrderIsTotal` |
| ValueTypes.LessOrEqual | RayTracerTest/include/ValueType.h:85-87 | `<=` is not `>`; no `ensures`, see `ValueTypes.OrderIsTotal` |
| ValueTypes.GreaterOrEqual | RayTracerTest/include/ValueType.h:89-91 | `>=` is not `<`; no `ensures`, see `ValueTypes.OrderIsTotal` |
| ValueTypes.OrderIsTotal | RayTracerTest/include/ValueType.h:64-92 | the comparisons form a strict total order; `<=` is `<` or equal, and `>=` is `<=` reversed |
| Indices.RowLiteral | RayTracerTest/include/Index.h:15-17 | the `_row` literal makes a `Row` holding the given number |
| Indices.ColumnLiteral | RayTracerTest/include/Index.h:22-24 | the `_column` literal makes a `Column` holding the given number |
| Indices.MakeRange | RayTracerTest/include/Index.h:45-49 | a range whose end is before its begin throws `logic_error`; otherwise it keeps both bounds |
| Indices.Elements | RayTracerTest/include/Index.h:51-57 | iterating a range yields end-begin indices, consecutive from begin |
| Indices.RangeVisitsEachIndexOnce | RayTracerTest/include/Index.h:38-58 | a range visits each index in [begin, end) exactly once, and no other |
| Coordinates.Zero | RayTracerTest/include/Coordinate.h:10-14 | the default coordinate is (0, 0, 0) |
| Coordinates.Equals | RayTracerTest/include/Coordinate.h:20-22 | coordinates are equal when each component is equal within epsilon; no `ensures`, its laws are `Coordinates.EqualsTolerance` |
| Coordinates.EqualsTolerance | RayTracerTest/include/Coordinate.h:20-22 | coordinate equality is reflexive and symmetric, and holds exactly when each component is within epsilon |
| Coordinates.TenthApartIsUnequal | RayTracerTest/test/OperationsTestSuite.cpp:14-18 | coordinates that differ by 0.1 in one component are unequal |
| Directions.Add | RayTracerTest/include/Direction.h:14-19 | direction `+` adds componentwise (partner: Directions.InverseLaws) |
| Directions.Negate | RayTracerTest/include/Direction.h:21-23 | unary `-` negates each component (partner: Directions.InverseLaws) |
| Directions.Subtract | RayTracerTest/include/Direction.h:25-27 | direction `-` subtracts componentwise (partner: Directions.InverseLaws) |
| Directions.Scale | RayTracerTest/include/Direction.h:29-34 | `*=` by a factor multiplies each component; no `ensures`, undone by `Directions.Divide` |
| Directions.Divide | RayTracerTest/include/Direction.h:36-38 | dividing by a non-zero factor is undone by scaling with it |
| Directions.Cross | RayTracerTest/include/Direction.h:57-59 | the cross product is orthogonal to both of its operands |
| Directions.Magnitude | RayTracerTest/include/Direction.h:41-43 | the magnitude is non-negative and squares to the dot product of the direction with itself |
| Directions.MagnitudeOfScaled | RayTracerTest/include/Direction.h:41-43 | a direction whose squared length is m² (m ≥ 0) has magnitude m |
| Directions.Normalize | RayTracerTest/include/Direction.h:45-51 | `normalize` throws `invalid_argument` exactly when the magnitude is 0 within epsilon; otherwise it divides by the magnitude |
| Directions.NormalizedHasUnitMagnitude | RayTracerTest/include/Direction.h:45-51 | a normalized direction has length 1 |
| Directions.NormalizeUnitIsIdentity | RayTracerTest/include/Direction.h:45-51 | normalizing a unit direction gives it back unchanged |
| Directions.NormalizeIsIdempotent | RayTracerTest/include/Direction.h:45-51 | normalizing twice equals normalizing once |
| Directions.ZeroCannotBeNormalized | RayTracerTest/test/OperationsTestSuite.cpp:174-177 | the zero direction has magnitude 0 and `normalize` throws `invalid_argument` for it |
| Directions.AxesHaveUnitMagnitude | RayTracerTest/test/OperationsTestSuite.cpp:158-166 | the three unit axes have magnitude 1 |
| Directions.NormalizeExample | RayTracerTest/test/OperationsTestSuite.cpp:179-191 | (4, 0, 0) normalizes to (1, 0, 0) |
| Directions.InverseLaws | RayTracerTest/include/Direction.h:14-27 | d + (-d) is zero; adding then subtracting the same direction (or the reverse) is the identity |
| Directions.Dot | RayTracerTest/include/Direction.h:53-55 | `dot` is the sum of the componentwise products; no `ensures`, its laws are `Directions.ProductLaws` and `Directions.Magnitude` |
| Directions.ProductLaws | RayTracerTest/include/Direction.h:53-59 | the dot product is symmetric and the cross product is antisymmetric |
| Directions.DotCrossExamples | RayTracerTest/test/OperationsTestSuite.cpp:200-211 | dot((1,2,3),(2,3,4)) = 20; the cross products are (-1,2,-1) and (1,-2,1) |
| Points.Displace | RayTracerTest/include/Point.h:18-23 | point + direction moves the point componentwise (partner: Points.AffineRoundTrips) |
| Points.Difference | RayTracerTest/include/Point.h:25-27 | point - point is the componentwise displacement between them (partner: Points.AffineRoundTrips) |
| Points.DisplaceBack | RayTracerTest/include/Point.h:29-31 | point - direction moves the point back componentwise (partner: Points.AffineRoundTrips) |
| Points.AffineRoundTrips | RayTracerTest/include/Point.h:18-31 | moving p by d and measuring back from p gives d; p + (q - p) = q; `+ d` and `- d` undo each other; q - p = -(p - q) |
| Colors.Negate | RayTracerTest/include/Color.h:28-30 | unary `-` negates each channel (partner: Colors.InverseLaws) |
| Colors.Add | RayTracerTest/include/Color.h:32-37 | colour `+` adds channelwise (partner: Colors.InverseLaws) |
| Colors.Subtract | RayTracerTest/include/Color.h:39-41 | colour `-` subtracts channelwise (partner: Colors.InverseLaws) |
| Colors.Scale | RayTracerTest/include/Color.h:43-48 | `*=` by a factor multiplies each channel; no `ensures`, its values are checked by `Colors.ColorExamples` |
| Colors.Hadamard | RayTracerTest/include/Color.h:50-55 | the colour product multiplies channelwise (partner: Colors.HadamardLaws) |
| Colors.HadamardLaws | RayTracerTest/include/Color.h:50-55 | the colour product is commutative, white is its unit and black absorbs |
| Colors.InverseLaws | RayTracerTest/include/Color.h:28-41 | c + (-c) is black; adding then subtracting the same colour (or the reverse) is the identity |
| Colors.Equals | RayTracerTest/include/Color.h:23-25 | colours are equal when each channel is equal within epsilon; no `ensures`, its laws are `Colors.EqualsTolerance` |
| Colors.EqualsTolerance | RayTracerTest/include/Color.h:23-25 | colour equality is reflexive and symmetric |
| Colors.ColorExamples | RayTracerTest/test/ColorTestSuite.cpp:37-104 | the values of the test suite's sum, difference, scaling, product and inequality examples |
| Matrices.Values | RayTracerTest/include/Matrix.h:34 | the row-major store holds rows × columns values |
| Matrices.ValuesHoldCells | RayTracerTest/include/Matrix.h:36-44 | cell (r, c) is stored at offset r·columns + c |
| Matrices.ValuesAt | RayTracerTest/include/Matrix.h:36-44 | every offset i of the store holds cell (i / columns, i % columns) |
| Matrices.ToAbsoluteOffset | RayTracerTest/include/Matrix.h:36-44 | the offset computation throws `invalid_argument` exactly for an out-of-range row or column; otherwise it is r·columns + c, inside the store |
| Matrices.Get | RayTracerTest/include/Matrix.h:50-52 | reading a cell throws exactly when out of range; otherwise it yields that cell |
| Matrices.Equals | RayTracerTest/include/Matrix.h:55-67 | `operator==` compares the two row-major stores value by value within epsilon; no `ensures`, see `Matrices.EqualsIsCellwise` |
| Matrices.EqualsIsCellwise | RayTracerTest/include/Matrix.h:55-72 | matrix equality holds exactly when every pair of corresponding cells is equal within epsilon |
| Matrices.EqualsTolerance | RayTracerTest/include/Matrix.h:55-72 | matrix equality is reflexive and symmetric |
| Matrices.Tabulate | RayTracerTest/include/Matrix.h:233-242 | building a matrix cell by cell yields the given value in every cell |
| Matrices.FromValues | RayTracerTest/include/Matrix.h:34 | a matrix built from a row-major value list has the requested shape (partner: Matrices.FromValuesRoundTrip) |
| Matrices.ValuesRoundTrip | RayTracerTest/include/Matrix.h:34 | rebuilding a matrix from its own store gives the same matrix |
| Matrices.FromValuesRoundTrip | RayTracerTest/include/Matrix.h:34 | the store of a matrix built from a value list is that list |
| Matrices.Updated | RayTracerTest/include/Matrix.h:46-48 | writing one cell changes that cell and no other |
| Matrices.StoreWrite | RayTracerTest/include/Matrix.h:46-48 | writing offset r·columns + c of the store is writing cell (r, c) |
| Matrices.Zeros | RayTracerTest/include/Matrix.h:34 | a default matrix has every cell 0 |
| Matrices.ZerosStore | RayTracerTest/test/MatrixTestSuite.cpp:11-22 | an all-zero store is the zero matrix |
| Matrices.Product | RayTracerTest/include/Matrix.h:94-107 | each cell of a product is the sum over k of lhs(r, k)·rhs(k, c) |
| Matrices.Scaled | RayTracerTest/include/Matrix.h:109-128 | `* factor` multiplies every cell and keeps the shape |
| Matrices.Divided | RayTracerTest/include/Matrix.h:130-144 | `/ divisor` divides every cell and keeps the shape |
| Matrices.PointAsMatrix | RayTracerTest/include/Matrix.h:150-152 | a point becomes the column (x, y, z, 1) |
| Matrices.DirectionAsMatrix | RayTracerTest/include/Matrix.h:146-148 | a direction becomes the column (x, y, z, 0) |
| Matrices.Transposed | RayTracerTest/include/Matrix.h:156-167 | the transpose swaps the shape and has cell (r, c) = m(c, r) (corrected definition, see Findings) |
| Matrices.TransposeInvolution | RayTracerTest/include/Matrix.h:156-167 | transposing twice gives the original matrix |
| Matrices.Identity | RayTracerTest/include/Matrix.h:169-181 | the identity has 1 on the diagonal and 0 elsewhere |
| Matrices.IdentityIsSymmetric | RayTracerTest/include/Matrix.h:169-181 | the identity is its own transpose |
| Matrices.IdentityIsNeutral | RayTracerTest/test/MatrixTestSuite.cpp:157-175 | multiplying by the identity, on either side, gives the matrix back |
| Matrices.SkipIndex | RayTracerTest/include/Matrix.h:187-189 | the index mapping of `submatrix` never lands on the skipped index and keeps the indices below it |
| Matrices.Submatrix | RayTracerTest/include/Matrix.h:183-194 | the submatrix is one row and one column smaller, each cell taken from the source around the skipped row and column (corrected definition, see Findings) |
| Matrices.SubmatrixKeepsOtherCells | RayTracerTest/include/Matrix.h:183-194 | every source cell outside the skipped row and column appears in the submatrix |
| MatrixStores.MatrixStore.Value | RayTracerTest/include/Matrix.h:34 | the stored matrix has the store's shape |
| MatrixStores.MatrixStore.constructor | RayTracerTest/include/Matrix.h:96 | a new matrix holds zeros |
| MatrixStores.MatrixStore.Copy | RayTracerTest/include/Matrix.h:119-128 | copying a matrix into a fresh store holds exactly that matrix |
| MatrixStores.MatrixStore.At | RayTracerTest/include/Matrix.h:50-52 | reading through `operator[]` is `Matrices.Get` of the stored matrix |
| MatrixStores.MatrixStore.CellAt | RayTracerTest/include/Matrix.h:50-52 | reading an in-range cell yields that cell |
| MatrixStores.MatrixStore.Assign | RayTracerTest/include/Matrix.h:46-48 | assignment through `operator[]` throws for an out-of-range index and leaves the store unchanged; otherwise exactly that cell changes |
| MatrixStores.MatrixStore.AssignCell | RayTracerTest/include/Matrix.h:46-48 | writing an in-range cell changes exactly that cell |
| MatrixStores.MatrixStore.MultiplyBy | RayTracerTest/include/Matrix.h:109-117 | `*=` leaves the stored matrix scaled by the factor |
| MatrixStores.MatrixStore.DivideBy | RayTracerTest/include/Matrix.h:130-138 | `/=` leaves the stored matrix divided by the divisor |
| Determinants.Determinant | RayTracerTest/include/Matrix.h:199-224 | the 2×2 formula, or the first-row expansion over cofactors; no `ensures`, its values are stated by the `DeterminantLaws` and `AdjugateLaws` lemmas |
| Determinants.Minor | RayTracerTest/include/Matrix.h:205-209 | the determinant of the submatrix; no `ensures`, see `DeterminantLaws.Minor3` |
| Determinants.Cofactor | RayTracerTest/include/Matrix.h:211-215 | the minor, negated when row + column is odd; no `ensures`, see `AdjugateLaws.CofactorClosedForm` |
| Determinants.Invertible | RayTracerTest/include/Matrix.h:226-229 | invertible exactly when the determinant is not 0 within epsilon; no `ensures`, used by `Determinants.Inverse` |
| Determinants.CofactorsOf | RayTracerTest/include/Matrix.h:256-261 | the cofactor matrix holds cofactor(r, c) in each cell |
| Determinants.MinorsOf | RayTracerTest/include/Matrix.h:263-268 | the minor matrix holds minor(r, c) in each cell |
| Determinants.Inverse | RayTracerTest/include/Matrix.h:271-280 | `inverse` throws `invalid_argument` exactly when the determinant is 0 within epsilon; otherwise cell (i, j) is cofactor(j, i) / determinant |
| DeterminantLaws.Minor3 | RayTracerTest/include/Matrix.h:205-209 | a 3×3 minor is the 2×2 determinant of the four cells outside its row and column |
| DeterminantLaws.Determinant3 | RayTracerTest/include/Matrix.h:217-224 | the 3×3 determinant is the rule of Sarrus |
| DeterminantLaws.ExpansionSum3 | RayTracerTest/include/Matrix.h:217-224 | the 3×3 determinant is the alternating first-row expansion over minors |
| DeterminantLaws.CofactorSigns3 | RayTracerTest/include/Matrix.h:211-215 | first-row cofactors carry the signs +, -, + of their minors |
| DeterminantLaws.ExpansionSum3Cofactors | RayTracerTest/include/Matrix.h:217-224 | the 3×3 determinant is the first-row expansion over cofactors |
| DeterminantLaws.Cofactor4 | RayTracerTest/include/Matrix.h:211-215 | a 4×4 cofactor is the signed determinant of its 3×3 submatrix |
| DeterminantLaws.Determinant4 | RayTracerTest/include/Matrix.h:217-224 | the 4×4 determinant is the first-row expansion over its four cofactors |
| DeterminantLaws.TwoByTwoExample | RayTracerTest/test/MatrixTestSuite.cpp:193-200 | det [[1, 5], [-3, 2]] = 17 |
| DeterminantLaws.ThreeByThreeExample | RayTracerTest/test/MatrixTestSuite.cpp:270-277 | the test's 3×3 matrix has cofactors 56, 12, -46 and determinant -196 |
| DeterminantLaws.MinorsAndCofactorsExample | RayTracerTest/test/MatrixTestSuite.cpp:230-268 | the test's minors 25, -12, 52 and their cofactors -25, -12, -52 |
| DeterminantLaws.FourByFourLeftCofactors | RayTracerTest/test/MatrixTestSuite.cpp:279-287 | the test's 4×4 matrix has first-row cofactors 690 and 447 |
| DeterminantLaws.FourByFourRightCofactors | RayTracerTest/test/MatrixTestSuite.cpp:279-287 | the test's 4×4 matrix has first-row cofactors 210 and 51 |
| DeterminantLaws.FourByFourExample | RayTracerTest/test/MatrixTestSuite.cpp:279-287 | the test's 4×4 matrix has determinant -4071 |
| DeterminantLaws.ZeroRowDeterminant | RayTracerTest/include/Matrix.h:226-229 | a matrix with a zero row has determinant 0, is not invertible, and `inverse` throws for it |
| DeterminantLaws.Diagonal | RayTracerTest/include/Matrix.h:169-181 | a diagonal matrix holds the given values on its diagonal and 0 elsewhere |
| DeterminantLaws.SubmatrixOfDiagonal | RayTracerTest/include/Matrix.h:183-194 | removing row and column i of a diagonal matrix gives the diagonal matrix of the other values |
| DeterminantLaws.DiagonalExpansion | RayTracerTest/include/Matrix.h:217-224 | the first-row expansion of a diagonal matrix keeps only its first term |
| DeterminantLaws.DiagonalDeterminant | RayTracerTest/include/Matrix.h:199-224 | the determinant of a diagonal matrix is the product of its diagonal |
| DeterminantLaws.DiagonalCofactor | RayTracerTest/include/Matrix.h:211-215 | a diagonal matrix's cofactor is the product of the other diagonal values on the diagonal, and 0 off it |
| DeterminantLaws.DiagonalInverse | RayTracerTest/include/Matrix.h:271-280 | `inverse` of a diagonal matrix throws exactly when the product is 0 within epsilon; otherwise it is the diagonal of reciprocals |
| DeterminantLaws.IdentityIsDiagonal | RayTracerTest/include/Matrix.h:169-181 | the identity is the diagonal matrix of ones |
| DeterminantLaws.IdentityDeterminantAndInverse | RayTracerTest/test/MatrixTestSuite.cpp:442-445 | the identity has determinant 1 and is its own inverse |
| AdjugateLaws.CofactorClosedForm | RayTracerTest/include/Matrix.h:205-215 | the recursive `cofactor` of a 3×3 or 4×4 matrix is the signed determinant of the rows and columns its row and column leave, written out from the cells |
| AdjugateLaws.DeterminantOfRows3 | RayTracerTest/include/Matrix.h:217-224 | the 3×3 `determinant` is the determinant of its three rows |
| AdjugateLaws.DeterminantOfRows4 | RayTracerTest/include/Matrix.h:217-224 | the 4×4 `determinant` is the determinant of its four rows |
| AdjugateLaws.RowExpansion3 | RayTracerTest/include/Matrix.h:211-224 | in a 3×3 matrix, the cells of a row against the cofactors of the same row give the determinant, and against those of another row give 0 |
| AdjugateLaws.RowExpansion4 | RayTracerTest/include/Matrix.h:211-224 | the same for a 4×4 matrix |
| AdjugateLaws.CofactorTransposed | RayTracerTest/include/Matrix.h:211-215 | cofactor (r, c) of the transpose is cofactor (c, r) of the matrix |
| AdjugateLaws.DeterminantTransposed | RayTracerTest/include/Matrix.h:217-224 | transposing a 3×3 or 4×4 matrix keeps its determinant |
| AdjugateLaws.ColumnExpansion3 | RayTracerTest/include/Matrix.h:211-224 | in a 3×3 matrix, the cells of a column against the cofactors of the same column give the determinant, and against those of another column give 0 |
| AdjugateLaws.ColumnExpansion4 | RayTracerTest/include/Matrix.h:211-224 | the same for a 4×4 matrix |
| AdjugateLaws.InverseColumn3 | RayTracerTest/include/Matrix.h:271-280 | column c of the 3×3 inverse is the cofactors of row c over the determinant |
| AdjugateLaws.InverseColumn4 | RayTracerTest/include/Matrix.h:271-280 | column c of the 4×4 inverse is the cofactors of row c over the determinant |
| AdjugateLaws.InverseRow3 | RayTracerTest/include/Matrix.h:271-280 | row r of the 3×3 inverse is the cofactors of column r over the determinant |
| AdjugateLaws.InverseRow4 | RayTracerTest/include/Matrix.h:271-280 | row r of the 4×4 inverse is the cofactors of column r over the determinant |
| AdjugateLaws.RightProductIsIdentity | RayTracerTest/include/Matrix.h:271-280 | M times transpose(cofactorsOf(M)) / det is the identity, for every 3×3 or 4×4 M with a non-zero determinant |
| AdjugateLaws.LeftProductIsIdentity | RayTracerTest/include/Matrix.h:271-280 | transpose(cofactorsOf(M)) / det times M is the identity, for the same matrices |
| AdjugateLaws.InverseIsInverse | RayTracerTest/include/Matrix.h:271-280 | for every invertible 3×3 or 4×4 matrix M, `inverse` succeeds and M·inverse(M) and inverse(M)·M are both the identity |
| AdjugateLaws.InverseOfTransposed | RayTracerTest/test/MatrixTestSuite.cpp:457-465 | a 3×3 or 4×4 matrix is invertible exactly when its transpose is, and then inverse(transpose(M)) = transpose(inverse(M)) |
| AdjugateLaws.TestMatrixDeterminant | RayTracerTest/test/MatrixTestSuite.cpp:447-455 | the test's matrix has determinant -2276 |
| AdjugateLaws.InverseTestMatrix | RayTracerTest/test/MatrixTestSuite.cpp:447-465 | for the test's matrix, matrix * inverse(matrix) = identity<4> and inverse(transpose(matrix)) = transpose(inverse(matrix)) |
| MatrixLoops.Multiply | RayTracerTest/include/Matrix.h:94-107 | the triple loop of `operator*` computes `Matrices.Product` |
| MatrixLoops.Times | RayTracerTest/include/Matrix.h:119-128 | copying then `*=` (either operand order) computes `Matrices.Scaled` |
| MatrixLoops.Over | RayTracerTest/include/Matrix.h:140-144 | copying then `/=` computes `Matrices.Divided` |
| MatrixLoops.FillIdentity | RayTracerTest/include/Matrix.h:169-178 | the loop filling the diagonal computes `Matrices.Identity` |
| MatrixLoops.TransposeAsWritten | RayTracerTest/include/Matrix.h:156-167 | the source's `transpose`, loop bounds as written; when it succeeds the shape is swapped |
| MatrixLoops.TransposeAsWrittenOfSquare | RayTracerTest/include/Matrix.h:156-167 | for square matrices the source's `transpose` is the true transpose |
| MatrixLoops.TransposeOfRowThrows | RayTracerTest/include/Matrix.h:156-167 | for a 1×2 matrix the source's `transpose` throws, although the 2×1 transpose exists |
| MatrixLoops.TransposeSourceRow | RayTracerTest/include/Matrix.h:161-164 | one pass of the outer loop fails exactly when an inner write is out of range; otherwise one more source row is transposed |
| MatrixLoops.Transpose | RayTracerTest/include/Matrix.h:156-167 | the nested loop computes `TransposeAsWritten` |
| MatrixLoops.SubmatrixAsWritten | RayTracerTest/include/Matrix.h:183-194 | the source's `submatrix`, with its column bound as written; when it succeeds the shape shrinks by one in each direction |
| MatrixLoops.SubmatrixAsWrittenOfSquare | RayTracerTest/include/Matrix.h:183-194 | for square matrices the source's `submatrix` is the true submatrix |
| MatrixLoops.SubmatrixOfWideAndTallMatrices | RayTracerTest/include/Matrix.h:183-194 | for a 2×3 matrix the source's `submatrix` leaves its last column 0; for a 3×2 matrix it throws |
| MatrixLoops.SubmatrixTargetRow | RayTracerTest/include/Matrix.h:187-191 | one pass of the outer loop fails exactly when the matrix is taller than wide; otherwise one more target row is filled |
| MatrixLoops.SubmatrixLoop | RayTracerTest/include/Matrix.h:183-194 | the nested loop computes `SubmatrixAsWritten` |
| MatrixLoops.ComputeDeterminant | RayTracerTest/include/Matrix.h:199-224 | the 2×2 formula or the first-row loop computes `Determinants.Determinant` |
| MatrixLoops.ComputeCofactor | RayTracerTest/include/Matrix.h:211-215 | computes `Determinants.Cofactor`, the minor negated for odd row + column |
| MatrixLoops.ComputeMinor | RayTracerTest/include/Matrix.h:205-209 | computes `Determinants.Minor`, the determinant of the submatrix |
| MatrixLoops.CofactorsOfLoop | RayTracerTest/include/Matrix.h:256-261 | the loop computes `Determinants.CofactorsOf` |
| MatrixLoops.MinorsOfLoop | RayTracerTest/include/Matrix.h:263-268 | the loop computes `Determinants.MinorsOf` |
| MatrixLoops.ComputeInvertible | RayTracerTest/include/Matrix.h:226-229 | `isInvertible` is "determinant not 0 within epsilon" |
| MatrixLoops.ComputeInverse | RayTracerTest/include/Matrix.h:271-280 | the loop computes `Determinants.Inverse`, including the throw |
| Transformations.TranslationMatrix | RayTracerTest/include/Transformations.h:10-17 | a translation is a 4×4 transform with last row (0, 0, 0, 1) (partner: Transformations.TranslationMovesPointsOnly) |
| Transformations.TranslationWrites | RayTracerTest/include/Transformations.h:10-17 | writing x, y, z into column 3 of the identity gives the translation matrix |
| Transformations.Translation | RayTracerTest/include/Transformations.h:10-17 | `translation` computes the translation matrix |
| Transformations.TranslationDeterminant | RayTracerTest/include/Transformations.h:10-17 | every translation has determinant 1 |
| Transformations.ScalingMatrix | RayTracerTest/include/Transformations.h:43-50 | a scaling is a 4×4 transform with last row (0, 0, 0, 1) (partner: Transformations.ScalingScales) |
| Transformations.ScalingWrites | RayTracerTest/include/Transformations.h:43-50 | writing x, y, z onto the diagonal of the identity gives the scaling matrix |
| Transformations.Scaling | RayTracerTest/include/Transformations.h:43-50 | `scaling` computes the scaling matrix |
| Transformations.ScalingIsDiagonal | RayTracerTest/include/Transformations.h:43-50 | scaling(x, y, z) is the diagonal matrix (x, y, z, 1) |
| Transformations.MultiplyPoint | RayTracerTest/include/Transformations.h:21-36 | `matrix * point` over the first three rows of a 4×4 transform, with w = 1; no `ensures`, see `Transformations.MultiplyPointIsProduct` |
| Transformations.MultiplyDirection | RayTracerTest/include/Transformations.h:38-41 | `matrix * direction` over the first three rows of a 4×4 transform, with w = 0; no `ensures`, see `Transformations.MultiplyDirectionIsProduct` |
| Transformations.MultiplyPointIsProduct | RayTracerTest/include/Transformations.h:21-36 | `matrix * point` is the matrix product with the column (x, y, z, 1), read back as a point |
| Transformations.MultiplyDirectionIsProduct | RayTracerTest/include/Transformations.h:21-41 | `matrix * direction` is the matrix product with the column (x, y, z, 0), read back as a direction |
| Transformations.TranslationMovesPointsOnly | RayTracerTest/test/TransformationsTestSuite.cpp:21-39 | a translation moves every point by (x, y, z) and leaves every direction unchanged |
| Transformations.ScalingScales | RayTracerTest/test/TransformationsTestSuite.cpp:52-71 | a scaling multiplies each component of points and directions by its factor |
| Transformations.IdentityTransformsNothing | RayTracerTest/include/Transformations.h:33-41 | the identity leaves points and directions unchanged |
| Transformations.ProductAppliesInTurn | RayTracerTest/include/Transformations.h:33-36 | (A·B)·p = A·(B·p) when B is affine |
| Transformations.ChainedTransformations | RayTracerTest/test/TransformationsTestSuite.cpp:164-173 | the chained transform C·B·A applies A, then B, then C |
| Transformations.ScalingInverse | RayTracerTest/test/TransformationsTestSuite.cpp:59-64 | `inverse` of a scaling throws exactly when x·y·z is 0 within epsilon; otherwise it is scaling(1/x, 1/y, 1/z) |
| Transformations.TranslationInverse | RayTracerTest/test/TransformationsTestSuite.cpp:28-33 | the inverse of translation(x, y, z) is translation(-x, -y, -z) |
| Rays.Equals | RayTracerTest/include/Ray.h:20-22 | rays are equal when origins and directions are equal; no `ensures`, its laws are `Rays.EqualsTolerance` |
| Rays.Position | RayTracerTest/include/Ray.h:24-26 | `position` adds the direction times the time to the origin; no `ensures`, its laws are `Rays.PositionLaws` |
| Rays.Transform | RayTracerTest/include/Ray.h:28-31 | `transform` applies the matrix to the origin as a point and to the direction as a direction; no `ensures`, see `Rays.TransformMapsPositions` |
| Rays.EqualsTolerance | RayTracerTest/include/Ray.h:14-22 | ray equality is reflexive, symmetric and componentwise within epsilon; the default ray is all zero |
| Rays.RayInequalityExample | RayTracerTest/test/RayTestSuite.cpp:30-45 | rays whose origins differ by 1 in x are unequal |
| Rays.PositionLaws | RayTracerTest/include/Ray.h:24-26 | position(0) is the origin; position(t) - position(s) = (t - s)·direction |
| Rays.PositionComponents | RayTracerTest/include/Ray.h:24-26 | each component of position(t) is origin + direction·t |
| Rays.PositionExamples | RayTracerTest/test/RayTestSuite.cpp:47-52 | the test's positions at t = 0, 1, -2 and 2.5 |
| Rays.TransformMapsPositions | RayTracerTest/include/Ray.h:28-31 | the transformed ray at time t is the transform of the original ray's position at t |
| Rays.TranslatingARay | RayTracerTest/test/TransformationsTestSuite.cpp:175-183 | translating a ray moves its origin and keeps its direction |
| Rays.ScalingARay | RayTracerTest/test/TransformationsTestSuite.cpp:185-193 | scaling a ray scales its origin and its direction |
| Spheres.Equals | RayTracerTest/include/Sphere.h:22-24 | spheres are equal when their positions are equal; no `ensures`, see `Spheres.EqualityIgnoresTransformAndMaterial` |
| Spheres.NormalAt | RayTracerTest/include/Sphere.h:27-33 | `normalAt` as written: the inverse transform, the object point's offset from the origin, the transposed inverse, then `normalize`; no `ensures`, see `Spheres.NormalAtFailures` and `Spheres.NormalIsNormalized` |
| Spheres.EqualityIgnoresTransformAndMaterial | RayTracerTest/include/Sphere.h:22-24 | spheres compare equal by position alone: transform and material are ignored, and a moved centre is unequal |
| Spheres.WorldNormal | RayTracerTest/include/Sphere.h:27-31 | the unnormalised normal fails with `invalid_argument` exactly when the transform is not invertible |
| Spheres.WorldNormalOnIdentity | RayTracerTest/include/Sphere.h:27-31 | with the identity transform the world normal is the point's offset from the origin |
| Spheres.NormalAtFailures | RayTracerTest/include/Sphere.h:27-33 | `normalAt` throws `invalid_argument` exactly when the transform is singular or the world normal has magnitude 0 within epsilon |
| Spheres.NormalIsNormalized | RayTracerTest/test/ShapesTestSuite.cpp:50-56 | the normal has unit length and normalizing it again changes nothing |
| Spheres.NormalOnUnitSphere | RayTracerTest/test/ShapesTestSuite.cpp:21-48 | on the untransformed unit sphere the normal at a surface point is that point |
| Spheres.NormalOnTranslatedSphere | RayTracerTest/test/ShapesTestSuite.cpp:58-63 | on a translated sphere the normal is the normalized offset from the translated centre |
| Spheres.NormalOnScaledSphere | RayTracerTest/test/ShapesTestSuite.cpp:65-72 | on a sphere scaled by (x, y, z) the world normal divides each component of the point by the square of its factor; a singular scaling throws |
| Spheres.NormalIgnoresPosition | RayTracerTest/include/Sphere.h:27-33 | as written, the normal of the sphere at (5, 0, 0) at its surface point (5, 1, 0) is not (0, 1, 0) (see Findings) |
| Spheres.WorldNormalAboutCentre | RayTracerTest/include/Sphere.h:27-33 | corrected normal, measured from the sphere's position; fails exactly when the transform is singular |
| Spheres.WorldNormalAboutCentreOnIdentity | RayTracerTest/include/Sphere.h:27-33 | with the identity transform the corrected normal is the offset from the sphere's position |
| Spheres.NormalAboutCentreOnSphere | RayTracerTest/include/Sphere.h:27-33 | on an untransformed sphere at any position, the corrected normal at a surface point is its unit offset from the centre |
| Intersections.Discriminant | RayTracerTest/include/Intersections.h:49-55 | `discriminant`: b² - 4ac for the ray against the unit sphere about the sphere's position; no `ensures`, see `Intersections.NegativeDiscriminantMisses` |
| Intersections.IntersectInObjectSpace | RayTracerTest/include/Intersections.h:60-74 | the object-space half of `intersect`: empty for a negative discriminant, a not-a-number failure when a = 0 (a zero direction), otherwise the two roots; no `ensures`, see `Intersections.ObjectSpaceOutcome` and `Intersections.ObjectSpaceHits` |
| Intersections.Intersect | RayTracerTest/include/Intersections.h:57-75 | `intersect`: the ray transformed by the inverse of the shape's transform, intersected in object space; no `ensures`, see `Intersections.IntersectSingular` and `Intersections.IntersectFindsSurface` |
| Intersections.TwoIntersections | RayTracerTest/include/Intersections.h:32-35 | a two-record result holds both times in order, each on the given shape |
| Intersections.At | RayTracerTest/include/Intersections.h:37-42 | `operator[]` throws `invalid_argument` exactly for an index at or past the count; otherwise it yields that record |
| Intersections.ResultAccess | RayTracerTest/include/Intersections.h:37-42 | an empty result rejects every index; a two-record result yields its two records and rejects the rest |
| Intersections.ResultEqualityExamples | RayTracerTest/include/Intersections.h:44-46 | results are equal only when both the count and the times match exactly |
| Intersections.TouchesAtRoots | RayTracerTest/include/Intersections.h:57-64 | the ray touches the unit sphere about the centre at time t exactly when t solves the quadratic a·t² + b·t + c = 0 |
| Intersections.NegativeDiscriminantMisses | RayTracerTest/include/Intersections.h:49-55 | with a negative `discriminant` the ray never touches the sphere |
| Intersections.NoRootBelowZero | RayTracerTest/include/Intersections.h:64-67 | a quadratic with negative discriminant has no root |
| Intersections.Roots | RayTracerTest/include/Intersections.h:68-74 | the two roots are returned smaller first |
| Intersections.RootsSolve | RayTracerTest/include/Intersections.h:68-74 | both roots solve the quadratic, and every solution is one of them |
| Intersections.IntersectSingular | RayTracerTest/include/Intersections.h:57-59 | `intersect` throws `invalid_argument` exactly when the shape's transform is not invertible |
| Intersections.ObjectSpaceOutcome | RayTracerTest/include/Intersections.h:60-74 | in object space the result is empty exactly for a negative discriminant; 0/0 (a zero direction) is the only failure |
| Intersections.ObjectSpaceMiss | RayTracerTest/include/Intersections.h:64-67 | an empty result means the ray never touches the sphere |
| Intersections.ObjectSpaceHits | RayTracerTest/include/Intersections.h:68-74 | a two-record result is ordered, on the shape, touches the sphere at both times and at no other |
| Intersections.IntersectFindsSurface | RayTracerTest/include/Intersections.h:57-75 | every reported time is one where the world ray meets the transformed sphere, and there is no other |
| Intersections.OnShapeInObjectSpace | RayTracerTest/include/Intersections.h:57-60 | a world point is on the transformed shape exactly when its object-space image is on the unit sphere |
| Intersections.IntersectThroughInverse | RayTracerTest/include/Intersections.h:58-59 | `intersect` solves in object space the ray transformed by the inverse |
| Intersections.IntersectWithIdentity | RayTracerTest/include/Intersections.h:58-59 | with the identity transform the ray is used unchanged |
| Intersections.IntersectWithTranslation | RayTracerTest/include/Intersections.h:58-59 | a translated sphere sees the ray translated back |
| Intersections.IntersectWithScaling | RayTracerTest/include/Intersections.h:58-59 | a scaled sphere sees the ray scaled by the reciprocal factors |
| Intersections.ThroughInObjectSpace | RayTracerTest/test/RayTestSuite.cpp:54-60 | a ray through the centre meets the sphere at 4 and 6 |
| Intersections.TangentInObjectSpace | RayTracerTest/test/RayTestSuite.cpp:62-68 | a tangent ray meets it twice at 5 |
| Intersections.PassingInObjectSpace | RayTracerTest/test/RayTestSuite.cpp:70-76 | a ray passing above misses it |
| Intersections.InsideInObjectSpace | RayTracerTest/test/RayTestSuite.cpp:78-84 | a ray from the centre meets it at -1 and 1 |
| Intersections.BeyondInObjectSpace | RayTracerTest/test/RayTestSuite.cpp:86-92 | a sphere behind the ray is met at -6 and -4 |
| Intersections.IntersectExamples | RayTracerTest/test/RayTestSuite.cpp:54-92 | the five test rays through `intersect` with the identity transform |
| Intersections.ScaledSphereHits | RayTracerTest/test/RayTestSuite.cpp:148-153 | a sphere scaled by f > 0 is met at 5 - f and 5 + f (the test's f = 2 gives 3 and 7) |
| Intersections.TranslatedSphereMisses | RayTracerTest/test/RayTestSuite.cpp:155-160 | a sphere translated by 5 in x is missed |
| Intersections.AsideInObjectSpace | RayTracerTest/test/RayTestSuite.cpp:155-160 | the translated-back ray misses the unit sphere |
| Intersections.Hit | RayTracerTest/include/Intersections.h:85-102 | `hit` is empty exactly when every time is negative; otherwise it is the record with the lowest non-negative time, the first such on ties |
| Intersections.HitIsUnique | RayTracerTest/include/Intersections.h:85-102 | at most one index is the hit |
| Intersections.HitExamples | RayTracerTest/test/RayTestSuite.cpp:110-146 | the hits of the four test lists: the first positive, the positive one, none, and the lowest non-negative |
| Reflections.Reflect | RayTracerTest/include/Reflection.h:6-8 | `reflect` subtracts twice the normal scaled by the dot product; no `ensures`, its laws are the `Reflections` lemmas below |
| Reflections.ReflectComponents | RayTracerTest/include/Reflection.h:6-8 | reflect(v, n) = v - 2·(v·n)·n, component by component |
| Reflections.OrthogonalIsUnchanged | RayTracerTest/include/Reflection.h:6-8 | a direction orthogonal to the normal is not changed |
| Reflections.ReflectionFlipsNormalComponent | RayTracerTest/include/Reflection.h:6-8 | about a unit normal, the reflection negates the component along the normal |
| Reflections.ReflectTwiceIsIdentity | RayTracerTest/include/Reflection.h:6-8 | reflecting twice about the same unit normal gives the original direction |
| Reflections.ReflectionKeepsLength | RayTracerTest/include/Reflection.h:6-8 | reflection about a unit normal keeps the length |
| Reflections.ReflectionAboutYAxis | RayTracerTest/test/ReflectionTestSuite.cpp:7-13 | reflecting about (0, ±1, 0) negates y |
| Reflections.ReflectionOffSlantedSurface | RayTracerTest/test/ReflectionTestSuite.cpp:15-21 | (0, -1, 0) off the normal (√½, √½, 0) becomes (1, 0, 0) |
| Lights.Ambient | RayTracerTest/include/Light.h:18-20 | `ambient` scales the effective colour by the material's ambient factor; no `ensures`, see `Lights.LightingAddsToAmbient` |
| Lights.LightDirection | RayTracerTest/include/Light.h:23 | the normalized offset from the point to the light; no `ensures`, see `Lights.DirectionToLight` |
| Lights.Diffuse | RayTracerTest/include/Light.h:22-29 | `diffuse` is black when the light is behind the surface, else colour × diffuse × cosine; no `ensures`, see `Lights.DiffuseIsNotNegative` and `Lights.DiffuseHeadOn` |
| Lights.Specular | RayTracerTest/include/Light.h:31-44 | `specular` is black behind the surface or when the reflection points away from the eye, else intensity × specular × pow(cosine, shininess); no `ensures`, see `Lights.SpecularIsNotNegative` and `Lights.SpecularHeadOn` |
| Lights.Lighting | RayTracerTest/include/Light.h:46-52 | `lighting` is ambient + diffuse + specular of the effective colour; no `ensures`, see `Lights.LightingFailsAtTheLight` and `Lights.LightingAddsToAmbient` |
| Lights.PointLight | RayTracerTest/include/Light.h:14-16 | a point light keeps the given position and intensity |
| Lights.LightingFailsAtTheLight | RayTracerTest/include/Light.h:46-52 | `lighting` throws `invalid_argument` exactly when the surface point is at the light (normalizing a zero direction) |
| Lights.LightBehindSurface | RayTracerTest/include/Light.h:22-52 | with the light behind the surface only the ambient term remains |
| Lights.LightingAddsToAmbient | RayTracerTest/include/Light.h:46-52 | with non-negative inputs, no channel of the lighting is below the ambient term |
| Lights.DiffuseIsNotNegative | RayTracerTest/include/Light.h:22-29 | the diffuse term of non-negative inputs is not negative |
| Lights.DiffuseHeadOn | RayTracerTest/include/Light.h:22-29 | with the light straight along the normal, the diffuse term is effective colour × diffuse |
| Lights.SpecularIsNotNegative | RayTracerTest/include/Light.h:31-44 | the specular term of non-negative inputs is not negative |
| Lights.SpecularHeadOn | RayTracerTest/include/Light.h:31-44 | with light and eye along the normal, the specular term is intensity × specular |
| Lights.DirectionToLight | RayTracerTest/include/Light.h:23 | the light direction is the unit vector from the point towards the light |
| Lights.ReflectedBackAlongNormal | RayTracerTest/include/Light.h:37 | light arriving against a unit normal reflects back along it |
| Lights.LightingHeadOn | RayTracerTest/include/Light.h:46-52 | with the light straight along the normal, lighting is ambient + diffuse of the effective colour plus the specular term |
| Lights.EyeBetweenLightAndSurface | RayTracerTest/test/LightTestSuite.cpp:20-26 | eye and light along the normal: lighting is colour × intensity × (ambient + diffuse) + intensity × specular |
| Lights.DefaultMaterialHeadOn | RayTracerTest/test/LightTestSuite.cpp:20-26 | with the default material this is (1.9, 1.9, 1.9) |
| Lights.LightBehindTheSurface | RayTracerTest/test/LightTestSuite.cpp:52-58 | light behind a white surface of ambient 0.1 gives (0.1, 0.1, 0.1) |
| Canvases.Canvas.constructor | RayTracerTest/include/Canvas.h:25-54 | a new canvas has the given size and every pixel black |
| Canvases.Canvas.CheckIndex | RayTracerTest/include/Canvas.h:34-38 | `checkIndex` throws `invalid_argument` exactly for an index outside the canvas |
| Canvases.Canvas.ToAbsoluteOffset | RayTracerTest/include/Canvas.h:44-46 | an in-bounds index maps to row·columns + column, inside the pixel buffer |
| Canvases.Canvas.OffsetIsInjective | RayTracerTest/include/Canvas.h:44-46 | distinct in-bounds indices never share a pixel |
| Canvases.Canvas.OffsetIsSurjective | RayTracerTest/include/Canvas.h:44-46 | every pixel of the buffer is reached by exactly one in-bounds index |
| Canvases.Canvas.At | RayTracerTest/include/Canvas.h:61-64 | reading a pixel throws exactly when the index is outside; otherwise it yields that pixel |
| Canvases.Canvas.Write | RayTracerTest/include/Canvas.h:56-59 | writing a pixel throws and changes nothing when the index is outside; otherwise it changes exactly that pixel |
| Canvases.Canvas.IndexFromPoint | RayTracerTest/include/Canvas.h:40-42 | a point maps to column round(x) and row rows - round(y), with `size_t` wrap-around |
| Canvases.Canvas.PointInBounds | RayTracerTest/include/Canvas.h:40-42 | a point names a pixel exactly when round(x) is a column and round(y) lies in 1..rows; a rounded y of 0 lands one row past the end |
| Canvases.Canvas.AtPoint | RayTracerTest/include/Canvas.h:71-74 | reading by point is reading at that point's index, with its throw |
| Canvases.Canvas.WritePoint | RayTracerTest/include/Canvas.h:66-69 | writing by point is writing at that point's index, with its throw |
| Canvases.SetPixelColorToRed | RayTracerTest/test/CanvasTestSuite.cpp:18-25 | a fresh pixel is black, and red after writing red |
| Canvases.OutOfRangeAccessThrows | RayTracerTest/test/CanvasTestSuite.cpp:27-40 | reading past the last row, the last column or both throws `invalid_argument` |
| PortablePixmap.Decimal | RayTracerTest/include/Canvas.h:124-128 | an unsigned number is printed as a non-empty string of decimal digits |
| PortablePixmap.DecimalRoundTrip | RayTracerTest/include/Canvas.h:124-128 | reading the printed digits back gives the number |
| PortablePixmap.DigitsBound | RayTracerTest/include/Canvas.h:99-105 | a number with k printed digits lies in [10^(k-1), 10^k), with 1 digit for [0, 10) |
| PortablePixmap.AtMostThreeDigits | RayTracerTest/include/Canvas.h:99-105 | numbers below 1000 print with one to three digits |
| PortablePixmap.CountDigits | RayTracerTest/include/Canvas.h:99-105 | the `countDigits` loop returns the length of the printed number |
| PortablePixmap.ColorToUnsigned | RayTracerTest/include/Canvas.h:91-97 | a channel maps to round(value·255) clamped to [0, 255] |
| PortablePixmap.LevelRoundTrip | RayTracerTest/include/Canvas.h:91-97 | the channel k/255 maps back to k for every level k |
| PortablePixmap.ColorToUnsignedIsMonotonic | RayTracerTest/include/Canvas.h:91-97 | a brighter channel never maps to a lower level |
| PortablePixmap.ColorToUnsignedExamples | RayTracerTest/test/CanvasTestSuite.cpp:54-67 | 1.5 → 255, 0.5 → 128, -0.5 → 0, 0.8 → 204, 0.6 → 153 |
| PortablePixmap.PPMColor | RayTracerTest/include/Canvas.h:124-128 | a colour prints as three levels separated by spaces, 5 to 11 characters, on one line |
| PortablePixmap.ColorOutputWidth | RayTracerTest/include/Canvas.h:107-113 | `colorOutputWidth` is the length of the printed colour |
| PortablePixmap.SaturatedRedText | RayTracerTest/test/CanvasTestSuite.cpp:54-67 | (1.5, 0, 0) prints as "255 0 0" |
| PortablePixmap.ClampedBlueText | RayTracerTest/test/CanvasTestSuite.cpp:54-67 | (-0.5, 0, 1) prints as "0 0 255" |
| PortablePixmap.NavajoWhiteText | RayTracerTest/test/CanvasTestSuite.cpp:69-85 | (1, 0.8, 0.6) prints as "255 204 153" |
| PortablePixmap.RowLinesFit | RayTracerTest/include/Canvas.h:130-147 | the wrapped row text never has a line longer than 70 characters |
| PortablePixmap.RowKeepsColoursWhole | RayTracerTest/include/Canvas.h:130-147 | the wrapped row is the colours in order, each preceded by a single space or line break |
| PortablePixmap.RowStartsWithColour | RayTracerTest/include/Canvas.h:130-147 | a row starts with its first colour, and the others follow each after one space or line break |
| PortablePixmap.RowColourIsPixel | RayTracerTest/include/Canvas.h:132-133 | the column-th colour of a row is that canvas pixel |
| PortablePixmap.WriteSeparator | RayTracerTest/include/Canvas.h:135-143 | the separator step writes a space, a line break or nothing, and leaves the count of characters in the line before the colour |
| PortablePixmap.PrintPPMPixelRow | RayTracerTest/include/Canvas.h:130-147 | the row loop writes the wrapped row of that row's colours; a row past the end throws (unless the canvas has no columns) |
| PortablePixmap.PrintPPMPixels | RayTracerTest/include/Canvas.h:149-154 | the pixel loop writes every row's text followed by a line break |
| PortablePixmap.PixelsFit | RayTracerTest/include/Canvas.h:149-154 | no line of the pixel text exceeds 70 characters, and the text ends at a line break |
| PortablePixmap.PPMHeader | RayTracerTest/include/Canvas.h:85-89 | the header begins "P3\n" and ends "255\n" |
| PortablePixmap.HeaderReadsBack | RayTracerTest/include/Canvas.h:85-89 | the header is "P3", then width and height in decimal, then "255", and both numbers read back as the canvas size |
| PortablePixmap.HeaderExample | RayTracerTest/test/CanvasTestSuite.cpp:42-52 | a 5×3 canvas has the header "P3\n5 3\n255\n" |
| PortablePixmap.PrintPPM | RayTracerTest/include/Canvas.h:156-159 | `printPPM` writes the header followed by the pixel text |

## Left out

- Compound assignment on value types (`+=`, `-=`, `*=`, `/=` on `Point`, `Direction`, `Color`,
  `Row`, `Column`) is modelled as value-returning functions, so reference aliasing is not
  captured.
  - `Matrix::operator*=` and `/=` are in-place methods of `MatrixStore`.
- The debug `operator<<` printers are not modelled, and neither is the operator glue of
  `Operators.h`.
  - `Decimal` models only the decimal printing of unsigned numbers that the PPM output uses.
- `Pi.h` and the rotation and shearing transforms are not part of this model. The scaled-sphere
  normal test multiplies by `rotation_z(π)`; `Spheres.NormalOnScaledSphere` states the
  scaling-only case.
- File output in the application tests is not modelled.
- IEEE-754 rounding is not modelled: doubles are exact reals. Tolerant equality within epsilon is
  modelled as written.
- `std::sqrt` is a ghost function whose exactness is a premise (`HasSquareRoot`).
  `std::pow` is exact only for non-negative integral exponents; other exponents give an
  unspecified positive value.
- Spheres.NormalIsNormalized: assumes `HasSquareRoot` of the squared world normal, because real
  square roots cannot be shown to exist in general.
- Intersections.ObjectSpaceHits: assumes `HasSquareRoot` of the discriminant, for the same reason.
- Intersections.IntersectFindsSurface: also assumes `HasSquareRoot` of the discriminant.
- The 0/0 division `intersect` performs for a zero direction (a NaN in C++) is `Err(NotANumber)`.
- The lighting tests at 45° (results 1.0, 0.736396 and 1.636396) are not modelled, because they
  need numeric bounds on `pow` and `sqrt` of irrational values.
- The expected multi-row PPM texts of the canvas tests are not modelled as literal strings.
  Their structure is covered by the row, pixel and header lemmas instead.
- `forEachIndex` (Canvas.h:115-122) is not modelled, since no core function uses it.
- The variadic `intersections(...)` helper only builds an array, which is a sequence literal in
  Dafny.
- The internals of the `Range` iterator are not modelled; `Indices.Elements` gives the indices it
  visits.
- PortablePixmap.ColorToUnsigned: does not model the overflow of `static_cast<int>` for channel
  values beyond the range of `int`.
- Canvases.Canvas.constructor: requires rows·columns to fit in `size_t`, where the source would
  silently allocate a wrapped size.
- Loop counters of `size_t` type are not wrapped; the loops never reach 2^64.
- Instantiations of `determinant` for N < 2, and of `minor`, `cofactor` and `inverse` for N < 3,
  are not modelled. Those templates recurse without end at compile time, so they cannot be used.
- Determinants.Inverse: M·inverse(M) = inverse(M)·M = identity, and inverse(transpose(M)) =
  transpose(inverse(M)), are proved only for 3×3 and 4×4 matrices (`AdjugateLaws`). The ray
  tracer inverts only 4×4 transforms. A proof for every N would need the determinant as a sum over
  permutations, which is not modelled.
- A·B·inverse(B) = A (MatrixTestSuite.cpp:426-440) is not proved, because the model has no
  associativity law for the matrix product.
- DoubleComparison.RoundDouble: promises nothing when the rounding lies outside the range of
  `long` ([-2^63, 2^63)). There the result of `std::lround` is unspecified, while the model still
  wraps the exact rounding.
- PortablePixmap.PrintPPMPixelRow: its 70-character line bound is stated by
  `PortablePixmap.RowLinesFit` and `PortablePixmap.PixelsFit`, not in its own `ensures`.
- Lights.Ambient, Lights.Diffuse, Lights.Specular and Lights.Lighting carry no `ensures` of their
  own; what they compute is stated by the `Lights` lemmas above.
- Reflections.Reflect carries no `ensures` of its own; it is stated by the `Reflections` lemmas.
- Determinants.Determinant, Determinants.Minor and Determinants.Cofactor carry no `ensures` of
  their own; they are stated by the `DeterminantLaws` lemmas and by the `MatrixLoops` methods
  proved equal to them.

## Findings

| source | as written | input that shows it | evidently intended | confidence | as-written member | corrected member |
|---|---|---|---|---|---|---|
| RayTracerTest/include/Matrix.h:183-194 | `submatrix` bounds its inner (column) loop by N-1, the row count, instead of M-1, the column count | a 2×3 matrix leaves the last submatrix column 0; a 3×2 matrix writes past the last column and throws | the column loop runs over all M-1 target columns | not executed; high | MatrixLoops.SubmatrixOfWideAndTallMatrices | Matrices.Submatrix |
| RayTracerTest/include/Matrix.h:156-167 | `transpose` runs its outer loop to M and its inner loop to N, indexing the source as if the bounds were swapped | a 1×2 matrix: `transpose` throws `invalid_argument` although the 2×1 transpose exists | the loops run over the N rows and M columns of the source | not executed; high | MatrixLoops.TransposeOfRowThrows | Matrices.Transposed |
| RayTracerTest/include/Sphere.h:27-33 | `normalAt` measures the object normal from `Point{0, 0, 0}`, while `intersect` (Intersections.h:60) treats `shape.position` as the centre | a sphere at position (5, 0, 0) with the identity transform, at its surface point (5, 1, 0): the normal is the normalized (5, 1, 0), not (0, 1, 0) | the normal is measured from the sphere's position | not executed; medium | Spheres.NormalIgnoresPosition | Spheres.NormalAboutCentreOnSphere |

/** determinant, minor, cofactor, cofactorsOf, minorsOf, invertible and inverse of square
    matrices. The source instantiates these templates only from size 2 (determinant, through its
    2x2 overload) or size 3 (minor, cofactor and inverse, which take determinants of submatrices)
    upward: a smaller instantiation would recurse through submatrix without end at compile time. */
module Determinants {
  import opened Outcomes
  import opened DoubleComparison
  import opened Matrices

  predicate IsSquare(m: Matrix) {
    m.rows == m.columns
  }

  /** determinant: ad - bc for a 2x2 matrix, otherwise the sum over the columns j of row 0 of
      m[0, j] * cofactor(m, 0, j). */
  function Determinant(m: Matrix): real
    requires IsSquare(m) && m.rows >= 2
    decreases m.rows, 3
  {
    if m.rows == 2 then
      Cell(m, 0, 0) * Cell(m, 1, 1) - Cell(m, 0, 1) * Cell(m, 1, 0)
    else
      ExpansionSum(m, m.columns)
  }

  /** The accumulator of the determinant loop after the first `count` columns of row 0. */
  function ExpansionSum(m: Matrix, count: nat): real
    requires IsSquare(m) && m.rows >= 3 && count <= m.columns
    decreases m.rows, 2, count
  {
    if count == 0 then 0.0
    else ExpansionSum(m, count - 1) + Cell(m, 0, count - 1) * Cofactor(m, 0, count - 1)
  }

  /** cofactor: the minor, negated when row + column is odd. */
  function Cofactor(m: Matrix, row: nat, column: nat): real
    requires IsSquare(m) && m.rows >= 3 && row < m.rows && column < m.columns
    decreases m.rows, 1
  {
    var resultMinor := Minor(m, row, column);
    if (row + column) % 2 == 1 then -resultMinor else resultMinor
  }

  /** minor: the determinant of the submatrix without `row` and `column`. */
  function Minor(m: Matrix, row: nat, column: nat): real
    requires IsSquare(m) && m.rows >= 3 && row < m.rows && column < m.columns
    decreases m.rows, 0
  {
    Determinant(Submatrix(m, row, column))
  }

  /** cofactorsOf: the matrix of all cofactors. */
  function CofactorsOf(m: Matrix): (c: Matrix)
    requires IsSquare(m) && m.rows >= 3
    ensures SameShape(c, m)
    ensures forall r: nat, k: nat :: r < m.rows && k < m.columns ==> Cell(c, r, k) == Cofactor(m, r, k)
  {
    Tabulate(m.rows, m.columns, (r: nat, k: nat) requires r < m.rows && k < m.columns => Cofactor(m, r, k))
  }

  /** minorsOf: the matrix of all minors. */
  function MinorsOf(m: Matrix): (c: Matrix)
    requires IsSquare(m) && m.rows >= 3
    ensures SameShape(c, m)
    ensures forall r: nat, k: nat :: r < m.rows && k < m.columns ==> Cell(c, r, k) == Minor(m, r, k)
  {
    Tabulate(m.rows, m.columns, (r: nat, k: nat) requires r < m.rows && k < m.columns => Minor(m, r, k))
  }

  /** invertible: the determinant is not zero within Epsilon. */
  predicate Invertible(m: Matrix)
    requires IsSquare(m) && m.rows >= 2
  {
    !IsEqual(Determinant(m), 0.0)
  }

  /** inverse: an invalid argument for a matrix that is not invertible; otherwise the adjugate
      (the transposed matrix of cofactors) divided by the determinant, so that cell (r, c) is
      cofactor(c, r) / determinant. */
  function Inverse(m: Matrix): (r: Result<Matrix>)
    requires IsSquare(m) && m.rows >= 3
    ensures r.Err? <==> !Invertible(m)
    ensures r.Err? ==> r.error == InvalidArgument
    ensures r.Ok? ==> SameShape(r.value, m) && Determinant(m) != 0.0
    ensures r.Ok? ==> forall i: nat, j: nat :: i < m.rows && j < m.columns ==>
      Cell(r.value, i, j) == Cofactor(m, j, i) / Determinant(m)
  {
    var det := Determinant(m);
    if IsEqual(det, 0.0) then
      Err(InvalidArgument)
    else
      Ok(Divided(Transposed(CofactorsOf(m)), det))
  }

}

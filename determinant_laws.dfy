/** What the determinant recursion computes: the closed forms for 3x3 and 4x4 matrices, the
    worked examples, the vanishing determinant of a matrix with a zero row, and the determinant
    and inverse of diagonal matrices (the identity and the scalings among them). */
module DeterminantLaws {
  import opened Outcomes
  import opened DoubleComparison
  import opened Matrices
  import opened Determinants

  /** The rule of Sarrus for a 3x3 matrix. */
  function Det3Formula(m: Matrix): real
    requires m.rows == 3 && m.columns == 3
  {
    Cell(m, 0, 0) * (Cell(m, 1, 1) * Cell(m, 2, 2) - Cell(m, 1, 2) * Cell(m, 2, 1))
    - Cell(m, 0, 1) * (Cell(m, 1, 0) * Cell(m, 2, 2) - Cell(m, 1, 2) * Cell(m, 2, 0))
    + Cell(m, 0, 2) * (Cell(m, 1, 0) * Cell(m, 2, 1) - Cell(m, 1, 1) * Cell(m, 2, 0))
  }

  /** A minor of a 3x3 matrix is the 2x2 determinant of the cells left after the removal. */
  lemma {:induction false} Minor3(m: Matrix, row: nat, column: nat, r0: nat, r1: nat, c0: nat, c1: nat)
    requires IsSquare(m) && m.rows == 3 && row < 3 && column < 3
    requires r0 == SkipIndex(0, row) && r1 == SkipIndex(1, row)
    requires c0 == SkipIndex(0, column) && c1 == SkipIndex(1, column)
    ensures r0 < 3 && r1 < 3 && c0 < 3 && c1 < 3
    ensures Minor(m, row, column) == Cell(m, r0, c0) * Cell(m, r1, c1) - Cell(m, r0, c1) * Cell(m, r1, c0)
  {
    var s := Submatrix(m, row, column);
    assert Cell(s, 0, 0) == Cell(m, r0, c0) && Cell(s, 1, 1) == Cell(m, r1, c1);
    assert Cell(s, 0, 1) == Cell(m, r0, c1) && Cell(s, 1, 0) == Cell(m, r1, c0);
    assert Minor(m, row, column) == Cell(s, 0, 0) * Cell(s, 1, 1) - Cell(s, 0, 1) * Cell(s, 1, 0);
  }

  /** The cofactor expansion of a 3x3 matrix is the rule of Sarrus. */
  lemma {:induction false} Determinant3(m: Matrix)
    requires IsSquare(m) && m.rows == 3
    ensures Determinant(m) == Det3Formula(m)
  {
    ExpansionSum3(m);
    Minor3(m, 0, 0, 1, 2, 1, 2);
    Minor3(m, 0, 1, 1, 2, 0, 2);
    Minor3(m, 0, 2, 1, 2, 0, 1);
  }

  /** Regrouping the signed cofactor terms of a three-term expansion; kept apart from the matrix
      facts so that the solver sees plain reals. */
  lemma {:induction false} SignedSum(d: real, a: real, b: real, c: real, c0: real, c1: real, c2: real, m0: real, m1: real, m2: real)
    requires d == a * c0 + b * c1 + c * c2
    requires c0 == m0 && c1 == -m1 && c2 == m2
    ensures d == a * m0 - b * m1 + c * m2
  {
  }

  /** The expansion of a 3x3 matrix along row 0, with the cofactor signs applied. */
  lemma {:induction false} ExpansionSum3(m: Matrix)
    requires IsSquare(m) && m.rows == 3
    ensures Determinant(m) == Cell(m, 0, 0) * Minor(m, 0, 0) - Cell(m, 0, 1) * Minor(m, 0, 1) + Cell(m, 0, 2) * Minor(m, 0, 2)
  {
    ExpansionSum3Cofactors(m);
    CofactorSigns3(m);
    SignedSum(Determinant(m), Cell(m, 0, 0), Cell(m, 0, 1), Cell(m, 0, 2), Cofactor(m, 0, 0), Cofactor(m, 0, 1), Cofactor(m, 0, 2),
      Minor(m, 0, 0), Minor(m, 0, 1), Minor(m, 0, 2));
  }

  lemma {:induction false} CofactorSigns3(m: Matrix)
    requires IsSquare(m) && m.rows == 3
    ensures Cofactor(m, 0, 0) == Minor(m, 0, 0) && Cofactor(m, 0, 1) == -Minor(m, 0, 1)
    ensures Cofactor(m, 0, 2) == Minor(m, 0, 2)
  {
  }

  lemma {:induction false} ExpansionSum3Cofactors(m: Matrix)
    requires IsSquare(m) && m.rows == 3
    ensures Determinant(m) == Cell(m, 0, 0) * Cofactor(m, 0, 0) + Cell(m, 0, 1) * Cofactor(m, 0, 1)
                            + Cell(m, 0, 2) * Cofactor(m, 0, 2)
  {
    assert ExpansionSum(m, 1) == Cell(m, 0, 0) * Cofactor(m, 0, 0);
    assert ExpansionSum(m, 2) == ExpansionSum(m, 1) + Cell(m, 0, 1) * Cofactor(m, 0, 1);
    assert ExpansionSum(m, 3) == ExpansionSum(m, 2) + Cell(m, 0, 2) * Cofactor(m, 0, 2);
  }

  /** A cofactor of a 4x4 matrix is the signed rule of Sarrus on its submatrix. */
  lemma {:induction false} Cofactor4(m: Matrix, row: nat, column: nat)
    requires IsSquare(m) && m.rows == 4 && row < 4 && column < 4
    ensures Cofactor(m, row, column) ==
      if (row + column) % 2 == 0 then Det3Formula(Submatrix(m, row, column))
      else -Det3Formula(Submatrix(m, row, column))
  {
    Determinant3(Submatrix(m, row, column));
  }

  /** The determinant of a 4x4 matrix is its expansion along row 0. */
  lemma {:induction false} Determinant4(m: Matrix)
    requires IsSquare(m) && m.rows == 4
    ensures Determinant(m) == Cell(m, 0, 0) * Cofactor(m, 0, 0) + Cell(m, 0, 1) * Cofactor(m, 0, 1)
                            + Cell(m, 0, 2) * Cofactor(m, 0, 2) + Cell(m, 0, 3) * Cofactor(m, 0, 3)
  {
    assert ExpansionSum(m, 1) == Cell(m, 0, 0) * Cofactor(m, 0, 0);
    assert ExpansionSum(m, 2) == ExpansionSum(m, 1) + Cell(m, 0, 1) * Cofactor(m, 0, 1);
    assert ExpansionSum(m, 3) == ExpansionSum(m, 2) + Cell(m, 0, 2) * Cofactor(m, 0, 2);
    assert ExpansionSum(m, 4) == ExpansionSum(m, 3) + Cell(m, 0, 3) * Cofactor(m, 0, 3);
  }

  /** The 2x2, 3x3 and 4x4 determinants of the matrix tests. */
  lemma {:induction false} TwoByTwoExample(m: Matrix)
    requires IsSquare(m) && m.rows == 2 && m.cells == [[1.0, 5.0], [-3.0, 2.0]]
    ensures Determinant(m) == 17.0
  {
  }

  lemma {:induction false} ThreeByThreeExample(m: Matrix)
    requires IsSquare(m) && m.rows == 3 && m.cells == [[1.0, 2.0, 6.0], [-5.0, 8.0, -4.0], [2.0, 6.0, 4.0]]
    ensures Cofactor(m, 0, 0) == 56.0 && Cofactor(m, 0, 1) == 12.0 && Cofactor(m, 0, 2) == -46.0
    ensures Determinant(m) == -196.0
  {
    Determinant3(m);
    Minor3(m, 0, 0, 1, 2, 1, 2);
    Minor3(m, 0, 1, 1, 2, 0, 2);
    Minor3(m, 0, 2, 1, 2, 0, 1);
  }

  /** The minors and cofactors of the 3x3 matrix of the minorsOf and cofactorsOf tests. */
  lemma {:induction false} MinorsAndCofactorsExample(m: Matrix)
    requires IsSquare(m) && m.rows == 3 && m.cells == [[3.0, 5.0, 0.0], [2.0, -1.0, -7.0], [6.0, -1.0, 5.0]]
    ensures Minor(m, 1, 0) == 25.0 && Cofactor(m, 1, 0) == -25.0
    ensures Minor(m, 0, 0) == -12.0 && Cofactor(m, 0, 0) == -12.0
    ensures Minor(m, 0, 1) == 52.0 && Cofactor(m, 0, 1) == -52.0
  {
    Minor3(m, 1, 0, 0, 2, 1, 2);
    Minor3(m, 0, 0, 1, 2, 1, 2);
    Minor3(m, 0, 1, 1, 2, 0, 2);
  }

  lemma {:induction false} FourByFourLeftCofactors(m: Matrix)
    requires IsSquare(m) && m.rows == 4
    requires m.cells == [[-2.0, -8.0, 3.0, 5.0], [-3.0, 1.0, 7.0, 3.0], [1.0, 2.0, -9.0, 6.0], [-6.0, 7.0, 7.0, -9.0]]
    ensures Cofactor(m, 0, 0) == 690.0 && Cofactor(m, 0, 1) == 447.0
  {
    Cofactor4(m, 0, 0);
    Cofactor4(m, 0, 1);
  }

  lemma {:induction false} FourByFourRightCofactors(m: Matrix)
    requires IsSquare(m) && m.rows == 4
    requires m.cells == [[-2.0, -8.0, 3.0, 5.0], [-3.0, 1.0, 7.0, 3.0], [1.0, 2.0, -9.0, 6.0], [-6.0, 7.0, 7.0, -9.0]]
    ensures Cofactor(m, 0, 2) == 210.0 && Cofactor(m, 0, 3) == 51.0
  {
    Cofactor4(m, 0, 2);
    Cofactor4(m, 0, 3);
  }

  lemma {:induction false} FourByFourExample(m: Matrix)
    requires IsSquare(m) && m.rows == 4
    requires m.cells == [[-2.0, -8.0, 3.0, 5.0], [-3.0, 1.0, 7.0, 3.0], [1.0, 2.0, -9.0, 6.0], [-6.0, 7.0, 7.0, -9.0]]
    ensures Determinant(m) == -4071.0
  {
    Determinant4(m);
    FourByFourLeftCofactors(m);
    FourByFourRightCofactors(m);
  }

  /** A row of zeros. */
  predicate ZeroRow(m: Matrix, row: nat)
    requires row < m.rows
  {
    forall c: nat :: c < m.columns ==> Cell(m, row, c) == 0.0
  }

  /** A square matrix with a row of zeros has determinant zero, so it is not invertible and its
      inverse is an invalid argument. */
  lemma {:induction false} ZeroRowDeterminant(m: Matrix, row: nat)
    requires IsSquare(m) && m.rows >= 2 && row < m.rows && ZeroRow(m, row)
    ensures Determinant(m) == 0.0
    ensures !Invertible(m)
    ensures m.rows >= 3 ==> Inverse(m) == Err(InvalidArgument)
    decreases m.rows, 1
  {
    if m.rows > 2 {
      ExpansionSumVanishes(m, row, m.columns);
    }
  }

  /** Every partial sum of the expansion of a matrix with a row of zeros is zero: along row 0
      every cell is zero, and below it every submatrix keeps the row of zeros. */
  lemma {:induction false} ExpansionSumVanishes(m: Matrix, row: nat, count: nat)
    requires IsSquare(m) && m.rows >= 3 && row < m.rows && ZeroRow(m, row) && count <= m.columns
    ensures ExpansionSum(m, count) == 0.0
    decreases m.rows, 0, count
  {
    if count > 0 {
      ExpansionSumVanishes(m, row, count - 1);
      if row > 0 {
        var s, below := Submatrix(m, 0, count - 1), row - 1;
        assert ZeroRow(s, below) by {
          forall c: nat | c < s.columns
            ensures Cell(s, below, c) == 0.0
          {
            assert SkipIndex(below, 0) == row;
          }
        }
        ZeroRowDeterminant(s, below);
        assert Cofactor(m, 0, count - 1) == 0.0;
      } else {
        assert Cell(m, 0, count - 1) == 0.0;
      }
    }
  }

  /** The product of a sequence of factors. */
  function ProductOf(d: seq<real>): real {
    if |d| == 0 then 1.0 else d[0] * ProductOf(d[1..])
  }

  /** The sequence without its element at index i. */
  function Without(d: seq<real>, i: nat): (w: seq<real>)
    requires i < |d|
    ensures |w| == |d| - 1
    ensures forall k :: 0 <= k < |w| ==> w[k] == d[SkipIndex(k, i)]
  {
    d[..i] + d[i + 1..]
  }

  /** Taking one factor out of a product. */
  lemma {:induction false} ProductWithout(d: seq<real>, i: nat)
    requires i < |d|
    ensures ProductOf(d) == d[i] * ProductOf(Without(d, i))
  {
    var before, after := d[..i], d[i + 1..];
    assert d == before + ([d[i]] + after);
    assert Without(d, i) == before + after;
    ProductOfAppend(before, [d[i]] + after);
    ProductOfCons(d[i], after);
    ProductOfAppend(before, after);
    FactorOut(ProductOf(d), ProductOf(Without(d, i)), ProductOf([d[i]] + after),
              ProductOf(before), d[i], ProductOf(after));
  }

  /** The product of a concatenation is the product of the two products. */
  lemma {:induction false} ProductOfAppend(a: seq<real>, b: seq<real>)
    ensures ProductOf(a + b) == ProductOf(a) * ProductOf(b)
  {
    if |a| > 0 {
      ProductOfAppend(a[1..], b);
      assert (a + b)[1..] == a[1..] + b;
      var x, y, z := a[0], ProductOf(a[1..]), ProductOf(b);
      assert x * (y * z) == (x * y) * z;
    } else {
      assert a + b == b;
    }
  }

  /** The product of a sequence with x in front is x times the product of the rest. */
  lemma {:induction false} ProductOfCons(x: real, s: seq<real>)
    ensures ProductOf([x] + s) == x * ProductOf(s)
  {
    assert ([x] + s)[1..] == s;
  }

  /** The regrouping behind ProductWithout: x (y z) is y (x z). */
  lemma {:induction false} FactorOut(product: real, without: real, tail: real, x: real, y: real, z: real)
    requires product == x * tail && tail == y * z && without == x * z
    ensures product == y * without
  {
    assert x * (y * z) == y * (x * z);
  }

  /** A product with a zero factor is zero. */
  lemma {:induction false} ZeroFactor(d: seq<real>, i: nat)
    requires i < |d| && d[i] == 0.0
    ensures ProductOf(d) == 0.0
  {
    ProductWithout(d, i);
  }

  /** The square matrix with d on the diagonal and zeros elsewhere (the identity and the
      scalings are such matrices). */
  function Diagonal(d: seq<real>): (m: Matrix)
    ensures IsSquare(m) && m.rows == |d|
    ensures forall r: nat, c: nat :: r < |d| && c < |d| ==> Cell(m, r, c) == if r == c then d[r] else 0.0
  {
    Tabulate(|d|, |d|, (r: nat, c: nat) requires r < |d| && c < |d| => if r == c then d[r] else 0.0)
  }

  /** Removing row i and column i of a diagonal matrix leaves the diagonal matrix without d[i]. */
  lemma {:induction false} SubmatrixOfDiagonal(d: seq<real>, i: nat)
    requires i < |d|
    ensures Submatrix(Diagonal(d), i, i) == Diagonal(Without(d, i))
  {
    var s, w := Submatrix(Diagonal(d), i, i), Diagonal(Without(d, i));
    forall r: nat, c: nat | r < s.rows && c < s.columns
      ensures Cell(s, r, c) == Cell(w, r, c)
    {
      assert SkipIndex(r, i) == SkipIndex(c, i) <==> r == c;
    }
    CellsDetermineMatrix(s, w);
  }

  /** Along row 0 of a diagonal matrix only the first cell contributes to the expansion. */
  lemma {:induction false} DiagonalExpansion(d: seq<real>, count: nat)
    requires |d| >= 3 && 1 <= count <= |d|
    ensures ExpansionSum(Diagonal(d), count) == d[0] * Cofactor(Diagonal(d), 0, 0)
  {
    if count > 1 {
      DiagonalExpansion(d, count - 1);
      assert Cell(Diagonal(d), 0, count - 1) == 0.0;
    }
  }

  /** The determinant of a diagonal matrix is the product of its diagonal. */
  lemma {:induction false} DiagonalDeterminant(d: seq<real>)
    requires |d| >= 2
    ensures Determinant(Diagonal(d)) == ProductOf(d)
    decreases |d|, 1
  {
    if |d| == 2 {
      DiagonalDeterminant2(d);
    } else {
      DiagonalExpansion(d, |d|);
      DiagonalCofactor(d, 0, 0);
      assert Without(d, 0) == d[1..];
    }
  }

  lemma {:induction false} DiagonalDeterminant2(d: seq<real>)
    requires |d| == 2
    ensures Determinant(Diagonal(d)) == ProductOf(d)
  {
    var rest := d[1..];
    assert rest[1..] == [];
    assert ProductOf(rest) == rest[0];
    var m := Diagonal(d);
    assert Cell(m, 0, 1) == 0.0 && Cell(m, 1, 0) == 0.0;
    assert Determinant(m) == d[0] * d[1];
  }

  /** The cofactors of a diagonal matrix: the product of the other diagonal cells on the
      diagonal, zero off it (the submatrix keeps a row of zeros). */
  lemma {:induction false} DiagonalCofactor(d: seq<real>, i: nat, j: nat)
    requires |d| >= 3 && i < |d| && j < |d|
    ensures Cofactor(Diagonal(d), i, j) == if i == j then ProductOf(Without(d, i)) else 0.0
    decreases |d|, 0
  {
    var m := Diagonal(d);
    if i == j {
      SubmatrixOfDiagonal(d, i);
      DiagonalDeterminant(Without(d, i));
      assert (i + i) % 2 == 0;
    } else {
      var s, kept := Submatrix(m, i, j), if j < i then j else j - 1;
      assert SkipIndex(kept, i) == j;
      assert ZeroRow(s, kept) by {
        forall c: nat | c < s.columns
          ensures Cell(s, kept, c) == 0.0
        {
          assert SkipIndex(c, j) != j;
        }
      }
      ZeroRowDeterminant(s, kept);
    }
  }

  /** The reciprocals of non-zero factors. */
  function Reciprocals(d: seq<real>): (r: seq<real>)
    requires forall i :: 0 <= i < |d| ==> d[i] != 0.0
    ensures |r| == |d| && forall i :: 0 <= i < |d| ==> r[i] * d[i] == 1.0
  {
    seq(|d|, i requires 0 <= i < |d| => 1.0 / d[i])
  }

  /** A product that is not zero within Epsilon has no zero factor. */
  lemma {:induction false} NoZeroFactor(d: seq<real>)
    requires !IsEqual(ProductOf(d), 0.0)
    ensures forall i :: 0 <= i < |d| ==> d[i] != 0.0
  {
    forall i | 0 <= i < |d|
      ensures d[i] != 0.0
    {
      if d[i] == 0.0 {
        ZeroFactor(d, i);
      }
    }
  }

  /** A diagonal matrix is invertible exactly when the product of its diagonal is not zero
      within Epsilon, and then its inverse is the diagonal matrix of the reciprocals. */
  lemma {:induction false} DiagonalInverse(d: seq<real>)
    requires |d| >= 3
    ensures Inverse(Diagonal(d)).Err? <==> IsEqual(ProductOf(d), 0.0)
    ensures !IsEqual(ProductOf(d), 0.0) ==>
      (forall i :: 0 <= i < |d| ==> d[i] != 0.0) && Inverse(Diagonal(d)) == Ok(Diagonal(Reciprocals(d)))
  {
    DiagonalDeterminant(d);
    if !IsEqual(ProductOf(d), 0.0) {
      NoZeroFactor(d);
      var inv, expected := Inverse(Diagonal(d)).value, Diagonal(Reciprocals(d));
      forall i: nat, j: nat | i < |d| && j < |d|
        ensures Cell(inv, i, j) == Cell(expected, i, j)
      {
        DiagonalInverseCell(d, i, j);
      }
      CellsDetermineMatrix(inv, expected);
    }
  }

  lemma {:induction false} DiagonalInverseCell(d: seq<real>, i: nat, j: nat)
    requires |d| >= 3 && i < |d| && j < |d| && !IsEqual(ProductOf(d), 0.0)
    requires forall k :: 0 <= k < |d| ==> d[k] != 0.0
    ensures Determinant(Diagonal(d)) == ProductOf(d)
    ensures Cofactor(Diagonal(d), j, i) / ProductOf(d) == Cell(Diagonal(Reciprocals(d)), i, j)
  {
    DiagonalDeterminant(d);
    DiagonalCofactor(d, j, i);
    if i == j {
      DiagonalInverseOnDiagonal(d, i);
    }
  }

  lemma {:induction false} DiagonalInverseOnDiagonal(d: seq<real>, i: nat)
    requires i < |d| && ProductOf(d) != 0.0
    requires forall k :: 0 <= k < |d| ==> d[k] != 0.0
    ensures ProductOf(Without(d, i)) / ProductOf(d) == Reciprocals(d)[i]
  {
    ProductWithout(d, i);
    DivideOutFactor(ProductOf(d), d[i], ProductOf(Without(d, i)));
  }

  /** w / (x * w) == 1 / x for non-zero x and w. */
  lemma {:induction false} DivideOutFactor(p: real, x: real, w: real)
    requires p == x * w && p != 0.0
    ensures w / p == 1.0 / x
  {
    assert x != 0.0 && w != 0.0;
    calc {
      w / p;
      w / (x * w);
      1.0 / x;
    }
  }

  /** n ones. */
  function Ones(n: nat): (d: seq<real>)
    ensures |d| == n && forall i :: 0 <= i < n ==> d[i] == 1.0
  {
    seq(n, i => 1.0)
  }

  lemma {:induction false} ProductOfOnes(n: nat)
    ensures ProductOf(Ones(n)) == 1.0
  {
    if n > 0 {
      assert Ones(n)[1..] == Ones(n - 1);
      ProductOfOnes(n - 1);
    }
  }

  /** The identity is the diagonal matrix of ones. */
  lemma {:induction false} IdentityIsDiagonal(n: nat)
    ensures Identity(n) == Diagonal(Ones(n))
  {
    CellsDetermineMatrix(Identity(n), Diagonal(Ones(n)));
  }

  /** The identity has determinant 1, and from size 3 on it is its own inverse. */
  lemma {:induction false} IdentityDeterminantAndInverse(n: nat)
    requires n >= 2
    ensures Determinant(Identity(n)) == 1.0
    ensures n >= 3 ==> Inverse(Identity(n)) == Ok(Identity(n))
  {
    IdentityIsDiagonal(n);
    ProductOfOnes(n);
    DiagonalDeterminant(Ones(n));
    if n >= 3 {
      DiagonalInverse(Ones(n));
      assert Reciprocals(Ones(n)) == Ones(n);
    }
  }
}

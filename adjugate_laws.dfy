/** Why inverse inverts: for the 3x3 and 4x4 matrices the ray tracer inverts, expanding the
    determinant along any row gives the determinant, expanding one row against the cofactors of
    another row gives zero, and the same holds for columns because transposition keeps the
    determinant. Dividing the transposed cofactor matrix by the determinant therefore gives a
    matrix that is the identity when multiplied with M on either side. */
module AdjugateLaws {
  import opened Outcomes
  import opened DoubleComparison
  import opened Matrices
  import opened Determinants
  import opened DeterminantLaws

  /** One row of a 2x2 matrix, as plain reals. */
  datatype Pair = Pair(a: real, b: real)

  /** One row of a 3x3 matrix, as plain reals. */
  datatype Triple = Triple(a: real, b: real, c: real)

  /** One row of a 4x4 matrix, as plain reals. */
  datatype Quadruple = Quadruple(a: real, b: real, c: real, d: real)

  // ---------------------------------------------------------------------------------------
  // Determinants of rows given as plain reals

  function Det2(y: Pair, z: Pair): real {
    y.a * z.b - y.b * z.a
  }

  /** A row of three without its entry at column k. */
  function DropOne(t: Triple, k: nat): Pair
    requires k < 3
  {
    if k == 0 then Pair(t.b, t.c) else if k == 1 then Pair(t.a, t.c) else Pair(t.a, t.b)
  }

  /** The determinant of the 3x3 matrix with rows x, y, z, expanded along x. */
  function Det3(x: Triple, y: Triple, z: Triple): real {
    x.a * Det2(DropOne(y, 0), DropOne(z, 0)) - x.b * Det2(DropOne(y, 1), DropOne(z, 1))
    + x.c * Det2(DropOne(y, 2), DropOne(z, 2))
  }

  /** A row of four without its entry at column k. */
  function Drop(q: Quadruple, k: nat): Triple
    requires k < 4
  {
    if k == 0 then Triple(q.b, q.c, q.d)
    else if k == 1 then Triple(q.a, q.c, q.d)
    else if k == 2 then Triple(q.a, q.b, q.d)
    else Triple(q.a, q.b, q.c)
  }

  /** The determinant of the 4x4 matrix with rows x, y, z, w, expanded along x. */
  function Det4(x: Quadruple, y: Quadruple, z: Quadruple, w: Quadruple): real {
    x.a * Det3(Drop(y, 0), Drop(z, 0), Drop(w, 0)) - x.b * Det3(Drop(y, 1), Drop(z, 1), Drop(w, 1))
    + x.c * Det3(Drop(y, 2), Drop(z, 2), Drop(w, 2)) - x.d * Det3(Drop(y, 3), Drop(z, 3), Drop(w, 3))
  }

  /** The 4x4 determinant as its 24 signed products, one per permutation of the columns. */
  function Leibniz4(x: Quadruple, y: Quadruple, z: Quadruple, w: Quadruple): real {
    x.a * y.b * z.c * w.d - x.a * y.b * z.d * w.c - x.a * y.c * z.b * w.d + x.a * y.c * z.d * w.b
    + x.a * y.d * z.b * w.c - x.a * y.d * z.c * w.b - x.b * y.a * z.c * w.d + x.b * y.a * z.d * w.c
    + x.b * y.c * z.a * w.d - x.b * y.c * z.d * w.a - x.b * y.d * z.a * w.c + x.b * y.d * z.c * w.a
    + x.c * y.a * z.b * w.d - x.c * y.a * z.d * w.b - x.c * y.b * z.a * w.d + x.c * y.b * z.d * w.a
    + x.c * y.d * z.a * w.b - x.c * y.d * z.b * w.a - x.d * y.a * z.b * w.c + x.d * y.a * z.c * w.b
    + x.d * y.b * z.a * w.c - x.d * y.b * z.c * w.a - x.d * y.c * z.a * w.b + x.d * y.c * z.b * w.a
  }

  lemma {:induction false} Det3Expanded(x: Triple, y: Triple, z: Triple)
    ensures Det3(x, y, z) == x.a * y.b * z.c - x.a * y.c * z.b - x.b * y.a * z.c
                            + x.b * y.c * z.a + x.c * y.a * z.b - x.c * y.b * z.a
  {
  }

  /** The expansion along the first row and the sum over permutations agree. */
  lemma {:induction false} Det4Leibniz(x: Quadruple, y: Quadruple, z: Quadruple, w: Quadruple)
    ensures Det4(x, y, z, w) == Leibniz4(x, y, z, w)
  {
    Det3Expanded(Drop(y, 0), Drop(z, 0), Drop(w, 0));
    Det3Expanded(Drop(y, 1), Drop(z, 1), Drop(w, 1));
    Det3Expanded(Drop(y, 2), Drop(z, 2), Drop(w, 2));
    Det3Expanded(Drop(y, 3), Drop(z, 3), Drop(w, 3));
  }

  /** Exchanging two rows of a 3x3 determinant negates it; a repeated row makes it zero. */
  lemma {:induction false} Det3Alternates(x: Triple, y: Triple, z: Triple)
    ensures Det3(y, x, z) == -Det3(x, y, z)
    ensures Det3(x, z, y) == -Det3(x, y, z)
    ensures Det3(x, x, z) == 0.0 && Det3(x, z, x) == 0.0
  {
    Det3Expanded(x, y, z);
    Det3Expanded(y, x, z);
    Det3Expanded(x, z, y);
  }

  /** A 3x3 determinant is unchanged when its rows become its columns. */
  lemma {:induction false} Det3Transposed(x: Triple, y: Triple, z: Triple)
    ensures Det3(Triple(x.a, y.a, z.a), Triple(x.b, y.b, z.b), Triple(x.c, y.c, z.c)) == Det3(x, y, z)
  {
    Det3Expanded(x, y, z);
    Det3Expanded(Triple(x.a, y.a, z.a), Triple(x.b, y.b, z.b), Triple(x.c, y.c, z.c));
  }

  /** Exchanging two rows of a 4x4 determinant negates it. */
  lemma {:induction false} Det4Alternates(x: Quadruple, y: Quadruple, z: Quadruple, w: Quadruple)
    ensures Det4(y, x, z, w) == -Det4(x, y, z, w)
    ensures Det4(x, z, y, w) == -Det4(x, y, z, w)
    ensures Det4(x, y, w, z) == -Det4(x, y, z, w)
  {
    Det4Leibniz(x, y, z, w);
    Det4Leibniz(y, x, z, w);
    Det4Leibniz(x, z, y, w);
    Det4Leibniz(x, y, w, z);
  }

  /** A 4x4 determinant whose first row appears again below it is zero. */
  lemma {:induction false} Det4Repeated(x: Quadruple, y: Quadruple, z: Quadruple)
    ensures Det4(x, x, y, z) == 0.0 && Det4(x, y, x, z) == 0.0 && Det4(x, y, z, x) == 0.0
  {
    Det4Leibniz(x, x, y, z);
    Det4Leibniz(x, y, x, z);
    Det4Leibniz(x, y, z, x);
  }

  lemma {:induction false} Leibniz4Transposed(x: Quadruple, y: Quadruple, z: Quadruple, w: Quadruple)
    ensures Leibniz4(Quadruple(x.a, y.a, z.a, w.a), Quadruple(x.b, y.b, z.b, w.b),
                     Quadruple(x.c, y.c, z.c, w.c), Quadruple(x.d, y.d, z.d, w.d)) == Leibniz4(x, y, z, w)
  {
  }

  /** A 4x4 determinant is unchanged when its rows become its columns. */
  lemma {:induction false} Det4Transposed(x: Quadruple, y: Quadruple, z: Quadruple, w: Quadruple)
    ensures Det4(Quadruple(x.a, y.a, z.a, w.a), Quadruple(x.b, y.b, z.b, w.b),
                 Quadruple(x.c, y.c, z.c, w.c), Quadruple(x.d, y.d, z.d, w.d)) == Det4(x, y, z, w)
  {
    Det4Leibniz(x, y, z, w);
    Det4Leibniz(Quadruple(x.a, y.a, z.a, w.a), Quadruple(x.b, y.b, z.b, w.b),
                Quadruple(x.c, y.c, z.c, w.c), Quadruple(x.d, y.d, z.d, w.d));
    Leibniz4Transposed(x, y, z, w);
  }

  // ---------------------------------------------------------------------------------------
  // Rows against rows of cofactors

  /** A row against a row of cofactors: the sum of their products, entry by entry. */
  function Dot3(x: Triple, c: Triple): real {
    x.a * c.a + x.b * c.b + x.c * c.c
  }

  function Dot4(x: Quadruple, c: Quadruple): real {
    x.a * c.a + x.b * c.b + x.c * c.c + x.d * c.d
  }

  /** The cofactors of the first row of the 3x3 matrix whose other rows are y and z. */
  function Adjugate3(y: Triple, z: Triple): Triple {
    Triple(Det2(DropOne(y, 0), DropOne(z, 0)), -Det2(DropOne(y, 1), DropOne(z, 1)), Det2(DropOne(y, 2), DropOne(z, 2)))
  }

  /** The cofactors of the first row of the 4x4 matrix whose other rows are y, z and w. */
  function Adjugate4(y: Quadruple, z: Quadruple, w: Quadruple): Quadruple {
    Quadruple(Det3(Drop(y, 0), Drop(z, 0), Drop(w, 0)), -Det3(Drop(y, 1), Drop(z, 1), Drop(w, 1)),
              Det3(Drop(y, 2), Drop(z, 2), Drop(w, 2)), -Det3(Drop(y, 3), Drop(z, 3), Drop(w, 3)))
  }

  /** Cofactors negated when `odd` holds. */
  function Signed3(t: Triple, odd: bool): Triple {
    if odd then Triple(-t.a, -t.b, -t.c) else t
  }

  function Signed4(q: Quadruple, odd: bool): Quadruple {
    if odd then Quadruple(-q.a, -q.b, -q.c, -q.d) else q
  }

  /** A row against the (possibly negated) cofactors of a first row is a (possibly negated)
      determinant with that row on top. */
  lemma {:induction false} Dot3Signed(x: Triple, y: Triple, z: Triple, odd: bool)
    ensures Dot3(x, Signed3(Adjugate3(y, z), odd)) == if odd then -Det3(x, y, z) else Det3(x, y, z)
  {
  }

  lemma {:induction false} Dot4Signed(x: Quadruple, y: Quadruple, z: Quadruple, w: Quadruple, odd: bool)
    ensures Dot4(x, Signed4(Adjugate4(y, z, w), odd)) == if odd then -Det4(x, y, z, w) else Det4(x, y, z, w)
  {
    Dot4Adjugate(x, y, z, w);
    Dot4Negated(x, Adjugate4(y, z, w), odd);
  }

  lemma {:induction false} Dot4Adjugate(x: Quadruple, y: Quadruple, z: Quadruple, w: Quadruple)
    ensures Dot4(x, Adjugate4(y, z, w)) == Det4(x, y, z, w)
  {
  }

  lemma {:induction false} Dot4Negated(x: Quadruple, c: Quadruple, odd: bool)
    ensures Dot4(x, Signed4(c, odd)) == if odd then -Dot4(x, c) else Dot4(x, c)
  {
  }

  /** Cofactors each divided by d. */
  function Divided3(t: Triple, d: real): Triple
    requires d != 0.0
  {
    Triple(t.a / d, t.b / d, t.c / d)
  }

  function Divided4(q: Quadruple, d: real): Quadruple
    requires d != 0.0
  {
    Quadruple(q.a / d, q.b / d, q.c / d, q.d / d)
  }

  /** Dividing every cofactor by d divides the sum by d. */
  lemma {:induction false} Dot3Divided(x: Triple, c: Triple, d: real)
    requires d != 0.0
    ensures Dot3(x, Divided3(c, d)) == Dot3(x, c) / d
  {
  }

  lemma {:induction false} Dot4Divided(x: Quadruple, c: Quadruple, d: real)
    requires d != 0.0
    ensures Dot4(x, Divided4(c, d)) == Dot4(x, c) / d
  {
  }

  /** A row against cofactors that sum to the determinant d, or to zero, each divided by d,
      gives one, or zero, whichever side the row is on. */
  lemma {:induction false} ExpansionOverDeterminant3(x: Triple, c: Triple, d: real, same: bool)
    requires d != 0.0 && Dot3(x, c) == if same then d else 0.0
    ensures Dot3(x, Divided3(c, d)) == (if same then 1.0 else 0.0) == Dot3(Divided3(c, d), x)
  {
    Dot3Divided(x, c, d);
    if same {
      assert d / d == 1.0;
    }
  }

  lemma {:induction false} ExpansionOverDeterminant4(x: Quadruple, c: Quadruple, d: real, same: bool)
    requires d != 0.0 && Dot4(x, c) == if same then d else 0.0
    ensures Dot4(x, Divided4(c, d)) == (if same then 1.0 else 0.0) == Dot4(Divided4(c, d), x)
  {
    Dot4Divided(x, c, d);
    if same {
      assert d / d == 1.0;
    }
  }

  // ---------------------------------------------------------------------------------------
  // Cofactors in closed form

  function RowTriple(m: Matrix, row: nat): Triple
    requires m.columns == 3 && row < m.rows
  {
    Triple(Cell(m, row, 0), Cell(m, row, 1), Cell(m, row, 2))
  }

  function RowQuadruple(m: Matrix, row: nat): Quadruple
    requires m.columns == 4 && row < m.rows
  {
    Quadruple(Cell(m, row, 0), Cell(m, row, 1), Cell(m, row, 2), Cell(m, row, 3))
  }

  /** The cofactor of (row, column) of a 3x3 or 4x4 matrix written out from its cells: the
      determinant of the rows and columns left, negated when row + column is odd. */
  function CofactorFormula(m: Matrix, row: nat, column: nat): real
    requires IsSquare(m) && 3 <= m.rows <= 4 && row < m.rows && column < m.columns
  {
    var minor :=
      if m.rows == 3 then
        Det2(DropOne(RowTriple(m, SkipIndex(0, row)), column), DropOne(RowTriple(m, SkipIndex(1, row)), column))
      else
        Det3(Drop(RowQuadruple(m, SkipIndex(0, row)), column), Drop(RowQuadruple(m, SkipIndex(1, row)), column),
             Drop(RowQuadruple(m, SkipIndex(2, row)), column));
    if (row + column) % 2 == 1 then -minor else minor
  }

  lemma {:induction false} DropOneCells(m: Matrix, row: nat, column: nat)
    requires m.columns == 3 && row < m.rows && column < 3
    ensures SkipIndex(1, column) < 3
    ensures DropOne(RowTriple(m, row), column) == Pair(Cell(m, row, SkipIndex(0, column)), Cell(m, row, SkipIndex(1, column)))
  {
  }

  lemma {:induction false} DropCells(m: Matrix, row: nat, column: nat)
    requires m.columns == 4 && row < m.rows && column < 4
    ensures SkipIndex(2, column) < 4
    ensures Drop(RowQuadruple(m, row), column) ==
      Triple(Cell(m, row, SkipIndex(0, column)), Cell(m, row, SkipIndex(1, column)), Cell(m, row, SkipIndex(2, column)))
  {
  }

  /** Cofactor, recursive through Minor and Determinant, agrees with the closed form. */
  lemma {:induction false} CofactorClosedForm(m: Matrix, row: nat, column: nat)
    requires IsSquare(m) && 3 <= m.rows <= 4 && row < m.rows && column < m.columns
    ensures Cofactor(m, row, column) == CofactorFormula(m, row, column)
  {
    if m.rows == 3 {
      var r0, r1, c0, c1 := SkipIndex(0, row), SkipIndex(1, row), SkipIndex(0, column), SkipIndex(1, column);
      Minor3(m, row, column, r0, r1, c0, c1);
      DropOneCells(m, r0, column);
      DropOneCells(m, r1, column);
    } else {
      Cofactor4(m, row, column);
      var s := Submatrix(m, row, column);
      var r0, r1, r2 := SkipIndex(0, row), SkipIndex(1, row), SkipIndex(2, row);
      DropCells(m, r0, column);
      DropCells(m, r1, column);
      DropCells(m, r2, column);
      assert RowTriple(s, 0) == Drop(RowQuadruple(m, r0), column);
      assert RowTriple(s, 1) == Drop(RowQuadruple(m, r1), column);
      assert RowTriple(s, 2) == Drop(RowQuadruple(m, r2), column);
      assert Det3Formula(s) == Det3(RowTriple(s, 0), RowTriple(s, 1), RowTriple(s, 2));
    }
  }

  // ---------------------------------------------------------------------------------------
  // Expansion along any row

  /** Determinant of a 3x3 matrix, written over its rows. */
  lemma {:induction false} DeterminantOfRows3(m: Matrix)
    requires IsSquare(m) && m.rows == 3
    ensures Determinant(m) == Det3(RowTriple(m, 0), RowTriple(m, 1), RowTriple(m, 2))
  {
    Determinant3(m);
  }

  /** Determinant of a 4x4 matrix, written over its rows. */
  lemma {:induction false} DeterminantOfRows4(m: Matrix)
    requires IsSquare(m) && m.rows == 4
    ensures Determinant(m) == Det4(RowQuadruple(m, 0), RowQuadruple(m, 1), RowQuadruple(m, 2), RowQuadruple(m, 3))
  {
    Determinant4(m);
    CofactorClosedForm(m, 0, 0);
    CofactorClosedForm(m, 0, 1);
    CofactorClosedForm(m, 0, 2);
    CofactorClosedForm(m, 0, 3);
  }

  /** The cofactors of row j, in closed form. */
  function CofactorRow3(m: Matrix, j: nat): Triple
    requires IsSquare(m) && m.rows == 3 && j < 3
  {
    Triple(CofactorFormula(m, j, 0), CofactorFormula(m, j, 1), CofactorFormula(m, j, 2))
  }

  function CofactorRow4(m: Matrix, j: nat): Quadruple
    requires IsSquare(m) && m.rows == 4 && j < 4
  {
    Quadruple(CofactorFormula(m, j, 0), CofactorFormula(m, j, 1), CofactorFormula(m, j, 2), CofactorFormula(m, j, 3))
  }

  /** The cofactors of column j, in closed form. */
  function CofactorColumn3(m: Matrix, j: nat): Triple
    requires IsSquare(m) && m.rows == 3 && j < 3
  {
    Triple(CofactorFormula(m, 0, j), CofactorFormula(m, 1, j), CofactorFormula(m, 2, j))
  }

  function CofactorColumn4(m: Matrix, j: nat): Quadruple
    requires IsSquare(m) && m.rows == 4 && j < 4
  {
    Quadruple(CofactorFormula(m, 0, j), CofactorFormula(m, 1, j), CofactorFormula(m, 2, j), CofactorFormula(m, 3, j))
  }

  /** The cofactors of row j are those of a first row above the rows j leaves, negated when j
      is odd. */
  lemma {:induction false} CofactorRowSigns3(m: Matrix, j: nat, y: Triple, z: Triple)
    requires IsSquare(m) && m.rows == 3 && j < 3
    requires SkipIndex(1, j) < 3
    requires y == RowTriple(m, SkipIndex(0, j)) && z == RowTriple(m, SkipIndex(1, j))
    ensures CofactorRow3(m, j) == Signed3(Adjugate3(y, z), j % 2 == 1)
  {
    var odd := j % 2 == 1;
    assert CofactorFormula(m, j, 0) == Signed3(Adjugate3(y, z), odd).a;
    assert CofactorFormula(m, j, 1) == Signed3(Adjugate3(y, z), odd).b;
    assert CofactorFormula(m, j, 2) == Signed3(Adjugate3(y, z), odd).c;
  }

  lemma {:induction false} CofactorRowSigns4(m: Matrix, j: nat, y: Quadruple, z: Quadruple, w: Quadruple)
    requires IsSquare(m) && m.rows == 4 && j < 4
    requires SkipIndex(2, j) < 4
    requires y == RowQuadruple(m, SkipIndex(0, j)) && z == RowQuadruple(m, SkipIndex(1, j))
    requires w == RowQuadruple(m, SkipIndex(2, j))
    ensures CofactorRow4(m, j) == Signed4(Adjugate4(y, z, w), j % 2 == 1)
  {
    var odd := j % 2 == 1;
    assert CofactorFormula(m, j, 0) == Signed4(Adjugate4(y, z, w), odd).a;
    assert CofactorFormula(m, j, 1) == Signed4(Adjugate4(y, z, w), odd).b;
    assert CofactorFormula(m, j, 2) == Signed4(Adjugate4(y, z, w), odd).c;
    assert CofactorFormula(m, j, 3) == Signed4(Adjugate4(y, z, w), odd).d;
  }

  /** Expanding along a row: the cells of a row against the cofactors of row j give the
      determinant when the two rows are the same, and zero otherwise. */
  lemma {:induction false} RowExpansion3(m: Matrix, row: nat, j: nat)
    requires IsSquare(m) && m.rows == 3 && row < 3 && j < 3
    ensures Dot3(RowTriple(m, row), CofactorRow3(m, j)) == if row == j then Determinant(m) else 0.0
  {
    var r0, r1, r2 := RowTriple(m, 0), RowTriple(m, 1), RowTriple(m, 2);
    var x := RowTriple(m, row);
    assert SkipIndex(1, j) < 3;
    var y, z := RowTriple(m, SkipIndex(0, j)), RowTriple(m, SkipIndex(1, j));
    CofactorRowSigns3(m, j, y, z);
    Dot3Signed(x, y, z, j % 2 == 1);
    DeterminantOfRows3(m);
    if j == 0 {
      assert y == r1 && z == r2;
      if row == 1 { Det3Alternates(x, z, z); } else if row == 2 { Det3Alternates(x, y, y); }
    } else if j == 1 {
      assert y == r0 && z == r2;
      if row == 0 { Det3Alternates(x, z, z); } else if row == 1 { Det3Alternates(r0, r1, r2); }
      else { Det3Alternates(x, y, y); }
    } else {
      assert y == r0 && z == r1;
      if row == 0 { Det3Alternates(x, z, z); } else if row == 1 { Det3Alternates(x, y, y); }
      else { Det3Alternates(r0, r2, r1); Det3Alternates(r0, r1, r2); }
    }
  }

  lemma {:induction false} RowExpansion4(m: Matrix, row: nat, j: nat)
    requires IsSquare(m) && m.rows == 4 && row < 4 && j < 4
    ensures Dot4(RowQuadruple(m, row), CofactorRow4(m, j)) == if row == j then Determinant(m) else 0.0
  {
    var r0, r1, r2, r3 := RowQuadruple(m, 0), RowQuadruple(m, 1), RowQuadruple(m, 2), RowQuadruple(m, 3);
    var x := RowQuadruple(m, row);
    assert SkipIndex(2, j) < 4;
    var y, z, w := RowQuadruple(m, SkipIndex(0, j)), RowQuadruple(m, SkipIndex(1, j)), RowQuadruple(m, SkipIndex(2, j));
    CofactorRowSigns4(m, j, y, z, w);
    Dot4Signed(x, y, z, w, j % 2 == 1);
    DeterminantOfRows4(m);
    if j == 0 {
      assert y == r1 && z == r2 && w == r3;
      if row == 1 { Det4Repeated(x, z, w); } else if row == 2 { Det4Repeated(x, y, w); } else if row == 3 { Det4Repeated(x, y, z); }
    } else if j == 1 {
      assert y == r0 && z == r2 && w == r3;
      if row == 0 { Det4Repeated(x, z, w); } else if row == 1 { Det4Alternates(r0, r1, r2, r3); }
      else if row == 2 { Det4Repeated(x, y, w); } else { Det4Repeated(x, y, z); }
    } else if j == 2 {
      assert y == r0 && z == r1 && w == r3;
      if row == 0 { Det4Repeated(x, z, w); } else if row == 1 { Det4Repeated(x, y, w); }
      else if row == 2 { Det4Alternates(r0, r2, r1, r3); Det4Alternates(r0, r1, r2, r3); }
      else { Det4Repeated(x, y, z); }
    } else {
      assert y == r0 && z == r1 && w == r2;
      if row == 0 { Det4Repeated(x, z, w); } else if row == 1 { Det4Repeated(x, y, w); }
      else if row == 2 { Det4Repeated(x, y, z); }
      else { Det4Alternates(r0, r3, r1, r2); Det4Alternates(r0, r1, r3, r2); Det4Alternates(r0, r1, r2, r3); }
    }
  }

  // ---------------------------------------------------------------------------------------
  // Transposition

  function ColumnTriple(m: Matrix, column: nat): Triple
    requires m.rows == 3 && column < m.columns
  {
    Triple(Cell(m, 0, column), Cell(m, 1, column), Cell(m, 2, column))
  }

  function ColumnQuadruple(m: Matrix, column: nat): Quadruple
    requires m.rows == 4 && column < m.columns
  {
    Quadruple(Cell(m, 0, column), Cell(m, 1, column), Cell(m, 2, column), Cell(m, 3, column))
  }

  /** The cofactor of (row, column) of the transpose is the cofactor of (column, row). */
  lemma {:induction false} CofactorTransposed(m: Matrix, row: nat, column: nat)
    requires IsSquare(m) && 3 <= m.rows <= 4 && row < m.rows && column < m.columns
    ensures CofactorFormula(Transposed(m), row, column) == CofactorFormula(m, column, row)
  {
    var t := Transposed(m);
    if m.rows == 3 {
      var r0, r1 := SkipIndex(0, row), SkipIndex(1, row);
      var c0, c1 := SkipIndex(0, column), SkipIndex(1, column);
      DropOneCells(t, r0, column);
      DropOneCells(t, r1, column);
      DropOneCells(m, c0, row);
      DropOneCells(m, c1, row);
    } else {
      var r0, r1, r2 := SkipIndex(0, row), SkipIndex(1, row), SkipIndex(2, row);
      var c0, c1, c2 := SkipIndex(0, column), SkipIndex(1, column), SkipIndex(2, column);
      DropCells(t, r0, column);
      DropCells(t, r1, column);
      DropCells(t, r2, column);
      DropCells(m, c0, row);
      DropCells(m, c1, row);
      DropCells(m, c2, row);
      Det3Transposed(Drop(RowQuadruple(m, c0), row), Drop(RowQuadruple(m, c1), row), Drop(RowQuadruple(m, c2), row));
    }
  }

  /** Transposition keeps the determinant. */
  lemma {:induction false} DeterminantTransposed(m: Matrix)
    requires IsSquare(m) && 3 <= m.rows <= 4
    ensures Determinant(Transposed(m)) == Determinant(m)
  {
    var t := Transposed(m);
    if m.rows == 3 {
      DeterminantOfRows3(t);
      DeterminantOfRows3(m);
      assert RowTriple(t, 0) == ColumnTriple(m, 0) && RowTriple(t, 1) == ColumnTriple(m, 1);
      assert RowTriple(t, 2) == ColumnTriple(m, 2);
      Det3Transposed(RowTriple(m, 0), RowTriple(m, 1), RowTriple(m, 2));
    } else {
      DeterminantOfRows4(t);
      DeterminantOfRows4(m);
      assert RowQuadruple(t, 0) == ColumnQuadruple(m, 0) && RowQuadruple(t, 1) == ColumnQuadruple(m, 1);
      assert RowQuadruple(t, 2) == ColumnQuadruple(m, 2) && RowQuadruple(t, 3) == ColumnQuadruple(m, 3);
      Det4Transposed(RowQuadruple(m, 0), RowQuadruple(m, 1), RowQuadruple(m, 2), RowQuadruple(m, 3));
    }
  }

  // ---------------------------------------------------------------------------------------
  // Products with the inverse

  lemma {:induction false} ProductCell3(a: Matrix, b: Matrix, row: nat, column: nat)
    requires a.columns == 3 && b.rows == 3 && row < a.rows && column < b.columns
    ensures SumProducts(a, b, row, column, 3) == Dot3(RowTriple(a, row), ColumnTriple(b, column))
  {
    assert SumProducts(a, b, row, column, 1) == Cell(a, row, 0) * Cell(b, 0, column);
    assert SumProducts(a, b, row, column, 2) == SumProducts(a, b, row, column, 1) + Cell(a, row, 1) * Cell(b, 1, column);
  }

  lemma {:induction false} ProductCell4(a: Matrix, b: Matrix, row: nat, column: nat)
    requires a.columns == 4 && b.rows == 4 && row < a.rows && column < b.columns
    ensures SumProducts(a, b, row, column, 4) == Dot4(RowQuadruple(a, row), ColumnQuadruple(b, column))
  {
    assert SumProducts(a, b, row, column, 1) == Cell(a, row, 0) * Cell(b, 0, column);
    assert SumProducts(a, b, row, column, 2) == SumProducts(a, b, row, column, 1) + Cell(a, row, 1) * Cell(b, 1, column);
    assert SumProducts(a, b, row, column, 3) == SumProducts(a, b, row, column, 2) + Cell(a, row, 2) * Cell(b, 2, column);
  }

  /** The cells Matrix::inverse gives its result: the transposed cofactors over the determinant. */
  predicate IsAdjugateOver(inv: Matrix, m: Matrix)
    requires IsSquare(m) && m.rows >= 3
  {
    SameShape(inv, m) && Determinant(m) != 0.0 &&
    forall i: nat, j: nat :: i < m.rows && j < m.columns ==> Cell(inv, i, j) == Cofactor(m, j, i) / Determinant(m)
  }

  /** A column of the inverse is a row of cofactors over the determinant. */
  lemma {:induction false} InverseColumn3(m: Matrix, inv: Matrix, column: nat)
    requires IsSquare(m) && m.rows == 3 && column < 3 && IsAdjugateOver(inv, m)
    ensures ColumnTriple(inv, column) == Divided3(CofactorRow3(m, column), Determinant(m))
  {
    CofactorClosedForm(m, column, 0);
    CofactorClosedForm(m, column, 1);
    CofactorClosedForm(m, column, 2);
  }

  lemma {:induction false} InverseColumn4(m: Matrix, inv: Matrix, column: nat)
    requires IsSquare(m) && m.rows == 4 && column < 4 && IsAdjugateOver(inv, m)
    ensures ColumnQuadruple(inv, column) == Divided4(CofactorRow4(m, column), Determinant(m))
  {
    CofactorClosedForm(m, column, 0);
    CofactorClosedForm(m, column, 1);
    CofactorClosedForm(m, column, 2);
    CofactorClosedForm(m, column, 3);
  }

  /** A row of the inverse is a column of cofactors over the determinant. */
  lemma {:induction false} InverseRow3(m: Matrix, inv: Matrix, row: nat)
    requires IsSquare(m) && m.rows == 3 && row < 3 && IsAdjugateOver(inv, m)
    ensures RowTriple(inv, row) == Divided3(CofactorColumn3(m, row), Determinant(m))
  {
    CofactorClosedForm(m, 0, row);
    CofactorClosedForm(m, 1, row);
    CofactorClosedForm(m, 2, row);
  }

  lemma {:induction false} InverseRow4(m: Matrix, inv: Matrix, row: nat)
    requires IsSquare(m) && m.rows == 4 && row < 4 && IsAdjugateOver(inv, m)
    ensures RowQuadruple(inv, row) == Divided4(CofactorColumn4(m, row), Determinant(m))
  {
    CofactorClosedForm(m, 0, row);
    CofactorClosedForm(m, 1, row);
    CofactorClosedForm(m, 2, row);
    CofactorClosedForm(m, 3, row);
  }

  /** The cofactors of a column are the cofactors of the matching row of the transpose. */
  lemma {:induction false} CofactorColumnTransposed3(m: Matrix, j: nat)
    requires IsSquare(m) && m.rows == 3 && j < 3
    ensures CofactorRow3(Transposed(m), j) == CofactorColumn3(m, j)
  {
    CofactorTransposed(m, j, 0);
    CofactorTransposed(m, j, 1);
    CofactorTransposed(m, j, 2);
  }

  lemma {:induction false} CofactorColumnTransposed4(m: Matrix, j: nat)
    requires IsSquare(m) && m.rows == 4 && j < 4
    ensures CofactorRow4(Transposed(m), j) == CofactorColumn4(m, j)
  {
    CofactorTransposed(m, j, 0);
    CofactorTransposed(m, j, 1);
    CofactorTransposed(m, j, 2);
    CofactorTransposed(m, j, 3);
  }

  /** Expanding along a column: the cells of a column against the cofactors of column j give
      the determinant when the two columns are the same, and zero otherwise. */
  lemma {:induction false} ColumnExpansion3(m: Matrix, column: nat, j: nat)
    requires IsSquare(m) && m.rows == 3 && column < 3 && j < 3
    ensures Dot3(ColumnTriple(m, column), CofactorColumn3(m, j)) == if column == j then Determinant(m) else 0.0
  {
    var t := Transposed(m);
    assert ColumnTriple(m, column) == RowTriple(t, column);
    CofactorColumnTransposed3(m, j);
    RowExpansion3(t, column, j);
    DeterminantTransposed(m);
  }

  lemma {:induction false} ColumnExpansion4(m: Matrix, column: nat, j: nat)
    requires IsSquare(m) && m.rows == 4 && column < 4 && j < 4
    ensures Dot4(ColumnQuadruple(m, column), CofactorColumn4(m, j)) == if column == j then Determinant(m) else 0.0
  {
    var t := Transposed(m);
    assert ColumnQuadruple(m, column) == RowQuadruple(t, column);
    CofactorColumnTransposed4(m, j);
    RowExpansion4(t, column, j);
    DeterminantTransposed(m);
  }

  /** Row `row` of M times column `column` of the inverse: one cell of M * inverse(M). */
  lemma {:induction false} RightInverseCell3(m: Matrix, inv: Matrix, row: nat, column: nat)
    requires IsSquare(m) && m.rows == 3 && row < 3 && column < 3 && SameShape(inv, m) && Determinant(m) != 0.0
    requires ColumnTriple(inv, column) == Divided3(CofactorRow3(m, column), Determinant(m))
    ensures SumProducts(m, inv, row, column, 3) == if row == column then 1.0 else 0.0
  {
    ProductCell3(m, inv, row, column);
    RowExpansion3(m, row, column);
    ExpansionOverDeterminant3(RowTriple(m, row), CofactorRow3(m, column), Determinant(m), row == column);
  }

  lemma {:induction false} RightInverseCell4(m: Matrix, inv: Matrix, row: nat, column: nat)
    requires IsSquare(m) && m.rows == 4 && row < 4 && column < 4 && SameShape(inv, m) && Determinant(m) != 0.0
    requires ColumnQuadruple(inv, column) == Divided4(CofactorRow4(m, column), Determinant(m))
    ensures SumProducts(m, inv, row, column, 4) == if row == column then 1.0 else 0.0
  {
    ProductCell4(m, inv, row, column);
    RowExpansion4(m, row, column);
    ExpansionOverDeterminant4(RowQuadruple(m, row), CofactorRow4(m, column), Determinant(m), row == column);
  }

  /** Row `row` of the inverse times column `column` of M: one cell of inverse(M) * M. */
  lemma {:induction false} LeftInverseCell3(m: Matrix, inv: Matrix, row: nat, column: nat)
    requires IsSquare(m) && m.rows == 3 && row < 3 && column < 3 && SameShape(inv, m) && Determinant(m) != 0.0
    requires RowTriple(inv, row) == Divided3(CofactorColumn3(m, row), Determinant(m))
    ensures SumProducts(inv, m, row, column, 3) == if row == column then 1.0 else 0.0
  {
    ProductCell3(inv, m, row, column);
    ColumnExpansion3(m, column, row);
    ExpansionOverDeterminant3(ColumnTriple(m, column), CofactorColumn3(m, row), Determinant(m), column == row);
  }

  lemma {:induction false} LeftInverseCell4(m: Matrix, inv: Matrix, row: nat, column: nat)
    requires IsSquare(m) && m.rows == 4 && row < 4 && column < 4 && SameShape(inv, m) && Determinant(m) != 0.0
    requires RowQuadruple(inv, row) == Divided4(CofactorColumn4(m, row), Determinant(m))
    ensures SumProducts(inv, m, row, column, 4) == if row == column then 1.0 else 0.0
  {
    ProductCell4(inv, m, row, column);
    ColumnExpansion4(m, column, row);
    ExpansionOverDeterminant4(ColumnQuadruple(m, column), CofactorColumn4(m, row), Determinant(m), column == row);
  }

  /** M times the matrix Matrix::inverse builds from it is the identity. */
  lemma {:induction false} RightProductIsIdentity(m: Matrix, inv: Matrix)
    requires IsSquare(m) && 3 <= m.rows <= 4 && IsAdjugateOver(inv, m)
    ensures Product(m, inv) == Identity(m.rows)
  {
    var n := m.rows;
    var p, id := Product(m, inv), Identity(n);
    forall row: nat, column: nat | row < n && column < n
      ensures Cell(p, row, column) == Cell(id, row, column)
    {
      if n == 3 {
        InverseColumn3(m, inv, column);
        RightInverseCell3(m, inv, row, column);
      } else {
        InverseColumn4(m, inv, column);
        RightInverseCell4(m, inv, row, column);
      }
    }
    CellsDetermineMatrix(p, id);
  }

  /** The matrix Matrix::inverse builds from M, times M, is the identity. */
  lemma {:induction false} LeftProductIsIdentity(m: Matrix, inv: Matrix)
    requires IsSquare(m) && 3 <= m.rows <= 4 && IsAdjugateOver(inv, m)
    ensures Product(inv, m) == Identity(m.rows)
  {
    var n := m.rows;
    var p, id := Product(inv, m), Identity(n);
    forall row: nat, column: nat | row < n && column < n
      ensures Cell(p, row, column) == Cell(id, row, column)
    {
      if n == 3 {
        InverseRow3(m, inv, row);
        LeftInverseCell3(m, inv, row, column);
      } else {
        InverseRow4(m, inv, row);
        LeftInverseCell4(m, inv, row, column);
      }
    }
    CellsDetermineMatrix(p, id);
  }

  /** Matrix::inverse inverts: for every invertible 3x3 or 4x4 matrix M, both M * inverse(M)
      and inverse(M) * M are the identity. */
  lemma {:induction false} InverseIsInverse(m: Matrix)
    requires IsSquare(m) && 3 <= m.rows <= 4 && Invertible(m)
    ensures Inverse(m).Ok?
    ensures Product(m, Inverse(m).value) == Identity(m.rows)
    ensures Product(Inverse(m).value, m) == Identity(m.rows)
  {
    RightProductIsIdentity(m, Inverse(m).value);
    LeftProductIsIdentity(m, Inverse(m).value);
  }

  /** Inverting and transposing commute, and a matrix is invertible exactly when its transpose
      is. */
  lemma {:induction false} InverseOfTransposed(m: Matrix)
    requires IsSquare(m) && 3 <= m.rows <= 4
    ensures Invertible(Transposed(m)) <==> Invertible(m)
    ensures Invertible(m) ==> Inverse(Transposed(m)).Ok? && Inverse(m).Ok? &&
                              Inverse(Transposed(m)).value == Transposed(Inverse(m).value)
  {
    DeterminantTransposed(m);
    if Invertible(m) {
      var t, n := Transposed(m), m.rows;
      var a, b := Inverse(t).value, Transposed(Inverse(m).value);
      forall i: nat, j: nat | i < n && j < n
        ensures Cell(a, i, j) == Cell(b, i, j)
      {
        CofactorClosedForm(t, j, i);
        CofactorClosedForm(m, i, j);
        CofactorTransposed(m, j, i);
      }
      CellsDetermineMatrix(a, b);
    }
  }

  /** The matrix of the test suite's inverse checks has determinant -2276. */
  lemma {:induction false} TestMatrixDeterminant(m: Matrix)
    requires IsSquare(m) && m.rows == 4
    requires m.cells == [[3.0, -9.0, 7.0, 3.0], [3.0, -8.0, 2.0, -9.0], [-4.0, 4.0, 4.0, 1.0], [-6.0, 5.0, -1.0, 1.0]]
    ensures Determinant(m) == -2276.0
  {
    DeterminantOfRows4(m);
    assert RowQuadruple(m, 0) == Quadruple(3.0, -9.0, 7.0, 3.0);
    assert RowQuadruple(m, 1) == Quadruple(3.0, -8.0, 2.0, -9.0);
    assert RowQuadruple(m, 2) == Quadruple(-4.0, 4.0, 4.0, 1.0);
    assert RowQuadruple(m, 3) == Quadruple(-6.0, 5.0, -1.0, 1.0);
  }

  /** That matrix is invertible; multiplied by its inverse it gives identity<4>, and the
      inverse of its transpose is the transpose of its inverse. */
  lemma {:induction false} InverseTestMatrix(m: Matrix)
    requires IsSquare(m) && m.rows == 4
    requires m.cells == [[3.0, -9.0, 7.0, 3.0], [3.0, -8.0, 2.0, -9.0], [-4.0, 4.0, 4.0, 1.0], [-6.0, 5.0, -1.0, 1.0]]
    ensures Inverse(m).Ok? && Product(m, Inverse(m).value) == Identity(4)
    ensures Inverse(Transposed(m)).Ok? && Inverse(Transposed(m)).value == Transposed(Inverse(m).value)
  {
    TestMatrixDeterminant(m);
    InverseIsInverse(m);
    InverseOfTransposed(m);
  }
}

/** The few C++ standard facilities the kernel leans on, stated over exact integers and reals. */
module CppStd {

  /** 2^64: the modulus of std::size_t arithmetic. */
  const SizeTModulus: int := 0x1_0000_0000_0000_0000

  /** 2^63: one past the largest `long`, the type std::lround returns. */
  const LongLimit: int := 0x8000_0000_0000_0000

  /** std::size_t. */
  type SizeT = x: int | 0 <= x < 0x1_0000_0000_0000_0000

  /** unsigned int (32 bits). */
  type Unsigned = x: int | 0 <= x < 0x1_0000_0000

  /** Conversion of an integer to std::size_t: reduction modulo 2^64. */
  function Wrap(x: int): (r: SizeT)
    ensures (r - x) % SizeTModulus == 0
    ensures 0 <= x < SizeTModulus ==> r == x
  {
    x % SizeTModulus
  }

  /** std::round and std::lround: the nearest integer, halves rounded away from zero. */
  function Round(v: real): (r: int)
    ensures v - 0.5 <= r as real <= v + 0.5
    ensures r as real == v - 0.5 ==> v < 0.0
    ensures r as real == v + 0.5 ==> v >= 0.0
  {
    if v >= 0.0 then (v + 0.5).Floor else -((0.5 - v).Floor)
  }

  /** `r` is the non-negative square root of `x`. */
  predicate IsRootOf(r: real, x: real) {
    r >= 0.0 && r * r == x
  }

  /** Every non-negative real has a square root; Dafny cannot prove that in general, so the
      lemmas that need the root of a particular value ask for this fact about it. */
  ghost predicate HasSquareRoot(x: real) {
    exists r :: IsRootOf(r, x)
  }

  /** std::sqrt on exact reals: the non-negative root when there is one (0 otherwise, where the
      C++ function would return NaN; the kernel never takes the root of a negative number). */
  ghost function Sqrt(x: real): (r: real)
    ensures r >= 0.0
    ensures HasSquareRoot(x) ==> r * r == x
  {
    if HasSquareRoot(x) then var r :| IsRootOf(r, x); r else 0.0
  }

  lemma {:induction false} SqrtOfSquare(a: real)
    requires a >= 0.0
    ensures Sqrt(a * a) == a
  {
    assert IsRootOf(a, a * a);
    var r := Sqrt(a * a);
    assert (r - a) * (r + a) == 0.0;
    if a > 0.0 {
      assert r + a > 0.0;
      assert r - a == (r - a) * (r + a) / (r + a);
    }
  }

  /** The root of x is the non-negative a with a * a == x. */
  lemma {:induction false} SqrtIs(a: real, x: real)
    requires a >= 0.0 && a * a == x
    ensures Sqrt(x) == a
  {
    SqrtOfSquare(a);
  }

  /** The roots of the perfect squares 0, 1, 2 and 4. */
  lemma {:induction false} SmallRoots()
    ensures Sqrt(0.0) == 0.0 && Sqrt(1.0) == 1.0 && Sqrt(4.0) == 2.0
  {
    SqrtIs(0.0, 0.0);
    SqrtIs(1.0, 1.0);
    SqrtIs(2.0, 4.0);
  }

  /** Exponentiation by a natural number. */
  function IntPow(base: real, n: nat): (r: real)
    ensures n == 0 ==> r == 1.0
    ensures n > 0 ==> r == base * IntPow(base, n - 1)
    ensures base > 0.0 ==> r > 0.0
  {
    if n == 0 then 1.0
    else
      var rest := IntPow(base, n - 1);
      assert base > 0.0 && rest > 0.0 ==> base * rest > 0.0;
      base * rest
  }

  /** A positive real, named so that the choice below has a trigger. */
  predicate Positive(r: real) {
    r > 0.0
  }

  /** std::pow for a positive base: the exact power for an integral exponent; for any other
      exponent only its positivity is modelled. */
  ghost function Pow(base: real, exponent: real): (r: real)
    requires base > 0.0
    ensures r > 0.0
    ensures exponent == exponent.Floor as real && exponent >= 0.0 ==> r == IntPow(base, exponent.Floor)
  {
    if exponent == exponent.Floor as real then
      if exponent >= 0.0 then IntPow(base, exponent.Floor) else 1.0 / IntPow(base, -exponent.Floor)
    else
      assert Positive(1.0);
      var r :| Positive(r); r
  }

  /** One raised to a natural exponent is one. */
  lemma {:induction false} PowOfOne(exponent: real)
    requires exponent == exponent.Floor as real && exponent >= 0.0
    ensures Pow(1.0, exponent) == 1.0
  {
    IntPowOfOne(exponent.Floor);
  }

  lemma {:induction false} IntPowOfOne(n: nat)
    ensures IntPow(1.0, n) == 1.0
  {
    if n > 0 {
      IntPowOfOne(n - 1);
    }
  }
}

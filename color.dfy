/** Color: unclamped red, green and blue channels with tolerant equality, channel-wise arithmetic
    and the Hadamard product, plus the named colours. */
module Colors {
  import opened DoubleComparison

  /** The default colour is black; channels may be negative or above 1. */
  datatype Color = Color(red: real, green: real, blue: real)

  const White: Color := Color(1.0, 1.0, 1.0)
  const Black: Color := Color(0.0, 0.0, 0.0)
  const Red: Color := Color(1.0, 0.0, 0.0)
  const Green: Color := Color(0.0, 1.0, 0.0)
  const Blue: Color := Color(0.0, 0.0, 1.0)

  /** operator==: every channel pair is equal within Epsilon. */
  predicate Equals(lhs: Color, rhs: Color) {
    IsEqual(lhs.red, rhs.red) && IsEqual(lhs.green, rhs.green) && IsEqual(lhs.blue, rhs.blue)
  }

  /** Unary operator-. */
  function Negate(c: Color): (r: Color)
    ensures r.red == -c.red && r.green == -c.green && r.blue == -c.blue
  {
    Color(-c.red, -c.green, -c.blue)
  }

  /** operator+= (and the derived operator+). */
  function Add(lhs: Color, rhs: Color): (r: Color)
    ensures r.red == lhs.red + rhs.red && r.green == lhs.green + rhs.green && r.blue == lhs.blue + rhs.blue
  {
    Color(lhs.red + rhs.red, lhs.green + rhs.green, lhs.blue + rhs.blue)
  }

  /** operator-= (and the derived operator-): addition of the negated right operand. */
  function Subtract(lhs: Color, rhs: Color): (r: Color)
    ensures r.red == lhs.red - rhs.red && r.green == lhs.green - rhs.green && r.blue == lhs.blue - rhs.blue
  {
    Add(lhs, Negate(rhs))
  }

  /** operator*= with a factor (and the derived Color * double and double * Color). */
  function Scale(c: Color, factor: real): (r: Color)
  {
    Color(c.red * factor, c.green * factor, c.blue * factor)
  }

  /** operator*= with a colour: the Hadamard (channel-wise) product. */
  function Hadamard(lhs: Color, rhs: Color): (r: Color)
    ensures r.red == lhs.red * rhs.red && r.green == lhs.green * rhs.green && r.blue == lhs.blue * rhs.blue
  {
    Color(lhs.red * rhs.red, lhs.green * rhs.green, lhs.blue * rhs.blue)
  }

  /** The Hadamard product is commutative, white is its unit and black absorbs it. */
  lemma HadamardLaws(a: Color, b: Color)
    ensures Hadamard(a, b) == Hadamard(b, a)
    ensures Hadamard(a, White) == a && Hadamard(a, Black) == Black
  {
  }

  /** The negation is the additive inverse and subtraction undoes addition. */
  lemma {:induction false} InverseLaws(a: Color, b: Color)
    ensures Add(a, Negate(a)) == Black
    ensures Add(Subtract(a, b), b) == a && Subtract(Add(a, b), b) == a
  {
  }

  /** Tolerant colour equality is reflexive and symmetric. */
  lemma EqualsTolerance(a: Color, b: Color)
    ensures Equals(a, a)
    ensures Equals(a, b) <==> Equals(b, a)
  {
  }

  /** The worked colour examples: sums, differences, scaling and the Hadamard product. */
  lemma ColorExamples()
    ensures Add(Color(0.9, 0.6, 0.75), Color(0.7, 0.1, 0.25)) == Color(1.6, 0.7, 1.0)
    ensures Equals(Subtract(Color(0.9, 0.6, 0.75), Color(0.7, 0.1, 0.25)), Color(0.2, 0.5, 0.5))
    ensures Scale(Color(0.2, 0.3, 0.4), 2.0) == Color(0.4, 0.6, 0.8)
    ensures Equals(Hadamard(Color(1.0, 0.2, 0.4), Color(0.9, 1.0, 0.1)), Color(0.9, 0.2, 0.04))
    ensures !Equals(Color(0.1, 0.0, 0.0), Black)
  {
  }
}

/**
 Exact real arithmetic the statistics rely on. Products are taken through
 `Mul` so that the few nonlinear facts the model needs are proved once, in
 the small lemmas below, and used everywhere else as plain facts.
 */
module Arith {

  function Abs(x: real): (r: real)
    ensures r >= 0.0
    ensures r == x || r == -x
  {
    if x < 0.0 then -x else x
  }

  /** The product of `a` and `b`. */
  function Mul(a: real, b: real): (r: real)
  {
    a * b
  }

  lemma MulPositive(a: real, b: real)
    requires a > 0.0 && b > 0.0
    ensures Mul(a, b) > 0.0
  {
  }

  lemma MulNonNegative(a: real, b: real)
    requires a >= 0.0 && b >= 0.0
    ensures Mul(a, b) >= 0.0
  {
    if a > 0.0 && b > 0.0 {
      MulPositive(a, b);
    } else if a == 0.0 {
      assert Mul(a, b) == 0.0 * b;
    } else {
      assert Mul(a, b) == a * 0.0;
    }
  }

  lemma MulNegatives(a: real, b: real)
    requires a < 0.0 && b < 0.0
    ensures Mul(a, b) > 0.0
  {
  }

  /** The square of `x`, which is positive unless `x` is zero. */
  function Square(x: real): (r: real)
    ensures r >= 0.0
    ensures x != 0.0 ==> r > 0.0
  {
    if x > 0.0 then MulPositive(x, x); Mul(x, x)
    else if x < 0.0 then MulNegatives(x, x); Mul(x, x)
    else 0.0
  }

  lemma SquareIsProduct(x: real)
    ensures Square(x) == Mul(x, x)
  {
  }

  lemma SquareOfAbs(x: real)
    ensures Square(Abs(x)) == Square(x)
  {
    SquareIsProduct(x);
    SquareIsProduct(-x);
    assert (-x) * (-x) == x * x;
  }

  lemma SquareOfProduct(a: real, b: real)
    ensures Square(Mul(a, b)) == Mul(Square(a), Square(b))
  {
    SquareIsProduct(a);
    SquareIsProduct(b);
    SquareIsProduct(a * b);
    assert (a * b) * (a * b) == (a * a) * (b * b);
  }

  /** On non-negative reals squaring preserves strict order, in both directions. */
  lemma SquareMonotonic(a: real, b: real)
    requires a >= 0.0 && b >= 0.0
    ensures a > b <==> Square(a) > Square(b)
  {
    SquareIsProduct(a);
    SquareIsProduct(b);
    assert a * a - b * b == (a - b) * (a + b);
    if a > b {
      MulPositive(a - b, a + b);
    } else {
      MulNonNegative(b - a, b + a);
    }
  }

  /** For a positive divisor, comparing a quotient is comparing a product. */
  lemma QuotientExceeds(a: real, s: real, t: real)
    requires s > 0.0
    ensures a / s > t <==> a > Mul(t, s)
  {
    var q := a / s;
    assert q * s == a;
    if q > t {
      MulPositive(q - t, s);
      assert (q - t) * s == q * s - t * s;
    } else {
      MulNonNegative(t - q, s);
      assert (t - q) * s == t * s - q * s;
    }
  }
}

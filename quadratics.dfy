/**
 * Facts about real quadratics that both raycasts rely on: the factorisation
 * through the two roots the quadratic formula gives, the completed square, and
 * the sign of a product.
 */
module Quadratics {

  /** t^2 + b t + c factors through the roots (-b -/+ s) / 2 when s^2 is the discriminant. */
  lemma MonicFactor(b: real, c: real, s: real, t: real)
    requires s * s == b * b - 4.0 * c
    ensures t * t + b * t + c == (t - (-b - s) / 2.0) * (t - (-b + s) / 2.0)
  {
    calc {
      (t - (-b - s) / 2.0) * (t - (-b + s) / 2.0);
      t * t + b * t + (b * b - s * s) / 4.0;
      t * t + b * t + c;
    }
  }

  /** Vieta's formulas for the monic quadratic t^2 + b t + c. */
  lemma MonicVieta(b: real, c: real, s: real)
    requires s * s == b * b - 4.0 * c
    ensures (-b - s) / 2.0 + (-b + s) / 2.0 == -b
    ensures ((-b - s) / 2.0) * ((-b + s) / 2.0) == c
  {
    calc {
      ((-b - s) / 2.0) * ((-b + s) / 2.0);
      (b * b - s * s) / 4.0;
      c;
    }
  }

  /**
   * The signs of the two roots t0, t1 of t^2 + b t + c, read off its
   * coefficients: both positive exactly when c > 0 and b < 0, of opposite
   * signs exactly when c < 0.
   */
  lemma RootSigns(t0: real, t1: real, b: real, c: real)
    requires t0 + t1 == -b && t0 * t1 == c
    ensures (0.0 < t0 && 0.0 < t1) <==> (0.0 < c && b < 0.0)
    ensures ((t0 < 0.0 && 0.0 < t1) || (0.0 < t0 && t1 < 0.0)) <==> c < 0.0
  {
    ProductSigns(t0, t1);
    assert Positive(c) == Positive(t0 * t1);
    assert Negative(c) == Negative(t0 * t1);
  }

  /** Completing the square of t^2 + b t + c. */
  lemma MonicCompletedSquare(b: real, c: real, t: real)
    ensures t * t + b * t + c == (t + b / 2.0) * (t + b / 2.0) - (b * b - 4.0 * c) / 4.0
  {
  }

  /**
   * a (a t^2 + 2 b t + c) factors through the roots (-b -/+ s) / a when s^2 is
   * the reduced discriminant b^2 - a c.
   */
  lemma ReducedFactor(a: real, b: real, c: real, s: real, t: real)
    requires s * s == b * b - a * c
    ensures a * (a * t * t + 2.0 * b * t + c) == (a * t + b + s) * (a * t + b - s)
  {
    calc {
      (a * t + b + s) * (a * t + b - s);
      (a * t + b) * (a * t + b) - s * s;
      a * a * t * t + 2.0 * a * b * t + b * b - (b * b - a * c);
      a * (a * t * t + 2.0 * b * t + c);
    }
  }

  /** (-b + s) / a and (-b - s) / a solve a t^2 + 2 b t + c = 0 when a != 0 and s^2 = b^2 - a c. */
  lemma ReducedRoots(a: real, b: real, c: real, s: real)
    requires a != 0.0 && s * s == b * b - a * c
    ensures var t := (-b + s) / a; a * t * t + 2.0 * b * t + c == 0.0
    ensures var t := (-b - s) / a; a * t * t + 2.0 * b * t + c == 0.0
  {
    var t0, t1 := (-b + s) / a, (-b - s) / a;
    assert a * t0 == -b + s;
    assert a * t1 == -b - s;
    ReducedFactor(a, b, c, s, t0);
    ReducedFactor(a, b, c, s, t1);
    ProductZero(a, a * t0 * t0 + 2.0 * b * t0 + c);
    ProductZero(a, a * t1 * t1 + 2.0 * b * t1 + c);
  }

  /** Vieta's formulas for the reduced quadratic a t^2 + 2 b t + c, multiplied through by a. */
  lemma ReducedVieta(a: real, b: real, c: real, s: real)
    requires a != 0.0 && s * s == b * b - a * c
    ensures a * ((-b + s) / a + (-b - s) / a) == -2.0 * b
    ensures a * (((-b + s) / a) * ((-b - s) / a)) == c
  {
    var t0, t1 := (-b + s) / a, (-b - s) / a;
    assert a * t0 == -b + s;
    assert a * t1 == -b - s;
    assert a * (a * (t0 * t1)) == (a * t0) * (a * t1);
    assert (-b + s) * (-b - s) == a * c;
    ProductZero(a, a * (t0 * t1) - c);
  }

  /**
   * The signs of the two roots t0, t1 of a t^2 + 2 b t + c with a > 0, read
   * off its coefficients: both positive exactly when c > 0 and b < 0, of
   * opposite signs exactly when c < 0.
   */
  lemma ReducedRootSigns(t0: real, t1: real, a: real, b: real, c: real)
    requires 0.0 < a && a * (t0 + t1) == -2.0 * b && a * (t0 * t1) == c
    ensures (0.0 < t0 && 0.0 < t1) <==> (0.0 < c && b < 0.0)
    ensures ((t0 < 0.0 && 0.0 < t1) || (0.0 < t0 && t1 < 0.0)) <==> c < 0.0
  {
    ProductSigns(t0, t1);
    ScaledSign(a, t0 * t1);
    ScaledSign(a, t0 + t1);
    assert Positive(c) == Positive(a * (t0 * t1));
    assert Negative(c) == Negative(a * (t0 * t1));
  }

  /** Dividing by a positive number keeps the sign. */
  lemma QuotientSign(x: real, a: real)
    requires 0.0 < a
    ensures 0.0 < x / a <==> 0.0 < x
    ensures x / a < 0.0 <==> x < 0.0
  {
    assert x == (x / a) * a;
    ProductSign(x / a, a);
    if x / a == 0.0 {
      assert x == 0.0 * a;
    }
  }

  /** Multiplying by a positive number keeps the sign. */
  lemma ScaledSign(a: real, x: real)
    requires 0.0 < a
    ensures Positive(a * x) <==> 0.0 < x
    ensures Negative(a * x) <==> x < 0.0
  {
    ProductSign(a, x);
    if x == 0.0 {
      assert a * x == a * 0.0;
    }
  }

  /** Completing the square of a (a t^2 + 2 b t + c). */
  lemma ReducedCompletedSquare(a: real, b: real, c: real, t: real)
    ensures a * (a * t * t + 2.0 * b * t + c) == (a * t + b) * (a * t + b) - (b * b - a * c)
  {
  }

  lemma SquareNonNegative(x: real)
    ensures 0.0 <= x * x
  {
    if x < 0.0 {
      assert x * x == (-x) * (-x);
    }
  }

  lemma SquarePositive(x: real)
    requires x != 0.0
    ensures 0.0 < x * x
  {
    if x < 0.0 {
      assert 0.0 < (-x) * (-x);
      assert x * x == (-x) * (-x);
    }
  }

  /**
   * A positive real, as a predicate: facts about products are passed on
   * through it so that they hold of the product term itself.
   */
  predicate Positive(x: real) {
    0.0 < x
  }

  predicate Negative(x: real) {
    x < 0.0
  }

  /** The sign of a product, both ways, stated of the product term. */
  lemma ProductSigns(x: real, y: real)
    ensures Positive(x * y) <==> (0.0 < x && 0.0 < y) || (x < 0.0 && y < 0.0)
    ensures Negative(x * y) <==> (x < 0.0 && 0.0 < y) || (0.0 < x && y < 0.0)
  {
    ProductSign(x, y);
    if x == 0.0 {
      assert x * y == 0.0 * y;
    } else if y == 0.0 {
      assert x * y == x * 0.0;
    }
  }

  lemma PositiveSquare(x: real)
    requires 0.0 < x
    ensures Positive(x * x)
  {
  }

  /** For non-negative reals, squaring preserves strict order. */
  lemma SquareStrictlyMonotonic(x: real, y: real)
    requires 0.0 <= x < y
    ensures x * x < y * y
  {
    calc {
      x * x;
    <= x * y;
    < y * y;
    }
  }

  /** A product of reals is zero only when a factor is. */
  lemma ProductZero(x: real, y: real)
    requires x * y == 0.0
    ensures x == 0.0 || y == 0.0
  {
    if x != 0.0 && y != 0.0 {
      ProductNonZero(x, y);
    }
  }

  lemma ProductNonZero(x: real, y: real)
    requires x != 0.0 && y != 0.0
    ensures x * y != 0.0
  {
    if 0.0 < x && 0.0 < y {
      assert 0.0 < x * y;
    } else if 0.0 < x {
      assert 0.0 < x * -y;
      assert x * y == -(x * -y);
    } else if 0.0 < y {
      assert 0.0 < -x * y;
      assert x * y == -(-x * y);
    } else {
      assert 0.0 < -x * -y;
      assert x * y == -x * -y;
    }
  }

  /** The square of a + b t, expanded in powers of t. */
  lemma SquareOfSum(a: real, b: real, t: real)
    ensures (a + b * t) * (a + b * t) == a * a + 2.0 * t * (b * a) + t * t * (b * b)
  {
  }

  /** The square of a - b t, expanded in powers of t. */
  lemma SquareOfDifference(a: real, b: real, t: real)
    ensures (a - b * t) * (a - b * t) == a * a - 2.0 * t * (a * b) + t * t * (b * b)
  {
  }

  lemma SquareZero(x: real)
    requires x * x == 0.0
    ensures x == 0.0
  {
    ProductZero(x, x);
  }

  /** The sign of a product from the signs of its factors. */
  lemma ProductSign(x: real, y: real)
    ensures 0.0 < x && 0.0 < y ==> 0.0 < x * y
    ensures x < 0.0 && y < 0.0 ==> 0.0 < x * y
    ensures 0.0 < x && y < 0.0 ==> x * y < 0.0
    ensures x < 0.0 && 0.0 < y ==> x * y < 0.0
  {
    if 0.0 < x && y < 0.0 {
      assert 0.0 < x * -y;
    } else if x < 0.0 && 0.0 < y {
      assert 0.0 < -x * y;
    } else if x < 0.0 && y < 0.0 {
      assert 0.0 < -x * -y;
    }
  }
}

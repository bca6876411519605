/** Small facts of real arithmetic. Products are named, so that the solver compares them as
    terms, and are unfolded only in the lemmas here. */
module RealArithmetic {

  function Times(x: real, y: real): real {
    x * y
  }

  function Over(x: real, y: real): real
    requires y != 0.0
  {
    x / y
  }

  lemma OverTimes(x: real, n: real)
    requires n != 0.0
    ensures Times(Over(x, n), n) == x
  {
  }

  lemma TimesStrict(a: real, b: real, n: real)
    requires a < b && n > 0.0
    ensures Times(a, n) < Times(b, n)
  {
  }

  lemma TimesMonotone(a: real, b: real, n: real)
    requires a <= b && n > 0.0
    ensures Times(a, n) <= Times(b, n)
  {
    if a < b {
      TimesStrict(a, b, n);
    }
  }

  lemma TimesPositive(a: real, b: real)
    requires a > 0.0 && b > 0.0
    ensures Times(a, b) > 0.0
  {
  }

  lemma TimesNonnegative(a: real, b: real)
    requires a >= 0.0 && b >= 0.0
    ensures Times(a, b) >= 0.0
  {
  }

  lemma SquareNonnegative(x: real)
    ensures Times(x, x) >= 0.0
  {
  }

  lemma SquareZero(x: real)
    requires Times(x, x) == 0.0
    ensures x == 0.0
  {
    if x > 0.0 {
      TimesPositive(x, x);
    } else if x < 0.0 {
      NegatedSquare(x);
      TimesPositive(-x, -x);
    }
  }

  lemma NegatedSquare(x: real)
    ensures Times(-x, -x) == Times(x, x)
  {
  }

  lemma Unscale(a: real, b: real, n: real)
    requires n > 0.0 && Times(a, n) <= Times(b, n)
    ensures a <= b
  {
    if b < a {
      TimesStrict(b, a, n);
    }
  }

  lemma OverBound(x: real, n: real, m: real)
    requires n > 0.0 && 0.0 <= x <= Times(m, n)
    ensures 0.0 <= Over(x, n) <= m
  {
    OverTimes(x, n);
    Unscale(Over(x, n), m, n);
    assert Times(0.0, n) == 0.0;
    Unscale(0.0, Over(x, n), n);
  }

  /** A mean lies below the maximum, and the maximum below the sum. */
  lemma MeanBounds(sum: real, n: real, m: real)
    requires n >= 1.0 && 0.0 <= m <= sum <= Times(m, n)
    ensures 0.0 <= Over(sum, n) <= m <= Times(Over(sum, n), n)
  {
    OverTimes(sum, n);
    OverBound(sum, n, m);
  }

  lemma TimesSum(a: real, b: real, n: real)
    ensures Times(a + b, n) == Times(a, n) + Times(b, n)
  {
  }

  lemma OverSum(x: real, y: real, z: real, n: real)
    requires n > 0.0 && x <= y + z
    ensures Over(x, n) <= Over(y, n) + Over(z, n)
  {
    OverTimes(x, n);
    OverTimes(y, n);
    OverTimes(z, n);
    TimesSum(Over(y, n), Over(z, n), n);
    Unscale(Over(x, n), Over(y, n) + Over(z, n), n);
  }

  /** The quadratic `p - 2 q t + r t^2`. */
  function Quadratic(p: real, q: real, r: real, t: real): real {
    p - 2.0 * t * q + t * t * r
  }

  lemma AddSquareIdentity(x: real, y: real, p: real, q: real, r: real, t: real)
    ensures Quadratic(Times(x, x) + p, Times(x, y) + q, Times(y, y) + r, t)
            == Quadratic(p, q, r, t) + Times(x - t * y, x - t * y)
  {
  }

  /** A nonnegative quadratic stays so when the square of `x - t y` is added. */
  lemma AddSquare(x: real, y: real, p: real, q: real, r: real, t: real)
    requires Quadratic(p, q, r, t) >= 0.0
    ensures Quadratic(Times(x, x) + p, Times(x, y) + q, Times(y, y) + r, t) >= 0.0
  {
    AddSquareIdentity(x, y, p, q, r, t);
    SquareNonnegative(x - t * y);
  }

  /** At its minimum `t = d / q`, `q` times the quadratic is `p q - d^2`. */
  lemma QuadraticAtMinimum(p: real, d: real, q: real, t: real)
    requires Times(t, q) == d
    ensures Times(Quadratic(p, d, q, t), q) == Times(p, q) - Times(d, d)
  {
    var value := Quadratic(p, d, q, t);
    assert value == p - t * d by {
      assert t * t * q == t * (t * q);
    }
    assert (p - t * d) * q == p * q - d * (t * q);
  }

  lemma Discriminant(p: real, d: real, q: real, t: real)
    requires q > 0.0 && Times(t, q) == d && Quadratic(p, d, q, t) >= 0.0
    ensures Times(d, d) <= Times(p, q)
  {
    QuadraticAtMinimum(p, d, q, t);
    TimesNonnegative(Quadratic(p, d, q, t), q);
  }

  lemma TimesCommutes(a: real, b: real)
    ensures Times(a, b) == Times(b, a)
  {
  }

  lemma SquareOrder(a: real, b: real)
    requires 0.0 < a < b
    ensures Times(a, a) < Times(b, b)
  {
    TimesStrict(a, b, a);
    TimesStrict(a, b, b);
    TimesCommutes(a, b);
  }

  lemma SquareBound(d: real, n: real)
    requires n > 0.0 && Times(d, d) <= Times(n, n)
    ensures -n <= d <= n
  {
    NegatedSquare(d);
    if n < d {
      SquareOrder(n, d);
    } else if n < -d {
      SquareOrder(n, -d);
    }
  }

  lemma SquareOfProduct(a: real, b: real)
    ensures Times(Times(a, b), Times(a, b)) == Times(Times(a, a), Times(b, b))
  {
  }

  lemma RatioBound(d: real, n: real)
    requires n > 0.0 && -n <= d <= n
    ensures -1.0 <= Over(d, n) <= 1.0
  {
    OverTimes(d, n);
    assert Times(1.0, n) == n && Times(-1.0, n) == -n;
    Unscale(Over(d, n), 1.0, n);
    Unscale(-1.0, Over(d, n), n);
  }

  lemma TimesAssociates(a: real, b: real, c: real)
    ensures Times(a, Times(b, c)) == Times(Times(a, b), c)
  {
  }

  lemma QuotientWithin(x: real, n: real, limit: real)
    requires n > 0.0
    ensures Over(x, n) <= limit <==> x <= Times(limit, n)
    ensures limit <= Over(x, n) <==> Times(limit, n) <= x
  {
    OverTimes(x, n);
    if Over(x, n) <= limit {
      TimesMonotone(Over(x, n), limit, n);
    } else {
      TimesStrict(limit, Over(x, n), n);
    }
    if limit < Over(x, n) {
      TimesStrict(limit, Over(x, n), n);
    } else {
      TimesMonotone(Over(x, n), limit, n);
    }
  }

  lemma PositiveQuotient(x: real, n: real)
    requires n > 0.0 && x > 0.0
    ensures Over(x, n) > 0.0
  {
    OverTimes(x, n);
    assert Times(0.0, n) == 0.0;
    Unscale(0.0, Over(x, n), n);
  }

  /** A ratio of two means is a ratio of the two sums. */
  lemma RatioOfMeansWithin(x: real, y: real, n: real, limit: real)
    requires n > 0.0 && y > 0.0
    ensures Over(y, n) > 0.0
    ensures Over(Over(x, n), Over(y, n)) <= limit <==> x <= Times(limit, y)
  {
    PositiveQuotient(y, n);
    QuotientWithin(Over(x, n), Over(y, n), limit);
    QuotientWithin(x, n, Times(limit, Over(y, n)));
    TimesAssociates(limit, Over(y, n), n);
    OverTimes(y, n);
  }
}

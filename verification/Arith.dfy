/** The few facts about products and integer division that the other modules use. */
module Arith {

  lemma Division(a: int, n: int)
    requires n > 0
    ensures a / n * n <= a < a / n * n + n
  {
  }

  lemma Product(a: int, b: int, n: int)
    requires a <= b && n >= 0
    ensures a * n <= b * n
  {
  }

  lemma Divides(q: int, n: int)
    requires n > 0
    ensures (q * n) / n == q
  {
    var r := (q * n) / n;
    Division(q * n, n);
    if r < q {
      Product(r + 1, q, n);
    } else if q < r {
      Product(q + 1, r, n);
    }
  }

  lemma QuotientMonotone(a: int, b: int, n: int)
    requires n > 0 && a <= b
    ensures a / n <= b / n
  {
    Division(a, n);
    Division(b, n);
    if b / n < a / n {
      Product(b / n + 1, a / n, n);
    }
  }

  lemma ExactDivision(k: int, n: int)
    requires n > 0 && k % n == 0
    ensures k / n * n == k
  {
  }

  lemma Multiple(k: int, n: int)
    requires n > 0
    ensures (k * n) % n == 0
  {
    Divides(k, n);
  }

  lemma QuotientAtMost(x: int, q: int, n: int)
    requires n > 0 && x < (q + 1) * n
    ensures x / n <= q
  {
    Division(x, n);
    if x / n > q {
      Product(q + 1, x / n, n);
    }
  }

  lemma QuotientAtLeast(x: int, q: int, n: int)
    requires n > 0 && q * n <= x
    ensures q <= x / n
  {
    Division(x, n);
    if x / n < q {
      Product(x / n + 1, q, n);
    }
  }

  lemma NextMultiple(q: int, n: int)
    ensures (q + 1) * n == q * n + n
  {
  }

  lemma Remainder(x: int, n: int)
    requires n > 0
    ensures 0 <= x + x / -n * n < n
  {
    assert x == x / -n * -n + x % -n;
  }

  /** Euclidean division by a negative number. */
  lemma NegativeDivisor(x: int, n: int)
    requires n > 0
    ensures x / -n == -(x / n)
  {
    var q := -(x / -n);
    Remainder(x, n);
    NextMultiple(q, n);
    assert q * n == -(x / -n * n);
    QuotientAtMost(x, q, n);
    QuotientAtLeast(x, q, n);
  }

  // ----- reals -----

  lemma RealZero(r: real)
    ensures 0.0 * r == 0.0
  {
  }

  lemma RealNonNegative(x: real, y: real)
    requires x >= 0.0 && y >= 0.0
    ensures x * y >= 0.0
  {
  }

  lemma RealDistributes(x: real, y: real, r: real)
    ensures (x + y) * r == x * r + y * r
  {
  }

  lemma RealProduct(x: real, y: real, d: real)
    requires x <= y && d >= 0.0
    ensures x * d <= y * d
  {
    RealNonNegative(y - x, d);
    RealDistributes(x, y - x, d);
    assert x + (y - x) == y;
  }

  lemma RealStrictProduct(x: real, y: real, d: real)
    requires x < y && d > 0.0
    ensures x * d < y * d
  {
    RealDistributes(x, y - x, d);
    assert (y - x) * d > 0.0;
    assert x + (y - x) == y;
  }

  lemma RealQuotient(a: real, d: real)
    requires d > 0.0
    ensures a / d * d == a
  {
  }

  lemma CastProduct(q: int, n: int)
    ensures (q * n) as real == q as real * n as real
  {
  }

  lemma CastBetween(lo: int, a: int, hi: int)
    requires lo <= a < hi
    ensures lo as real <= a as real < hi as real
  {
  }

  lemma BetweenProducts(p: real, x: real, q: real, d: real)
    requires d > 0.0 && p * d <= x * d < q * d
    ensures p <= x < q
  {
    if x < p {
      RealStrictProduct(x, p, d);
    } else if q <= x {
      RealProduct(q, x, d);
    }
  }

  lemma FloorBetween(q: int, a: int, n: int, x: real)
    requires n > 0 && q * n <= a < (q + 1) * n && x * n as real == a as real
    ensures q as real <= x < (q + 1) as real
  {
    CastProduct(q, n);
    CastProduct(q + 1, n);
    CastBetween(q * n, a, (q + 1) * n);
    BetweenProducts(q as real, x, (q + 1) as real, n as real);
  }

  /** Integer division is the exact quotient rounded down. */
  lemma FloorOfQuotient(a: int, n: int)
    requires n > 0
    ensures (a / n) as real <= a as real / n as real < (a / n) as real + 1.0
  {
    Division(a, n);
    NextMultiple(a / n, n);
    RealQuotient(a as real, n as real);
    FloorBetween(a / n, a, n, a as real / n as real);
  }
}

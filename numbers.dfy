/**
 * Arithmetic the model shares: comparisons of a ratio against a threshold,
 * integer quotients, and Python's built-in `round` to an integer.
 */
module Numbers {

  /** `c / b > t` compares the numerator with `t * b`. */
  lemma RatioAbove(c: real, b: real, t: real)
    requires b > 0.0
    ensures c / b > t <==> c > t * b
  {
    var x := c / b;
    assert x * b == c;
    if x > t {
      assert (x - t) * b > 0.0;
    } else {
      assert (t - x) * b >= 0.0;
    }
  }

  /** `c / b < t` compares the numerator with `t * b`. */
  lemma RatioBelow(c: real, b: real, t: real)
    requires b > 0.0
    ensures c / b < t <==> c < t * b
  {
    var x := c / b;
    assert x * b == c;
    if x < t {
      assert (t - x) * b > 0.0;
    } else {
      assert (x - t) * b >= 0.0;
    }
  }

  lemma QuotientBounds(n: int, m: int)
    requires m > 0
    ensures (n / m) * m <= n < (n / m + 1) * m
  {
  }

  lemma QuotientAtLeast(n: int, m: int, k: int)
    requires m > 0 && n >= k * m
    ensures n / m >= k
  {
    QuotientBounds(n, m);
  }

  /**
   * Python's `round(x)`: the nearest integer, halves going to the even
   * neighbour.
   */
  function Round(x: real): (r: int)
    ensures x - 0.5 <= r as real <= x + 0.5
  {
    var f := x.Floor;
    var frac := x - f as real;
    if frac < 0.5 then f
    else if frac > 0.5 then f + 1
    else if f % 2 == 0 then f else f + 1
  }

  /** Rounding never reverses the order of two numbers. */
  lemma RoundMonotone(x: real, y: real)
    requires x <= y
    ensures Round(x) <= Round(y)
  {
  }

  /** Whole numbers round to themselves. */
  lemma RoundOfInteger(n: int)
    ensures Round(n as real) == n
  {
  }

  /** The product of two non-negative numbers is non-negative. */
  lemma ProductNonNegative(a: real, b: real)
    requires a >= 0.0 && b >= 0.0
    ensures a * b >= 0.0
  {
  }

  /** Multiplying by a non-negative factor keeps the order of two numbers. */
  lemma ScaleMonotone(k: real, a: real, b: real)
    requires k >= 0.0 && a <= b
    ensures k * a <= k * b
  {
    ProductNonNegative(k, b - a);
    assert k * b - k * a == k * (b - a);
  }

  /**
   * A factor drawn as `lo + f * width` with `0 <= f < 1` scales a positive
   * `n` to between `n * lo` and `n * hi`, where `hi` is `lo + width`.
   */
  lemma DrawnFactor(n: real, f: real, lo: real, width: real, hi: real)
    requires n > 0.0 && 0.0 <= f < 1.0 && width >= 0.0 && hi == lo + width
    ensures n * lo <= n * (lo + f * width) <= n * hi
  {
    ProductNonNegative(f, width);
    ScaleMonotone(width, f, 1.0);
    ScaleMonotone(n, lo, lo + f * width);
    ScaleMonotone(n, lo + f * width, hi);
  }

  /** A part over a positive whole is a proportion, and multiplying back gives the part. */
  lemma Proportion(part: real, whole: real)
    requires 0.0 <= part <= whole && whole > 0.0
    ensures 0.0 <= part / whole <= 1.0
    ensures (part / whole) * whole == part
  {
    RatioAbove(part, whole, 1.0);
    RatioBelow(part, whole, 0.0);
  }

  /** A total of values in `[0, hi]` over `n` entries has a mean in `[0, hi]`. */
  lemma MeanWithin(total: real, n: real, hi: real)
    requires n > 0.0 && hi >= 0.0 && 0.0 <= total <= hi * n
    ensures 0.0 <= total / n <= hi
    ensures (total / n) * n == total
  {
    RatioAbove(total, n, hi);
    RatioBelow(total, n, 0.0);
  }

  /** Dividing by a positive number and multiplying back restores the number. */
  lemma DivideBack(x: real, y: real)
    requires y > 0.0
    ensures (x / y) * y == x
  {
  }
}

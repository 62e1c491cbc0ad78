/** Facts about integer division and multiplication that the collector's
    progress arithmetic needs and the solver does not find unaided. */
module Arith {

  /** Quotient and remainder are determined by the division equation. */
  lemma DivUnique(n: int, t: int, q: int, r: int)
    requires t > 0 && 0 <= r < t && n == t * q + r
    ensures n / t == q && n % t == r
  {
    var q' := n / t;
    var r' := n % t;
    assert n == t * q' + r';
    if q' > q {
      MulMono(q + 1, q', t);
    } else if q' < q {
      MulMono(q' + 1, q, t);
    }
  }

  /** Multiplying by a non-negative factor keeps the order. */
  lemma MulMono(a: int, b: int, t: int)
    requires a <= b && t >= 0
    ensures t * a <= t * b && a * t <= b * t
  {
    assert t * b - t * a == t * (b - a);
  }

  /** Dividing by a positive divisor keeps the order. */
  lemma DivMono(a: int, b: int, c: int)
    requires a <= b && c > 0
    ensures a / c <= b / c
  {
    assert a == c * (a / c) + a % c;
    assert b == c * (b / c) + b % c;
    if a / c > b / c {
      MulMono(b / c + 1, a / c, c);
    }
  }

  /** Counting k up by one advances k / t exactly when t divides k. */
  lemma DivStep(k: int, t: int)
    requires k >= 1 && t >= 1
    ensures k % t == 0 ==> k / t == (k - 1) / t + 1 && (k / t) * t == k
    ensures k % t != 0 ==> k / t == (k - 1) / t
  {
    var q := (k - 1) / t;
    var r := (k - 1) % t;
    assert k - 1 == t * q + r;
    if r + 1 == t {
      DivUnique(k, t, q + 1, 0);
    } else {
      DivUnique(k, t, q, r + 1);
    }
  }

  /** The product of k / t and t does not exceed k. */
  lemma MulDivLe(k: int, t: int)
    requires k >= 0 && t >= 1
    ensures 0 <= (k / t) * t <= k
  {
    assert k == t * (k / t) + k % t;
  }

  /** x out of n as a whole percentage, truncated: at most 100, and 100
      only for x == n. */
  lemma PercentBounds(x: int, n: int)
    requires 0 <= x <= n && n > 0
    ensures 0 <= 100 * x / n <= 100
    ensures 100 * x / n == 100 <==> x == n
  {
    DivMono(100 * x, 100 * n, n);
    DivUnique(100 * n, n, 100, 0);
    if x < n {
      var p := 100 * x / n;
      assert 100 * x == n * p + (100 * x) % n;
      if p >= 100 {
        MulMono(100, p, n);
      }
    }
  }
}

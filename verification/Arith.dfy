/** Small facts about integer multiplication, division and remainder that the
    solver does not find on its own. Every lemma here is a helper for the prime
    and sieve proofs. */
module Arith {

  function Min(a: int, b: int): int { if a <= b then a else b }

  function Max(a: int, b: int): int { if a >= b then a else b }

  lemma MulLeLeft(k: int, x: int, y: int)
    requires k >= 0 && x <= y
    ensures k * x <= k * y
  {
    assert k * y - k * x == k * (y - x);
  }

  lemma MulLtLeft(k: int, x: int, y: int)
    requires k > 0 && x < y
    ensures k * x < k * y
  {
    assert k * y - k * x == k * (y - x);
    MulLeLeft(k, 1, y - x);
  }

  /** From k*x < k*y with k positive follows x < y. */
  lemma MulLtCancel(k: int, x: int, y: int)
    requires k > 0 && k * x < k * y
    ensures x < y
  {
    if y <= x {
      MulLeLeft(k, y, x);
    }
  }

  lemma SquareLe(x: int, y: int)
    requires 0 <= x <= y
    ensures x * x <= y * y
  {
    MulLeLeft(x, x, y);
    MulLeLeft(y, x, y);
  }

  lemma SquareLtCancel(x: int, y: int)
    requires 0 <= y && x * x < y * y
    ensures x < y
  {
    if y <= x {
      SquareLe(y, x);
    }
  }

  /** A multiple of k leaves remainder 0. */
  lemma ModOfMultiple(k: int, m: int)
    requires k > 0
    ensures (k * m) % k == 0
  {
    var q := (k * m) / k;
    var r := (k * m) % k;
    assert k * m == k * q + r;
    assert k * (m - q) == r;
    if m - q >= 1 {
      MulLeLeft(k, 1, m - q);
    } else if m - q <= -1 {
      MulLeLeft(k, m - q, -1);
    }
  }

  /** A number with remainder 0 is k times its quotient. */
  lemma MultipleOfQuotient(k: int, n: int)
    requires k > 0 && n % k == 0
    ensures n == k * (n / k)
  {
  }

  lemma ModAddMultiple(k: int, m: int)
    requires k > 0 && m % k == 0
    ensures (m + k) % k == 0
  {
    MultipleOfQuotient(k, m);
    assert m + k == k * (m / k + 1);
    ModOfMultiple(k, m / k + 1);
  }

  /** Strictly between two consecutive multiples of k there is no multiple of k. */
  lemma NoMultipleBetween(k: int, m: int, v: int)
    requires k > 0 && m % k == 0 && m < v < m + k
    ensures v % k != 0
  {
    if v % k == 0 {
      MultipleOfQuotient(k, m);
      MultipleOfQuotient(k, v);
      MulLtCancel(k, m / k, v / k);
      assert k * (v / k) < k * (m / k + 1);
      MulLtCancel(k, v / k, m / k + 1);
    }
  }

  /** Quotient and remainder are determined by n == k*q + r with 0 <= r < k. */
  lemma DivUnique(n: int, k: int, q: int, r: int)
    requires k > 0 && 0 <= r < k && n == k * q + r
    ensures n / k == q && n % k == r
  {
    var q' := n / k;
    var r' := n % k;
    assert k * (q - q') == r' - r;
    if q - q' >= 1 {
      MulLeLeft(k, 1, q - q');
    } else if q - q' <= -1 {
      MulLeLeft(k, q - q', -1);
    }
  }

  /** Removing one divisor's worth from n lowers the quotient by one. */
  lemma DivStep(n: int, k: int)
    requires k > 0 && n >= k
    ensures n / k == (n - k) / k + 1
  {
    DivUnique(n, k, (n - k) / k + 1, (n - k) % k);
  }

  lemma DivSmall(n: int, k: int)
    requires 0 <= n < k
    ensures n / k == 0
  {
    DivUnique(n, k, 0, n);
  }
}

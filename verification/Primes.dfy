/** The mathematical reference: divisibility, primality, integer square root,
    and the ascending list of primes in a range. Both prime-finding algorithms
    are proved against the definitions here. */
module Primes {
  import opened Arith
  import opened Sequences

  predicate Divides(d: int, n: int) {
    d > 0 && n % d == 0
  }

  /** A prime is an integer of at least 2 with no divisor strictly between 1 and itself. */
  predicate IsPrime(n: int) {
    n >= 2 && forall d :: 2 <= d < n ==> !Divides(d, n)
  }

  /** The ascending list of the primes in [lo, hi]. */
  function PrimesIn(lo: int, hi: int): seq<int> {
    RangeFilter(lo, hi, IsPrime)
  }

  /** A sieve strikes v with p when v is a multiple of p no smaller than p*p. */
  predicate Struck(v: int, p: int) {
    v >= p * p && Divides(p, v)
  }

  /** Floor of the square root (the model of `(long) Math.sqrt(n)`). */
  function ISqrt(n: int): (r: nat)
    requires n >= 0
    ensures r * r <= n < (r + 1) * (r + 1)
  {
    if n == 0 then 0
    else
      var s := ISqrt(n - 1);
      if (s + 1) * (s + 1) <= n then s + 1 else s
  }

  /** The floor square root is the only r >= 0 with r*r <= n < (r+1)*(r+1). */
  lemma ISqrtUnique(n: int, r: int)
    requires n >= 0 && r >= 0 && r * r <= n < (r + 1) * (r + 1)
    ensures ISqrt(n) == r
  {
    var s := ISqrt(n);
    SquareLtCancel(s, r + 1);
    SquareLtCancel(r, s + 1);
  }

  lemma DivisorOfDivisor(k: int, d: int, n: int)
    requires k > 0 && Divides(d, n)
    ensures Divides(k, d) ==> Divides(k, n)
  {
    if Divides(k, d) {
      MultipleOfQuotient(k, d);
      MultipleOfQuotient(d, n);
      assert n == k * ((d / k) * (n / d)) by {
        assert n == (k * (d / k)) * (n / d);
      }
      ModOfMultiple(k, (d / k) * (n / d));
    }
  }

  /** The least divisor of n that is at least d. */
  ghost function LeastDivisorFrom(n: int, d: int): (r: int)
    requires 2 <= d <= n
    ensures d <= r <= n && Divides(r, n)
    ensures forall k :: d <= k < r ==> !Divides(k, n)
    decreases n - d
  {
    if Divides(d, n) then d else LeastDivisorFrom(n, d + 1)
  }

  /** Every composite n has a prime factor q with q*q <= n. */
  lemma SmallPrimeFactor(n: int)
    requires n >= 2 && !IsPrime(n)
    ensures exists q :: IsPrime(q) && Struck(n, q)
  {
    var d := LeastDivisorFrom(n, 2);
    forall k | 2 <= k < d
      ensures !Divides(k, d)
    {
      DivisorOfDivisor(k, d, n);
    }
    assert IsPrime(d);
    var e :| 2 <= e < n && Divides(e, n);
    assert d <= e;
    var k := n / d;
    MultipleOfQuotient(d, n);
    assert n == d * k;
    assert k >= 2 by {
      if k <= 1 {
        MulLeLeft(d, k, 1);
      }
    }
    assert Divides(k, n) by {
      assert n == k * d;
      ModOfMultiple(k, d);
    }
    assert d <= k;
    MulLeLeft(d, d, k);
    assert Struck(n, d);
  }

  /** A number struck by some p >= 2 is not prime. */
  lemma StruckIsComposite(v: int, p: int)
    requires p >= 2
    ensures Struck(v, p) ==> !IsPrime(v)
  {
    if Struck(v, p) {
      MulLtLeft(p, 1, p);
      assert 2 <= p < v && Divides(p, v);
    }
  }

  /** n >= 2 is prime exactly when no prime strikes it: trial division up to
      the square root by primes alone decides primality. */
  lemma PrimeIffNotStruck(n: int)
    requires n >= 2
    ensures IsPrime(n) <==> forall q :: IsPrime(q) ==> !Struck(n, q)
  {
    if IsPrime(n) {
      forall q | IsPrime(q)
        ensures !Struck(n, q)
      {
        StruckIsComposite(n, q);
      }
    } else {
      SmallPrimeFactor(n);
    }
  }

  /** Every prime q with q*q <= n lies in the primes up to the square root of n. */
  lemma PrimesUpToSqrtCover(n: int, q: int)
    requires n >= 0 && IsPrime(q) && q * q <= n
    ensures q in PrimesIn(2, ISqrt(n))
  {
    var r := ISqrt(n);
    SquareLtCancel(q, r + 1);
  }
}

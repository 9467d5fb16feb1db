/** Trial division (TrialChecker.java): `isPrime` and `calculatePrimes`. The
    worker's claim loop is in module Workers. */
module Trial {
  import opened Arith
  import opened Sequences
  import opened Primes

  lemma NoDivisorBeyondRoot(n: int, i: int)
    requires i >= 0 && i * i > n
    ensures forall d :: i <= d && Divides(d, n) ==> d * d > n
  {
    forall d | i <= d && Divides(d, n)
      ensures d * d > n
    {
      SquareLe(i, d);
    }
  }

  /** The trial-division loop from divisor i on: true when no d >= i with
      d*d <= n divides n. */
  function NoDivisorFrom(n: int, i: int): (r: bool)
    requires 2 <= i && 2 <= n
    ensures r <==> forall d :: i <= d && d * d <= n ==> !Divides(d, n)
    decreases n - i
  {
    if i * i > n then
      NoDivisorBeyondRoot(n, i);
      true
    else if Divides(i, n) then false
    else
      MulLtLeft(i, 1, i);
      NoDivisorFrom(n, i + 1)
  }

  /** Dividing by every d from 2 while d*d <= n decides primality. */
  lemma TrialDivisionDecides(n: int)
    requires n >= 2
    ensures IsPrime(n) <==> forall d :: 2 <= d && d * d <= n ==> !Divides(d, n)
  {
    PrimeIffNotStruck(n);
    forall d | 2 <= d && d * d <= n
      ensures IsPrime(n) ==> !Divides(d, n)
    {
      MulLtLeft(d, 1, d);
    }
  }

  /** `isPrime`: false below 2, otherwise trial division up to the square root. */
  function IsPrimeTrial(n: int): (r: bool)
    ensures r <==> IsPrime(n)
    ensures n < 2 ==> !r
  {
    if n < 2 then false
    else
      TrialDivisionDecides(n);
      NoDivisorFrom(n, 2)
  }

  /** `calculatePrimes`: the primes of [start, end], ascending; an empty
      list when end < 2 or start > end. */
  function CalculatePrimes(start: int, end: int): (r: seq<int>)
    ensures r == PrimesIn(start, end)
    ensures end < 2 || start > end ==> r == []
  {
    if end < 2 || start > end then
      EmptyIfNoMembers(PrimesIn(start, end));
      []
    else
      var lo := Max(2, start);
      RangeFilterCongruent(lo, end, IsPrimeTrial, IsPrime);
      if start < 2 then
        RangeFilterSplit(start, 1, end, IsPrime);
        EmptyIfNoMembers(PrimesIn(start, 1));
        RangeFilter(lo, end, IsPrimeTrial)
      else
        RangeFilter(lo, end, IsPrimeTrial)
  }
}

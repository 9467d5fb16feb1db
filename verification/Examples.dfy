/** Concrete cases from the repository's unit tests, as instances of the
    model's contracts. */
module Examples {
  import opened Sequences
  import opened Primes
  import opened Errors
  import Trial
  import Sieve
  import Runner

  /** The `ceilDiv` cases of the sieve test. */
  method CeilDivCases() returns (q1: int, q2: int, q3: int, q4: int, q5: int)
    ensures q1 == 4 && q2 == 3 && q3 == 0 && q4 == 1 && q5 == 4
  {
    q1 := Sieve.CeilDiv(10, 3);
    q2 := Sieve.CeilDiv(9, 3);
    q3 := Sieve.CeilDiv(0, 5);
    q4 := Sieve.CeilDiv(1, 1);
    q5 := Sieve.CeilDiv(7, 2);
  }

  /** The `isPrime` cases of the trial-division test (all but the largest
      prime, 999671, whose unfolding is too long to evaluate here). */
  lemma IsPrimeCases()
    ensures IsPrime(2) && IsPrime(3) && IsPrime(5) && IsPrime(7) && IsPrime(43)
    ensures !IsPrime(4) && !IsPrime(100) && !IsPrime(1200) && !IsPrime(1520)
    ensures !IsPrime(1) && !IsPrime(0) && !IsPrime(-7)
  {
    assert Trial.IsPrimeTrial(2) && Trial.IsPrimeTrial(3) && Trial.IsPrimeTrial(5);
    assert Trial.IsPrimeTrial(7) && Trial.IsPrimeTrial(43);
    assert Divides(2, 4) && Divides(2, 100) && Divides(2, 1200) && Divides(2, 1520);
  }

  /** Marking with p = 5 over [10, 30] clears 25 and 30 and keeps 10, 15
      and 20. */
  method MarkMultiplesCase() returns (segment: seq<bool>)
    ensures |segment| == 21
    ensures !segment[25 - 10] && !segment[30 - 10]
    ensures segment[10 - 10] && segment[15 - 10] && segment[20 - 10]
  {
    segment := Sieve.InitSegment(21);
    segment := Sieve.MarkMultiples(segment, 10, 30, 5);
    assert Divides(5, 25) && Divides(5, 30);
  }

  lemma PrimeStep(lo: int, hi: int)
    requires lo <= hi && IsPrime(hi)
    ensures PrimesIn(lo, hi) == PrimesIn(lo, hi - 1) + [hi]
  {
  }

  lemma CompositeStep(lo: int, hi: int, d: int)
    requires lo <= hi && 2 <= d < hi && Divides(d, hi)
    ensures PrimesIn(lo, hi) == PrimesIn(lo, hi - 1)
  {
  }

  lemma NoneBelow(lo: int)
    ensures PrimesIn(lo, lo - 1) == []
  {
  }

  /** The primes of [2, 5]. */
  lemma PrimesUpTo5()
    ensures PrimesIn(2, 5) == [2, 3, 5]
  {
    assert Trial.IsPrimeTrial(2) && Trial.IsPrimeTrial(3) && Trial.IsPrimeTrial(5);
    NoneBelow(2);
    PrimeStep(2, 2);
    PrimeStep(2, 3);
    CompositeStep(2, 4, 2);
    PrimeStep(2, 5);
  }

  /** The base primes for 30 are 2, 3 and 5. */
  method BasePrimesOf30() returns (basePrimes: seq<int>)
    ensures basePrimes == [2, 3, 5]
  {
    basePrimes := Sieve.ComputeBasePrimesUpToSqrt(30);
    ISqrtUnique(30, 5);
    PrimesUpTo5();
  }

  /** For 0, 1 and 3 the root is below 2, so there are no base primes. */
  method NoBasePrimes() returns (b0: seq<int>, b1: seq<int>, b3: seq<int>)
    ensures b0 == [] && b1 == [] && b3 == []
  {
    b0 := Sieve.ComputeBasePrimesUpToSqrt(0);
    b1 := Sieve.ComputeBasePrimesUpToSqrt(1);
    b3 := Sieve.ComputeBasePrimesUpToSqrt(3);
    ISqrtUnique(3, 1);
  }

  /** The primes of [20, 29]: 23 and 29. */
  lemma Primes20To29()
    ensures PrimesIn(20, 29) == [23, 29]
  {
    assert Trial.IsPrimeTrial(23) && Trial.IsPrimeTrial(29);
    NoneBelow(20);
    CompositeStep(20, 20, 2);
    CompositeStep(20, 21, 3);
    CompositeStep(20, 22, 2);
    PrimeStep(20, 23);
    CompositeStep(20, 24, 2);
    CompositeStep(20, 25, 5);
    CompositeStep(20, 26, 2);
    CompositeStep(20, 27, 3);
    CompositeStep(20, 28, 2);
    PrimeStep(20, 29);
  }

  /** The sieve reports primes only, for a segment of positive values. */
  lemma SieveKeepsPositive(lo: int, hi: int)
    requires lo >= 0
    ensures RangeFilter(lo, hi, Sieve.SieveKeeps) == PrimesIn(lo, hi)
  {
    RangeFilterCongruent(lo, hi, Sieve.SieveKeeps, IsPrime);
  }

  /** Marking [20, 29] with the base primes for 29, then collecting: 23
      and 29. */
  method SegmentFrom20() returns (primes: seq<int>)
    ensures primes == [23, 29]
  {
    var base := Sieve.ComputeBasePrimesUpToSqrt(29);
    Runner.BasePrimesCover(29);
    primes := Sieve.SieveSegment(20, 29, base);
    SieveKeepsPositive(20, 29);
    Primes20To29();
  }

  /** The rejected constructor arguments of the runner test, in either mode. */
  method InvalidRunnerArguments(useSieve: bool)
    returns (r1: Result<Runner.ConcurrentRunner>, r2: Result<Runner.ConcurrentRunner>,
             r3: Result<Runner.ConcurrentRunner>, r4: Result<Runner.ConcurrentRunner>)
    ensures r1 == Err(IllegalArgument("Count of threads must be at least 1."))
    ensures r2 == Err(IllegalArgument("Count of threads must be at least 1."))
    ensures r3 == Err(IllegalArgument("The highest number must be at least 1."))
    ensures r4 == Err(IllegalArgument("Count of threads must be at least 1."))
  {
    r1 := Runner.NewRunner(-5, 1, useSieve, 0);
    r2 := Runner.NewRunner(0, 1, useSieve, 0);
    r3 := Runner.NewRunner(1, -1, useSieve, 0);
    r4 := Runner.NewRunner(0, 0, useSieve, 0);
  }

  /** The accepted constructor arguments of the runner test, in either mode,
      including more threads than numbers: both are echoed back. */
  method ValidRunnerArguments(useSieve: bool) returns (threads: seq<int>, bounds: seq<int>)
    ensures threads == [1, 1, 10, 10, 3] && bounds == [1, 2, 1, 10, 10]
  {
    var a := Runner.NewRunner(1, 1, useSieve, 0);
    var b := Runner.NewRunner(1, 2, useSieve, 0);
    var c := Runner.NewRunner(10, 1, useSieve, 0);
    var d := Runner.NewRunner(10, 10, useSieve, 0);
    var e := Runner.NewRunner(3, 10, useSieve, 0);
    threads := [a.value.nThreads, b.value.nThreads, c.value.nThreads, d.value.nThreads, e.value.nThreads];
    bounds := [a.value.upperBound, b.value.upperBound, c.value.upperBound, d.value.upperBound, e.value.upperBound];
  }

  /** The duration checks of the runner test (one thread, upper bound 3,
      sieve mode): unavailable before the run, and not negative after it
      when the clock did not go backwards. */
  method DurationCases(schedule: seq<nat>, startNs: int, endNs: int)
    returns (before: Result<int>, after: Result<int>)
    requires 0 < startNs <= endNs
    ensures before == Err(IllegalState("Time measurements are not available yet"))
    ensures after.Ok? && after.value >= 0
  {
    var runner := Runner.NewRunner(1, 3, true, 0);
    before := Runner.TotalDurationMs(runner.value);
    var done := Runner.Run(runner.value, schedule, startNs, endNs);
    after := Runner.TotalDurationMs(done);
  }
}

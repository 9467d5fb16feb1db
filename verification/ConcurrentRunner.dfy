/** The run orchestration (ConcurrentRunner.java): argument checks, the
    dynamic block size, the optional base-prime precomputation, the run over
    all threads followed by the ascending sort, the unused de-duplication,
    and the duration report.

    The clock is not modelled: the constructor receives the elapsed time of
    the base-prime precomputation, and `Run` receives the two clock readings
    it takes, as parameters. The thread interleaving is a parameter of `Run`
    too, so its contract holds for every interleaving. */
module Runner {
  import opened Arith
  import opened Sequences
  import opened Primes
  import opened Errors
  import opened Checker
  import opened Workers
  import Sieve

  /** `Integer.MAX_VALUE`, the cap of the block size. */
  const IntMax: int := 2147483647

  /** The least block size. */
  const MinBlockSize: int := 10000

  /** The first value the shared cursor hands out. */
  const FirstCandidate: int := 2

  /** The state of a runner object. `job` stands for the worker objects the
      constructor creates, which all share the same parameters. */
  datatype ConcurrentRunner = ConcurrentRunner(
    nThreads: int,
    upperBound: int,
    useSieve: bool,
    blockSize: int,
    basePrimes: seq<int>,
    durationInitialization: int,
    job: Job,
    primes: seq<int>,
    timeStartNs: int,
    timeEndNs: int)

  /** The block size: the floor of the square root of the upper bound,
      raised to at least 10000 and capped at `Integer.MAX_VALUE`. */
  function DynamicBlockSize(upperBound: int): (bs: int)
    requires upperBound >= 0
    ensures MinBlockSize <= bs <= IntMax
    ensures bs == MinBlockSize || bs * bs <= upperBound
    ensures bs == IntMax || upperBound < (bs + 1) * (bs + 1)
  {
    var root := ISqrt(upperBound);
    if root < MinBlockSize then
      SquareLe(root + 1, MinBlockSize + 1);
      MinBlockSize
    else if root > IntMax then
      SquareLe(IntMax, root);
      IntMax
    else
      root
  }

  /** A runner as the constructor leaves it, for valid arguments. */
  ghost predicate Constructed(r: ConcurrentRunner) {
    && r.nThreads >= 1
    && r.upperBound >= 1
    && r.blockSize == DynamicBlockSize(r.upperBound)
    && r.basePrimes == (if r.useSieve then PrimesIn(2, ISqrt(r.upperBound)) else [])
    && r.job == Job(PrimeChecker(r.upperBound, r.blockSize),
                    if r.useSieve then SegmentedSieve(r.basePrimes) else TrialDivision)
    && r.primes == []
    && r.timeStartNs == 0 && r.timeEndNs == 0
  }

  /** What `run` relies on: at least one thread, workers built on the upper
      bound with a positive block size, an empty result list (the workers
      append to it), and in sieve mode base primes that cover the upper
      bound. Every constructed runner is one. */
  ghost predicate Runnable(r: ConcurrentRunner) {
    && r.nThreads >= 1
    && r.blockSize >= 1
    && r.primes == []
    && r.job == Job(PrimeChecker(r.upperBound, r.blockSize),
                    if r.useSieve then SegmentedSieve(r.basePrimes) else TrialDivision)
    && (r.useSieve ==> Sieve.CoversUpTo(r.basePrimes, r.upperBound))
  }

  /** The constructor: rejects fewer than one thread, then a non-positive
      upper bound; otherwise stores the arguments, precomputes the base
      primes in sieve mode (recording its duration), and creates the
      workers. */
  method NewRunner(nThreads: int, upperBound: int, useSieve: bool, initElapsedNs: int)
    returns (r: Result<ConcurrentRunner>)
    ensures r.Err? <==> nThreads < 1 || upperBound <= 0
    ensures nThreads < 1 ==> r == Err(IllegalArgument("Count of threads must be at least 1."))
    ensures nThreads >= 1 && upperBound <= 0 ==>
              r == Err(IllegalArgument("The highest number must be at least 1."))
    ensures r.Ok? ==> Constructed(r.value) && Runnable(r.value)
    ensures r.Ok? ==> r.value.nThreads == nThreads && r.value.upperBound == upperBound
                      && r.value.useSieve == useSieve
    ensures r.Ok? ==> r.value.durationInitialization == (if useSieve then initElapsedNs else 0)
  {
    if nThreads < 1 {
      return Err(IllegalArgument("Count of threads must be at least 1."));
    }
    if upperBound <= 0 {
      return Err(IllegalArgument("The highest number must be at least 1."));
    }
    var blockSize := DynamicBlockSize(upperBound);
    var basePrimes: seq<int> := [];
    var durationInitialization := 0;
    if useSieve {
      basePrimes := Sieve.ComputeBasePrimesUpToSqrt(upperBound);
      durationInitialization := initElapsedNs;
    }
    var job: Job;
    if useSieve {
      BasePrimesCover(upperBound);
      var worker := Sieve.NewSieveWorker(upperBound, blockSize, Some(basePrimes));
      job := Job(worker.value.checker, SegmentedSieve(worker.value.basePrimes));
    } else {
      job := Job(NewPrimeChecker(upperBound, blockSize), TrialDivision);
    }
    return Ok(ConcurrentRunner(nThreads, upperBound, useSieve, blockSize, basePrimes,
                               durationInitialization, job, [], 0, 0));
  }

  /** The base primes up to the square root of the upper bound cover the
      whole range [2, upperBound]. */
  lemma BasePrimesCover(upperBound: int)
    requires upperBound >= 0
    ensures Sieve.CoversUpTo(PrimesIn(2, ISqrt(upperBound)), upperBound)
  {
    var bp := PrimesIn(2, ISqrt(upperBound));
    RangeFilterAscending(2, ISqrt(upperBound), IsPrime);
    forall k | 0 <= k < |bp|
      ensures bp[k] >= 2
    {
      assert bp[k] in bp;
    }
    forall q | IsPrime(q) && q * q <= upperBound
      ensures q in bp
    {
      PrimesUpToSqrtCover(upperBound, q);
    }
  }

  /** Both algorithms report exactly the primes on [2, upperBound]. */
  lemma ReportedArePrimes(algo: Algorithm, upperBound: int)
    ensures RangeFilter(FirstCandidate, upperBound, KeepOf(algo)) == PrimesIn(2, upperBound)
  {
    RangeFilterCongruent(FirstCandidate, upperBound, KeepOf(algo), IsPrime);
  }

  lemma SortedCons(h: int, t: seq<int>)
    requires Sorted(t) && (|t| > 0 ==> h <= t[0])
    ensures Sorted([h] + t)
  {
  }

  /** Insert x into an ascending sequence. */
  function Insert(x: int, s: seq<int>): (r: seq<int>)
    requires Sorted(s)
    ensures Sorted(r)
    ensures multiset(r) == multiset(s) + multiset{x}
    ensures |r| == |s| + 1
    ensures r[0] == if |s| > 0 && s[0] < x then s[0] else x
  {
    if |s| == 0 then [x]
    else if x <= s[0] then
      SortedCons(x, s);
      [x] + s
    else
      var t := s[1..];
      var rest := Insert(x, t);
      assert multiset(s) == multiset{s[0]} + multiset(t) by {
        assert s == [s[0]] + t;
      }
      SortedCons(s[0], rest);
      [s[0]] + rest
  }

  /** `sortPrimesAsc`: the same values in ascending order. */
  function SortPrimesAsc(s: seq<int>): (r: seq<int>)
    ensures Sorted(r)
    ensures multiset(r) == multiset(s)
  {
    if |s| == 0 then []
    else
      assert s == s[..|s| - 1] + [s[|s| - 1]];
      Insert(s[|s| - 1], SortPrimesAsc(s[..|s| - 1]))
  }

  /** `run`: starts every thread, joins them, records both clock readings
      and sorts. For every interleaving of the threads, and for either
      algorithm, the result is the ascending list of all primes up to the
      upper bound. */
  method Run(runner: ConcurrentRunner, schedule: seq<nat>, startNs: int, endNs: int)
    returns (r: ConcurrentRunner)
    requires Runnable(runner)
    ensures r.primes == PrimesIn(2, runner.upperBound)
    ensures r == runner.(primes := r.primes, timeStartNs := startNs, timeEndNs := endNs)
  {
    var pool := RunThreads(runner.job, FirstCandidate, runner.nThreads, schedule);
    var sorted := SortPrimesAsc(pool.shared);
    ReportedArePrimes(runner.job.algo, runner.upperBound);
    RangeFilterAscending(2, runner.upperBound, IsPrime);
    SortedPermutationUnique(sorted, PrimesIn(2, runner.upperBound));
    r := runner.(primes := sorted, timeStartNs := startNs, timeEndNs := endNs);
  }

  /** The position of the first occurrence of x in s. */
  function FirstIndex(s: seq<int>, x: int): (k: nat)
    requires x in s
    ensures k < |s| && s[k] == x
    ensures forall j :: 0 <= j < k ==> s[j] != x
  {
    if s[0] == x then 0 else 1 + FirstIndex(s[1..], x)
  }

  /** Extending s at the end does not move the first occurrence of a value
      already in s. */
  lemma FirstIndexOfPrefix(s: seq<int>, n: nat, x: int)
    requires n <= |s| && x in s[..n]
    ensures x in s && FirstIndex(s, x) == FirstIndex(s[..n], x)
  {
    var a, b := FirstIndex(s, x), FirstIndex(s[..n], x);
    assert s[b] == x;
  }

  /** The values of r occur in s, and in r they come in the order of their
      first occurrences in s. */
  predicate InFirstOccurrenceOrder(s: seq<int>, r: seq<int>) {
    forall i, j :: 0 <= i < j < |r| ==>
      r[i] in s && r[j] in s && FirstIndex(s, r[i]) < FirstIndex(s, r[j])
  }

  /** Values first occurring in the front s[..n] keep their first positions
      in s, all of them below n. */
  lemma FirstOccurrenceOrderOfPrefix(s: seq<int>, n: nat, r: seq<int>)
    requires n <= |s| && forall y :: y in r ==> y in s[..n]
    requires InFirstOccurrenceOrder(s[..n], r)
    ensures InFirstOccurrenceOrder(s, r)
    ensures forall y :: y in r ==> y in s && FirstIndex(s, y) < n
  {
    forall y | y in r
      ensures y in s && FirstIndex(s, y) == FirstIndex(s[..n], y) < n
    {
      FirstIndexOfPrefix(s, n, y);
    }
    forall i, j | 0 <= i < j < |r|
      ensures r[i] in s && r[j] in s && FirstIndex(s, r[i]) < FirstIndex(s, r[j])
    {
      assert r[i] in r && r[j] in r;
    }
  }

  /** Appending a value that first occurs after every value of r keeps the
      order. */
  lemma FirstOccurrenceOrderAppend(s: seq<int>, r: seq<int>, x: int)
    requires InFirstOccurrenceOrder(s, r) && x in s
    requires forall y :: y in r ==> y in s && FirstIndex(s, y) < FirstIndex(s, x)
    ensures InFirstOccurrenceOrder(s, r + [x])
  {
    var r' := r + [x];
    forall i, j | 0 <= i < j < |r'|
      ensures r'[i] in s && r'[j] in s && FirstIndex(s, r'[i]) < FirstIndex(s, r'[j])
    {
      assert r'[i] == r[i] && r[i] in r;
      if j < |r| {
        assert r'[j] == r[j];
      }
    }
  }

  /** The first occurrences of the values of s, in the order they occur: the
      reference for `stream().distinct()`, which keeps the first of equal
      values and the order of the stream. */
  function Distinct(s: seq<int>): (r: seq<int>)
    ensures NoDuplicates(r)
    ensures forall x :: x in r <==> x in s
    ensures InFirstOccurrenceOrder(s, r)
    ensures |r| <= |s|
  {
    if |s| == 0 then []
    else
      var n := |s| - 1;
      var front := Distinct(s[..n]);
      var x := s[n];
      SplitLast(s);
      assert forall y :: y in s <==> y in s[..n] || y == x;
      FirstOccurrenceOrderOfPrefix(s, n, front);
      if x in front then front
      else
        assert FirstIndex(s, x) == n;
        FirstOccurrenceOrderAppend(s, front, x);
        front + [x]
  }

  /** On a sequence without repeated values, de-duplication changes nothing. */
  lemma {:induction false} DistinctOfNoDuplicates(s: seq<int>)
    requires NoDuplicates(s)
    ensures Distinct(s) == s
  {
    if |s| > 0 {
      var front, x := s[..|s| - 1], s[|s| - 1];
      assert NoDuplicates(front);
      DistinctOfNoDuplicates(front);
      assert x !in front;
      SplitLast(s);
    }
  }

  /** `removeDuplicates`: keeps the first occurrence of each value, tracking
      the values seen in a set. */
  method RemoveDuplicates(s: seq<int>) returns (r: seq<int>)
    ensures r == Distinct(s)
    ensures NoDuplicates(r) && forall x :: x in r <==> x in s
    ensures NoDuplicates(s) ==> r == s
  {
    var seen: set<int> := {};
    r := [];
    var i := 0;
    while i < |s|
      invariant 0 <= i <= |s|
      invariant r == Distinct(s[..i])
      invariant forall x :: x in seen <==> x in r
    {
      assert s[..i + 1][..i] == s[..i];
      if s[i] !in seen {
        r := r + [s[i]];
        seen := seen + {s[i]};
      }
      i := i + 1;
    }
    assert s[..|s|] == s;
    if NoDuplicates(s) {
      DistinctOfNoDuplicates(s);
    }
  }

  /** After the joins, the unsorted shared list (each reported value of the
      run's range exactly once, as `Workers.RunThreads` ensures) has no
      repeated value, so the de-duplication before the sort would be a
      no-op. */
  lemma RunHasNoDuplicates(job: Job, c0: int, shared: seq<int>)
    requires multiset(shared) == multiset(RangeFilter(c0, job.checker.maxNumber, KeepOf(job.algo)))
    ensures NoDuplicates(shared)
    ensures Distinct(shared) == shared
  {
    var expected := RangeFilter(c0, job.checker.maxNumber, KeepOf(job.algo));
    RangeFilterAscending(c0, job.checker.maxNumber, KeepOf(job.algo));
    StrictlyAscendingHasNoDuplicates(expected);
    NoDuplicatesOfSameMultiset(shared, expected);
    DistinctOfNoDuplicates(shared);
  }

  /** `getTotalDurationMS`: fails before any measurement (both readings 0) or
      on a negative total; otherwise the total of run time and
      initialization time, truncated to whole milliseconds. */
  function TotalDurationMs(r: ConcurrentRunner): (ms: Result<int>)
    ensures r.timeStartNs == 0 && r.timeEndNs == 0 ==>
              ms == Err(IllegalState("Time measurements are not available yet"))
    ensures !(r.timeStartNs == 0 && r.timeEndNs == 0)
            && r.timeEndNs - r.timeStartNs + r.durationInitialization < 0 ==>
              ms == Err(IllegalState("Invalid duration."))
    ensures ms.Ok? <==> !(r.timeStartNs == 0 && r.timeEndNs == 0)
                        && r.timeEndNs - r.timeStartNs + r.durationInitialization >= 0
    ensures ms.Ok? ==>
              var d := r.timeEndNs - r.timeStartNs + r.durationInitialization;
              0 <= ms.value && ms.value * 1000000 <= d < (ms.value + 1) * 1000000
  {
    if r.timeStartNs == 0 && r.timeEndNs == 0 then
      Err(IllegalState("Time measurements are not available yet"))
    else
      var duration := r.timeEndNs - r.timeStartNs + r.durationInitialization;
      if duration < 0 then Err(IllegalState("Invalid duration."))
      else Ok(duration / 1000 / 1000)
  }
}

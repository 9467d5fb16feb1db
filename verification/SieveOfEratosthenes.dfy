/** The segmented Sieve of Eratosthenes (SieveOfEratosthenes.java): the base
    primes up to the square root, and the marking of one segment [start, end]
    against them. A segment is the Java `boolean[]` as a sequence of cells;
    each marking step returns the updated segment. The worker's claim loop is
    in module Workers. */
module Sieve {
  import opened Arith
  import opened Sequences
  import opened Primes
  import opened Errors
  import Checker

  /** Java's `/` on long: truncates toward zero. */
  function JavaDiv(a: int, b: int): int
    requires b > 0
  {
    if a >= 0 then a / b else -((-a) / b)
  }

  /** Java's `%` on long: takes the sign of the dividend. */
  function JavaRem(a: int, b: int): int
    requires b > 0
  {
    a - b * JavaDiv(a, b)
  }

  /** `ceilDiv`: for a >= 0 the least q with q*b >= a. For a negative a whose
      division is inexact the truncating operators return one more than that
      least q, so in general q*b >= a and (q-2)*b < a. */
  function CeilDiv(a: int, b: int): (q: int)
    requires b > 0
    ensures q * b >= a
    ensures a >= 0 ==> q >= 0 && (q - 1) * b < a
    ensures (q - 2) * b < a
  {
    var t := JavaDiv(a, b);
    if a >= 0 then
      assert a == b * t + a % b;
      if JavaRem(a, b) == 0 then t else t + 1
    else
      var n := -a;
      assert n == b * (n / b) + n % b;
      assert JavaRem(a, b) == -(n % b);
      if JavaRem(a, b) == 0 then t else t + 1
  }

  /** For a >= 0, `ceilDiv` is the least q with q*b >= a. */
  lemma CeilDivIsLeast(a: int, b: int, q: int)
    requires a >= 0 && b > 0 && q * b >= a
    ensures CeilDiv(a, b) <= q
  {
    var c := CeilDiv(a, b);
    if q < c {
      MulLeLeft(b, q, c - 1);
    }
  }

  /** `initSegment`: a segment of `len` cells, every cell a candidate. */
  function InitSegment(len: nat): (segment: seq<bool>)
    ensures |segment| == len
    ensures forall i :: 0 <= i < len ==> segment[i]
  {
    seq(len, i => true)
  }

  /** The first multiple `max(p*p, ceilDiv(start, p) * p)` is the least number
      at or above start that p strikes. */
  lemma FirstMultipleIsLeast(start: int, p: int, v: int)
    requires p >= 1
    ensures Max(p * p, CeilDiv(start, p) * p) >= start
    ensures Struck(Max(p * p, CeilDiv(start, p) * p), p)
    ensures Struck(v, p) && v >= start ==> v >= Max(p * p, CeilDiv(start, p) * p)
  {
    var c := CeilDiv(start, p);
    MulLeLeft(p, 1, p);
    ModOfMultiple(p, p);
    ModOfMultiple(p, c);
    assert c * p == p * c;
    if Struck(v, p) && v >= start {
      MultipleOfQuotient(p, v);
      var t := v / p;
      if start >= 0 {
        assert p * (c - 1) < p * t;
        MulLtCancel(p, c - 1, t);
        MulLeLeft(p, c, t);
      } else {
        assert (c - 2) * p < 0;
        MulLtCancel(p, c - 2, 0);
        MulLeLeft(p, c, 1);
      }
    }
  }

  /** `markMultiples`: clears exactly the cells whose value p strikes (a
      multiple of p that is at least p*p); every other cell keeps its value. */
  method MarkMultiples(segment: seq<bool>, start: int, end: int, p: int) returns (r: seq<bool>)
    requires p >= 1
    requires |segment| == end - start + 1
    ensures |r| == |segment|
    ensures forall i :: 0 <= i < |r| ==> r[i] == (segment[i] && !Struck(start + i, p))
    ensures p >= 2 && start <= p <= end ==> r[p - start] == segment[p - start]
  {
    if p >= 2 {
      MulLtLeft(p, 1, p);
    }
    var firstMultiple := Max(p * p, CeilDiv(start, p) * p);
    forall v | start <= v <= end
      ensures Struck(v, p) ==> v >= firstMultiple
    {
      FirstMultipleIsLeast(start, p, v);
    }
    r := segment;
    if firstMultiple > end {
      return;
    }
    FirstMultipleIsLeast(start, p, start);
    var m := firstMultiple;
    while m <= end
      invariant firstMultiple <= m <= end + p
      invariant m % p == 0
      invariant |r| == |segment|
      invariant forall i :: 0 <= i < |r| ==>
                  r[i] == (segment[i] && !(Struck(start + i, p) && start + i < m))
      decreases end - m
    {
      forall v | m < v < m + p
        ensures !Divides(p, v)
      {
        NoMultipleBetween(p, m, v);
      }
      r := r[m - start := false];
      ModAddMultiple(p, m);
      m := m + p;
    }
  }

  /** How many leading base primes the marking loop visits: it stops at the
      first one above end. */
  function ActiveCount(basePrimes: seq<int>, end: int): (n: nat)
    ensures n <= |basePrimes|
    ensures forall k :: 0 <= k < n ==> basePrimes[k] <= end
    ensures n < |basePrimes| ==> basePrimes[n] > end
  {
    if |basePrimes| == 0 || basePrimes[0] > end then 0
    else 1 + ActiveCount(basePrimes[1..], end)
  }

  /** A cell of value v survives the marking of segment [.., end]: v is
      neither 0 nor 1 and no visited base prime strikes it. */
  predicate Unmarked(v: int, basePrimes: seq<int>, end: int) {
    v != 0 && v != 1 &&
    forall k :: 0 <= k < ActiveCount(basePrimes, end) ==> !Struck(v, basePrimes[k])
  }

  /** `markSegmentWithBasePrimes`: each cell ends up true exactly when it was
      true and its value is unmarked by the visited base primes, with 0 and 1
      cleared explicitly. */
  method MarkSegmentWithBasePrimes(segment: seq<bool>, start: int, end: int, basePrimes: seq<int>)
    returns (r: seq<bool>)
    requires |segment| == end - start + 1
    requires forall k :: 0 <= k < |basePrimes| ==> basePrimes[k] >= 1
    ensures |r| == |segment|
    ensures forall i :: 0 <= i < |r| ==> r[i] == (segment[i] && Unmarked(start + i, basePrimes, end))
  {
    r := segment;
    var k := 0;
    while k < |basePrimes|
      invariant 0 <= k <= ActiveCount(basePrimes, end)
      invariant |r| == |segment|
      invariant forall i :: 0 <= i < |r| ==>
                  r[i] == (segment[i] && forall j :: 0 <= j < k ==> !Struck(start + i, basePrimes[j]))
    {
      var p := basePrimes[k];
      if p > end {
        break;
      }
      r := MarkMultiples(r, start, end, p);
      k := k + 1;
    }
    assert k == ActiveCount(basePrimes, end);
    if start <= 1 {
      var zeroIdx := 0 - start;
      var oneIdx := 1 - start;
      if 0 <= zeroIdx < |r| {
        r := r[zeroIdx := false];
      }
      if 0 <= oneIdx < |r| {
        r := r[oneIdx := false];
      }
    }
  }

  /** `collectPrimesFromSegment`: start + i for exactly the true cells i, in
      ascending order. The segment is a value and so stays unmodified. */
  method CollectPrimesFromSegment(segment: seq<bool>, start: int) returns (primes: seq<int>)
    ensures StrictlyAscending(primes)
    ensures forall x :: x in primes <==> start <= x < start + |segment| && segment[x - start]
    ensures |primes| <= |segment|
  {
    primes := [];
    var i := 0;
    while i < |segment|
      invariant 0 <= i <= |segment|
      invariant StrictlyAscending(primes) && |primes| <= i
      invariant forall x :: x in primes <==> start <= x < start + i && segment[x - start]
    {
      if segment[i] {
        forall j | 0 <= j < |primes|
          ensures primes[j] < start + i
        {
          assert primes[j] in primes;
        }
        primes := primes + [start + i];
      }
      i := i + 1;
    }
  }

  /** What the sieve reports for a value: primes, and also every negative
      value, since marking never touches cells below 0. */
  predicate SieveKeeps(v: int) {
    v < 0 || IsPrime(v)
  }

  /** The base primes a segment ending at `bound` needs: ascending, each at
      least 2, and every prime whose square is at most `bound` among them. */
  ghost predicate CoversUpTo(basePrimes: seq<int>, bound: int) {
    && Sorted(basePrimes)
    && (forall k :: 0 <= k < |basePrimes| ==> basePrimes[k] >= 2)
    && (forall q :: IsPrime(q) && q * q <= bound ==> q in basePrimes)
  }

  lemma ActiveIncludesSmall(basePrimes: seq<int>, end: int, j: int)
    requires Sorted(basePrimes) && 0 <= j < |basePrimes| && basePrimes[j] <= end
    ensures j < ActiveCount(basePrimes, end)
  {
  }

  /** With covering base primes, a cell survives exactly when its value is
      prime or negative; so stopping at the first base prime above end loses
      nothing. */
  lemma UnmarkedIffSieveKeeps(v: int, basePrimes: seq<int>, end: int)
    requires CoversUpTo(basePrimes, end) && v <= end
    ensures Unmarked(v, basePrimes, end) <==> SieveKeeps(v)
  {
    var n := ActiveCount(basePrimes, end);
    if v < 0 {
      forall k | 0 <= k < n
        ensures !Struck(v, basePrimes[k])
      {
        MulLeLeft(basePrimes[k], 0, basePrimes[k]);
      }
    } else if v >= 2 {
      PrimeIffNotStruck(v);
      if IsPrime(v) {
        forall k | 0 <= k < n
          ensures !Struck(v, basePrimes[k])
        {
          StruckIsComposite(v, basePrimes[k]);
        }
      } else {
        var q :| IsPrime(q) && Struck(v, q);
        assert q in basePrimes;
        var j :| 0 <= j < |basePrimes| && basePrimes[j] == q;
        MulLeLeft(q, 1, q);
        ActiveIncludesSmall(basePrimes, end, j);
      }
    }
  }

  /** One segment as the worker processes it: allocate, mark, collect. With
      covering base primes the result is the ascending list of the primes
      (and negative values) of [start, end]. */
  method SieveSegment(start: int, end: int, basePrimes: seq<int>) returns (primes: seq<int>)
    requires start <= end
    requires forall k :: 0 <= k < |basePrimes| ==> basePrimes[k] >= 1
    ensures StrictlyAscending(primes)
    ensures forall x :: x in primes <==> start <= x <= end && Unmarked(x, basePrimes, end)
    ensures CoversUpTo(basePrimes, end) ==> primes == RangeFilter(start, end, SieveKeeps)
  {
    var segment := InitSegment(end - start + 1);
    segment := MarkSegmentWithBasePrimes(segment, start, end, basePrimes);
    primes := CollectPrimesFromSegment(segment, start);
    if CoversUpTo(basePrimes, end) {
      forall x | start <= x <= end
        ensures x in primes <==> SieveKeeps(x)
      {
        UnmarkedIffSieveKeeps(x, basePrimes, end);
      }
      RangeFilterAscending(start, end, SieveKeeps);
      AscendingUnique(primes, RangeFilter(start, end, SieveKeeps));
    }
  }

  /** Cells of [0, limit] that no prime below p strikes (the state of the
      plain sieve before it handles p). */
  ghost predicate SurvivesBelow(v: int, p: int) {
    v >= 2 && forall q :: 2 <= q < p && IsPrime(q) ==> !Struck(v, q)
  }

  /** Once p*p exceeds v, surviving every prime below p is being prime. */
  lemma SurvivesBelowBeyondRoot(v: int, p: int)
    requires p >= 2 && v < p * p
    ensures SurvivesBelow(v, p) <==> IsPrime(v)
  {
    if v >= 2 {
      PrimeIffNotStruck(v);
      forall q | IsPrime(q) && Struck(v, q)
        ensures q < p
      {
        SquareLtCancel(q, p);
      }
    }
  }

  lemma SurvivesBelowNext(v: int, p: int)
    ensures SurvivesBelow(v, p + 1) <==> SurvivesBelow(v, p) && !(p >= 2 && IsPrime(p) && Struck(v, p))
  {
  }

  /** The inner loop of `computeBasePrimesUpToSqrt` for one prime p: clears
      p*p, p*p + p, ... up to limit, which are exactly the cells p strikes. */
  method CrossOffMultiples(isPrime: seq<bool>, p: int) returns (r: seq<bool>)
    requires p >= 2
    ensures |r| == |isPrime|
    ensures forall v :: 0 <= v < |r| ==> r[v] == (isPrime[v] && !Struck(v, p))
  {
    r := isPrime;
    var limit := |isPrime| - 1;
    var m := p * p;
    ModOfMultiple(p, p);
    MulLeLeft(p, 0, p);
    while m <= limit
      invariant p * p <= m
      invariant m % p == 0
      invariant |r| == |isPrime|
      invariant forall v :: 0 <= v < |r| ==> r[v] == (isPrime[v] && !(Struck(v, p) && v < m))
      decreases limit - m
    {
      forall v | m < v < m + p
        ensures !Divides(p, v)
      {
        NoMultipleBetween(p, m, v);
      }
      r := r[m := false];
      ModAddMultiple(p, m);
      m := m + p;
    }
  }

  /** The marking phase of `computeBasePrimesUpToSqrt`: the flags over
      [0, limit] after every p with p*p <= limit has crossed off its
      multiples, which flag exactly the primes. */
  method PlainSieveFlags(limit: int) returns (isPrime: seq<bool>)
    requires limit >= 2
    ensures |isPrime| == limit + 1
    ensures forall v :: 0 <= v <= limit ==> (isPrime[v] <==> IsPrime(v))
  {
    isPrime := seq(limit + 1, _ => true)[0 := false][1 := false];
    var p := 2;
    while p * p <= limit
      invariant p >= 2
      invariant |isPrime| == limit + 1
      invariant forall v :: 0 <= v <= limit ==> (isPrime[v] <==> SurvivesBelow(v, p))
    {
      MulLeLeft(p, 1, p);
      MulLtLeft(p, 1, p);
      SurvivesBelowBeyondRoot(p, p);
      if isPrime[p] {
        isPrime := CrossOffMultiples(isPrime, p);
      }
      forall v | 0 <= v <= limit
        ensures isPrime[v] <==> SurvivesBelow(v, p + 1)
      {
        SurvivesBelowNext(v, p);
      }
      p := p + 1;
    }
    forall v | 0 <= v <= limit
      ensures isPrime[v] <==> IsPrime(v)
    {
      SurvivesBelowBeyondRoot(v, p);
    }
  }

  /** `computeBasePrimesUpToSqrt`: the plain sieve over [0, floor(sqrt(n))],
      giving the ascending primes up to the square root (none when that root
      is below 2). */
  method ComputeBasePrimesUpToSqrt(upperBound: int) returns (basePrimes: seq<int>)
    ensures basePrimes == PrimesIn(2, ISqrt(Max(upperBound, 0)))
  {
    var limit := ISqrt(Max(upperBound, 0));
    if limit < 2 {
      return [];
    }
    var isPrime := PlainSieveFlags(limit);
    basePrimes := [];
    var v := 2;
    while v <= limit
      invariant 2 <= v <= limit + 1
      invariant basePrimes == PrimesIn(2, v - 1)
    {
      if isPrime[v] {
        basePrimes := basePrimes + [v];
      }
      v := v + 1;
    }
  }

  /** A segmented-sieve worker: the shared contract plus its base primes. */
  datatype SieveWorker = SieveWorker(checker: Checker.PrimeChecker, basePrimes: seq<int>)

  /** The constructor: fails on a missing base-prime list, otherwise stores it. */
  function NewSieveWorker(maxNumber: int, blockSize: int, basePrimes: Option<seq<int>>)
    : (r: Result<SieveWorker>)
    ensures r.Err? <==> basePrimes.None?
    ensures r.Err? ==> r.error.IllegalArgument?
    ensures r.Ok? ==> r.value.basePrimes == basePrimes.value
                      && r.value.checker == Checker.NewPrimeChecker(maxNumber, blockSize)
  {
    var checker := Checker.NewPrimeChecker(maxNumber, blockSize);
    match basePrimes
    case None => Err(IllegalArgument("The base primes must not be null for segmented sieve."))
    case Some(ps) => Ok(SieveWorker(checker, ps))
  }
}

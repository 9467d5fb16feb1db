# Multithreaded prime number checker — a Dafny model

This project models the core of a Java program that finds every prime up to an
upper bound. Worker threads share a cursor (`nextStart`, an `AtomicLong`) and a
result list. Each worker repeatedly claims the next block of `blockSize`
numbers and reports the primes in it. There are two kinds of worker:

- **Trial division** (`TrialChecker`): `isPrime` divides by every d with d*d ≤ n.
  `calculatePrimes` filters a range. The worker collects primes in a private
  buffer and flushes it to the shared list once, after its last claim.
- **Segmented Sieve of Eratosthenes** (`SieveOfEratosthenes`):
  `computeBasePrimesUpToSqrt` runs a plain sieve to find the base primes up to
  ⌊√n⌋. Per segment, `initSegment`, `markSegmentWithBasePrimes`/`markMultiples`
  and `collectPrimesFromSegment` turn a block into its primes. The worker
  appends each segment's primes to the shared list right away.

`PrimeChecker` holds what both workers share: the bound, the clamped block size
and the claim on the cursor. `ConcurrentRunner` checks its arguments, derives
the block size, optionally precomputes the base primes, runs and joins the
threads, and sorts the result. It also has an unused de-duplication and a
duration report.

The model covers:

- **Reference definitions.** `Primes` defines divisibility, primality, the floor
  square root and `PrimesIn(lo, hi)`. `Sequences.RangeFilter(lo, hi, keep)` is
  the ascending filtered range that every prime list is compared against.
- **Sieve and trial division.** Both algorithms are proved against these
  definitions: a sieve cell survives exactly when its value is prime, and
  `calculatePrimes` is exactly `PrimesIn`.
- **Concurrency.** The threads are modelled as a `Pool`: the cursor, the shared
  list, and each thread's buffer and finished flag. One pass of a worker's loop
  body is one atomic step (`Workers.Step`). A run is any interleaving of steps
  (a schedule of thread indices), then each thread runs to its end (the join).
- **Run invariant.** `Workers.Inv` says the shared list plus all buffers hold
  every reported value of the claimed range exactly once (as multisets). Every
  step keeps it, so whatever the interleaving, the shared list ends up holding
  each prime up to the bound exactly once.
- **End-to-end.** After sorting, `Runner.Run` returns exactly `PrimesIn(2,
  upperBound)`, for every thread count, either algorithm and every
  interleaving.

The model follows the code where it and the design text differ:

- The block-size comment speaks of 20.000, while the code uses 10000. The
  model uses 10000.
- Java's `/` and `%` truncate toward zero, and `ceilDiv` is modelled with those
  operators (`Sieve.JavaDiv`, `Sieve.JavaRem`). For a negative dividend whose
  division is not exact, the result is one more than the true ceiling.
- A sieve segment that starts below 0 never clears its negative cells (only 0
  and 1 are cleared explicitly). So the sieve reports `v < 0 || IsPrime(v)`
  (`Sieve.SieveKeeps`). Runs start at 2, where this is exactly the primes
  (`Runner.ReportedArePrimes`).

## Model

| member | source | states |
|---|---|---|
| Primes.ISqrt | src/main/java/project/primes/checker/SieveOfEratosthenes.java:257 | the truncated square root is the unique r ≥ 0 with r*r ≤ n < (r+1)*(r+1) |
| Checker.NewPrimeChecker | src/main/java/project/primes/checker/PrimeChecker.java:28-33 | maxNumber is stored as passed; the block size is at least 1, equals the argument when that is at least 1, and is 1 otherwise |
| Checker.ClaimAt | src/main/java/project/primes/checker/SieveOfEratosthenes.java:74-79 | a claim finds the range exhausted exactly when start > maxNumber; otherwise its block starts at start, ends at maxNumber or at start + blockSize − 1, and never passes maxNumber |
| Checker.ClaimedBlocks | src/main/java/project/primes/checker/TrialChecker.java:46-54 | the successive claims from a cursor give blocks inside [cursor, maxNumber] that are disjoint and ascending; the first starts at the cursor and the last ends at maxNumber; there are none exactly when the cursor is past maxNumber |
| Checker.ClaimsCover | src/main/java/project/primes/checker/SieveOfEratosthenes.java:72-79 | every number of [cursor, maxNumber] lies in one of the claimed blocks |
| Checker.ClaimsCount | src/main/java/project/primes/checker/TrialChecker.java:46-49 | from cursor ≤ maxNumber exactly (maxNumber − cursor) / blockSize + 1 blocks are granted, so the claim loop ends |
| Checker.ClaimedTail | src/main/java/project/primes/checker/TrialChecker.java:47-49 | a claim from a cursor with blocks due takes the front block, and the blocks due from the cursor one block further are exactly the rest; when none are due, none are due afterwards; since every pass, by whichever thread, moves the cursor one block on (`Workers.NextShape`), the passes of a run take the claimed blocks in order |
| Trial.NoDivisorFrom | src/main/java/project/primes/checker/TrialChecker.java:76-80 | the divisor loop from i returns true exactly when no d ≥ i with d*d ≤ n divides n |
| Trial.TrialDivisionDecides | src/main/java/project/primes/checker/TrialChecker.java:76-81 | a number n ≥ 2 is prime exactly when no d ≥ 2 with d*d ≤ n divides it |
| Trial.IsPrimeTrial | src/main/java/project/primes/checker/TrialChecker.java:69-82 | `isPrime` is true exactly for primes, and false for every n < 2 |
| Trial.CalculatePrimes | src/main/java/project/primes/checker/TrialChecker.java:94-110 | the result is the ascending list of exactly the primes of [start, end]; it is empty when end < 2 or start > end |
| Sieve.CeilDiv | src/main/java/project/primes/checker/SieveOfEratosthenes.java:178-182 | q*b ≥ a always; for a ≥ 0, (q − 1)*b < a as well; for a negative a, (q − 2)*b < a |
| Sieve.CeilDivIsLeast | src/main/java/project/primes/checker/SieveOfEratosthenes.java:166-182 | for a ≥ 0 and b > 0, `ceilDiv(a, b)` is the least q with q*b ≥ a |
| Sieve.InitSegment | src/main/java/project/primes/checker/SieveOfEratosthenes.java:119-123 | a segment of the requested length with every cell a candidate |
| Sieve.FirstMultipleIsLeast | src/main/java/project/primes/checker/SieveOfEratosthenes.java:199-202 | `max(p*p, ceilDiv(start, p)*p)` is at least start, is struck by p, and is the least value at or above start that p strikes |
| Sieve.MarkMultiples | src/main/java/project/primes/checker/SieveOfEratosthenes.java:198-212 | clears exactly the cells whose value is a multiple of p that is at least p*p, keeps every other cell, and never clears p itself |
| Sieve.ActiveCount | src/main/java/project/primes/checker/SieveOfEratosthenes.java:145-149 | the marking loop visits the leading base primes up to end and stops at the first one above end |
| Sieve.MarkSegmentWithBasePrimes | src/main/java/project/primes/checker/SieveOfEratosthenes.java:141-164 | a cell stays true exactly when it was true, its value is neither 0 nor 1, and no visited base prime strikes it |
| Sieve.UnmarkedIffSieveKeeps | src/main/java/project/primes/checker/SieveOfEratosthenes.java:145-152 | with ascending base primes that contain every prime q with q*q ≤ end, a cell survives the marking exactly when its value is prime (or negative), so stopping at the first base prime above end loses nothing |
| Sieve.CollectPrimesFromSegment | src/main/java/project/primes/checker/SieveOfEratosthenes.java:226-234 | returns start + i for exactly the true cells i, strictly ascending, at most one per cell |
| Sieve.SieveSegment | src/main/java/project/primes/checker/SieveOfEratosthenes.java:89-96 | one segment gives, strictly ascending, exactly its unmarked values; with covering base primes that is the filtered range of [start, end] |
| Sieve.SurvivesBelowBeyondRoot | src/main/java/project/primes/checker/SieveOfEratosthenes.java:270 | once p*p exceeds v, v is prime exactly when no prime below p strikes it, so the outer loop may stop there |
| Sieve.CrossOffMultiples | src/main/java/project/primes/checker/SieveOfEratosthenes.java:272-274 | the inner loop clears exactly the flags of the values p strikes and keeps every other flag |
| Sieve.PlainSieveFlags | src/main/java/project/primes/checker/SieveOfEratosthenes.java:263-276 | after the marking phase the flag of v in [0, limit] is true exactly when v is prime |
| Sieve.ComputeBasePrimesUpToSqrt | src/main/java/project/primes/checker/SieveOfEratosthenes.java:255-288 | returns exactly the primes up to ⌊√max(n, 0)⌋ in ascending order, which is empty when that root is below 2 |
| Sieve.NewSieveWorker | src/main/java/project/primes/checker/SieveOfEratosthenes.java:44-52 | fails with an illegal-argument error exactly when the base-prime list is missing; otherwise stores it and the shared parameters |
| Workers.IdleWorkers | src/main/java/project/primes/runner/ConcurrentRunner.java:118-125 | n threads, none started, every buffer empty |
| Workers.TrialPass | src/main/java/project/primes/checker/TrialChecker.java:46-58 | one pass of the trial loop makes the reference transition: on exhaustion the buffer is flushed once and the thread stops; otherwise `calculatePrimes` of the block is added to the buffer |
| Workers.SievePass | src/main/java/project/primes/checker/SieveOfEratosthenes.java:72-106 | one pass of the sieve loop makes the reference transition: on exhaustion the thread stops; otherwise the block's primes are appended to the shared list |
| Workers.Step | src/main/java/project/primes/runner/ConcurrentRunner.java:119-124 | the pass of whichever worker the runner created is the reference transition |
| Workers.InitialInv | src/main/java/project/primes/runner/ConcurrentRunner.java:61 | before any thread starts (cursor at its first value, nothing found) the run invariant holds |
| Workers.NextKeepsShape | src/main/java/project/primes/checker/TrialChecker.java:48-58 | every pass keeps the shape: a finished thread has flushed its buffer and has seen the range exhausted; sieve threads buffer nothing |
| Workers.ExhaustedAccounted | src/main/java/project/primes/checker/TrialChecker.java:48-58 | the claim that finds the range exhausted keeps the count: the flush only moves values from the buffer to the shared list |
| Workers.TrialGrantedAccounted | src/main/java/project/primes/checker/TrialChecker.java:47-53 | a granted trial block adds its primes to the buffer, and the claimed range grows by that same block |
| Workers.SieveGrantedAccounted | src/main/java/project/primes/checker/SieveOfEratosthenes.java:74-105 | a granted sieve block adds its primes to the shared list, and the claimed range grows by that same block |
| Workers.NextPreservesInv | src/main/java/project/primes/checker/TrialChecker.java:46-58 | every pass of every thread, trial or sieve (the sieve loop is SieveOfEratosthenes.java:72-106), keeps the run invariant: the shared list plus the buffers hold each reported value of the claimed range exactly once |
| Workers.SoloStepExhausted | src/main/java/project/primes/checker/TrialChecker.java:56-58 | for a thread running alone, the final flush adds nothing new to what it has produced |
| Workers.SoloStepGranted | src/main/java/project/primes/checker/TrialChecker.java:47-53 | for a thread running alone, a granted block extends what it has produced by the block's values, in order |
| Workers.RunWorker | src/main/java/project/primes/checker/TrialChecker.java:37-59 | a thread's `run()` terminates after the claim that finds the range exhausted; it appends to the shared list its earlier buffer, then every reported value from the cursor to maxNumber in ascending order; other threads are untouched and the run invariant is kept |
| Workers.FinishedRun | src/main/java/project/primes/runner/ConcurrentRunner.java:184-194 | once every thread has finished, the shared list holds each reported value of [first cursor, maxNumber] exactly once |
| Workers.Interleave | src/main/java/project/primes/runner/ConcurrentRunner.java:176-178 | any interleaving of the started threads keeps the run invariant |
| Workers.JoinAll | src/main/java/project/primes/runner/ConcurrentRunner.java:184-193 | joining each thread in turn leaves every thread finished with an empty buffer and the cursor past maxNumber |
| Workers.RunThreads | src/main/java/project/primes/runner/ConcurrentRunner.java:172-194 | for any thread count and interleaving, the shared list ends up as a permutation of the reported values of [first cursor, maxNumber]; so it holds no value twice |
| Runner.DynamicBlockSize | src/main/java/project/primes/runner/ConcurrentRunner.java:102 | the block size lies in [10000, 2^31 − 1]; it is 10000 or its square is at most the bound, and it is the cap or the bound is below the square of its successor |
| Runner.NewRunner | src/main/java/project/primes/runner/ConcurrentRunner.java:87-129 | fails exactly when nThreads < 1 or upperBound ≤ 0, with the thread message taking precedence; otherwise echoes the arguments, computes the block size, takes the base primes (up to ⌊√upperBound⌋) and the initialisation time in sieve mode only, and creates the workers; the result is ready to run (at least one thread, a positive block size, base primes that cover the bound) |
| Runner.BasePrimesCover | src/main/java/project/primes/runner/ConcurrentRunner.java:110-114 | the precomputed base primes are ascending, at least 2, and contain every prime whose square is at most the upper bound |
| Runner.ReportedArePrimes | src/main/java/project/primes/runner/ConcurrentRunner.java:119-124 | both kinds of worker report exactly the primes of [2, upperBound] |
| Runner.SortPrimesAsc | src/main/java/project/primes/runner/ConcurrentRunner.java:268-278 | the result is ascending and a permutation of the input |
| Runner.Run | src/main/java/project/primes/runner/ConcurrentRunner.java:172-197 | for every runner the constructor returns, whatever its thread count and algorithm, and for every interleaving, the primes afterwards are exactly the ascending primes of [2, upperBound]; only the primes and the two clock readings change |
| Runner.Distinct | src/main/java/project/primes/runner/ConcurrentRunner.java:311-313 | the stable `distinct()`: no value twice, exactly the values of the input, and in the order of their first occurrences in the input |
| Runner.RemoveDuplicates | src/main/java/project/primes/runner/ConcurrentRunner.java:300-319 | keeps the first occurrence of each value in its original order; the result has no duplicates and the same values; on a list without duplicates it changes nothing |
| Runner.DistinctOfNoDuplicates | src/main/java/project/primes/runner/ConcurrentRunner.java:292-295 | de-duplicating a list without repeated values returns it unchanged |
| Runner.RunHasNoDuplicates | src/main/java/project/primes/runner/ConcurrentRunner.java:195 | the unsorted shared list after the joins, which holds each reported value of the run's range exactly once (`Workers.RunThreads`), has no value twice, so de-duplicating it returns it unchanged |
| Runner.TotalDurationMs | src/main/java/project/primes/runner/ConcurrentRunner.java:241-251 | fails when both readings are 0, and fails on a negative total; otherwise returns the total of run and initialisation time in whole milliseconds, rounded down |
| Examples.CeilDivCases | src/test/java/project/primes/checker/SieveOfEratosthenesTest.java:53-64 | ceilDiv(10,3)=4, (9,3)=3, (0,5)=0, (1,1)=1, (7,2)=4 |
| Examples.IsPrimeCases | src/test/java/project/primes/checker/TrialCheckerTest.java:18-36 | 2, 3, 5, 7 and 43 are prime; 0, 1, 4, 100, 1200 and 1520 are not |
| Examples.MarkMultiplesCase | src/test/java/project/primes/checker/SieveOfEratosthenesTest.java:66-83 | marking with 5 over [10, 30] clears 25 and 30 and keeps 10, 15 and 20 |
| Examples.BasePrimesOf30 | src/test/java/project/primes/checker/SieveOfEratosthenesTest.java:29-35 | the base primes for 30 are [2, 3, 5] |
| Examples.NoBasePrimes | src/test/java/project/primes/checker/SieveOfEratosthenesTest.java:37-42 | there are no base primes for 0, 1 and 3 |
| Examples.SegmentFrom20 | src/test/java/project/primes/checker/SieveOfEratosthenesTest.java:100-113 | marking and collecting [20, 29] with the base primes for 29 gives [23, 29] |
| Examples.InvalidRunnerArguments | src/test/java/project/primes/runner/ConcurrentRunnerTest.java:18-29 | (−5, 1), (0, 1), (1, −1) and (0, 0) are rejected with an illegal-argument error in either mode |
| Examples.ValidRunnerArguments | src/test/java/project/primes/runner/ConcurrentRunnerTest.java:31-47 | (1, 1), (1, 2), (10, 1), (10, 10) and (3, 10) are accepted and echoed, including more threads than numbers |
| Examples.DurationCases | src/test/java/project/primes/runner/ConcurrentRunnerTest.java:161-186 | the duration is unavailable before the run and not negative after it |

## Left out

- Threads and synchronisation are left out: `Thread` start/join, `synchronized`, `Collections.synchronizedList` and the atomicity of `getAndAdd`. Instead, one pass of a loop body is one atomic step, and the schedule of steps is a parameter.
- A sieve pass is one atomic step from its claim to its append, so in the model a sieve run's shared list always follows claim order. In Java another thread can append between the claim (SieveOfEratosthenes.java:74) and the append (SieveOfEratosthenes.java:102-104), so the order of the shared list may vary. No contract depends on that order: the run invariant counts values as multisets, and `Runner.Run` sorts.
- The interruption handling and the `nInterruptedThreads` count are left out. The model has no interruptions.
- `System.nanoTime` readings are parameters: the base-prime precomputation time is a parameter of `Runner.NewRunner`, and the two readings are parameters of `Runner.Run`.
- `Math.sqrt` on doubles is modelled as the exact floor square root `Primes.ISqrt`. Rounding of large doubles is not modelled.
- Java `long` and `int` overflow is not modelled: integers are unbounded. This covers `p*p`, `start + blockSize` and the `(int)` casts of indices and lengths.
- The span check and span clamp of the sieve loop (SieveOfEratosthenes.java:80-87) are left out. A granted block always has a positive span, and the block size never exceeds `Integer.MAX_VALUE`.
- `printResults`, the interactive no-argument constructor, the console input and output classes and the benchmark driver are left out: they are console I/O.
- The getters `getNThreads`, `getUpperBound` and `getPrimes` are the fields `nThreads`, `upperBound` and `primes` of `Runner.ConcurrentRunner`.
- The shared list and the `nextStart` cursor are not worker fields. They live in `Workers.Pool`, which every worker of a run shares.
- The initial capacity of the trial worker's `ArrayList` has no effect on contents and is not modelled.
- The try/catch around worker creation in the runner constructor is not modelled. It cannot fire there, because the base-prime list is never missing (`Runner.NewRunner` creates the sieve workers through `Sieve.NewSieveWorker`).
- Calling `run` twice on one runner is not modelled: Java refuses to start a thread twice, and `Runner.Run` models the one run of the threads the constructor created.
- Sieve.CeilDiv: for a negative dividend the contract bounds the result within two blocks instead of giving the exact value. The claim loop never passes a negative start.
- Examples: the test values 999671 (prime) and 999999678 (not prime) are not evaluated, because unfolding trial division that far is too long for the verifier. `Trial.IsPrimeTrial` covers them in general.
- Examples: the concrete lists expected for bounds 20 and 30 (`calculatePrimes(0, 20)`, the single-worker runs and the runner runs) are not evaluated. `Trial.CalculatePrimes`, `Workers.RunWorker` and `Runner.Run` state them as `PrimesIn(2, 20)` and `PrimesIn(2, 30)` in general.
- The disabled timing tests and the count of 78,498 primes below one million are left out: they are performance or computational facts.

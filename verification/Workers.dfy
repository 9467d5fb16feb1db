/** The worker threads of one run: the `run()` loops of TrialChecker.java and
    SieveOfEratosthenes.java over the shared cursor and the shared result list.

    A thread is a worker index into a pool. One pass of a worker's loop body
    (one claim on the cursor, then processing or exit) is one atomic step; a
    concurrent run is any interleaving of such steps, given as a schedule of
    worker indices, followed by each worker running to its end (the join).
    The multiset invariant `Inv` states that no number is lost or reported
    twice, whatever the interleaving. */
module Workers {
  import opened Arith
  import opened Sequences
  import opened Primes
  import opened Checker
  import Trial
  import Sieve

  /** Which loop the workers run; the sieve carries its base primes. */
  datatype Algorithm = TrialDivision | SegmentedSieve(basePrimes: seq<int>)

  /** The values a worker reports when it processes a block. */
  function KeepOf(algo: Algorithm): int -> bool {
    match algo
    case TrialDivision => IsPrime
    case SegmentedSieve(_) => Sieve.SieveKeeps
  }

  /** The parameters all workers of one run share. */
  datatype Job = Job(checker: PrimeChecker, algo: Algorithm)

  /** A well-formed job: a positive block size, and for the sieve base primes
      covering every number up to maxNumber. */
  ghost predicate ValidJob(job: Job) {
    && job.checker.blockSize >= 1
    && (job.algo.SegmentedSieve? ==> Sieve.CoversUpTo(job.algo.basePrimes, job.checker.maxNumber))
  }

  /** A thread's private state: the trial worker's buffer, and whether its
      `run()` has returned. */
  datatype WorkerState = WorkerState(local: seq<int>, done: bool)

  /** The shared cursor (`nextStart`), the shared list, and the threads. */
  datatype Pool = Pool(cursor: int, shared: seq<int>, workers: seq<WorkerState>)

  function IdleWorkers(n: nat): (ws: seq<WorkerState>)
    ensures |ws| == n
    ensures forall i :: 0 <= i < n ==> ws[i] == WorkerState([], false)
  {
    seq(n, _ => WorkerState([], false))
  }

  /** One pass of worker w's loop body, stated with the reference
      definitions: take the cursor value and advance it by one block; past
      maxNumber the trial worker flushes its buffer and both stop; otherwise
      the block's values go to the trial worker's buffer or straight to the
      shared list. */
  function Next(job: Job, pool: Pool, w: nat): Pool
    requires job.checker.blockSize >= 1 && w < |pool.workers|
  {
    var c := job.checker;
    var ws := pool.workers[w];
    var moved := pool.(cursor := pool.cursor + c.blockSize);
    match ClaimAt(c, pool.cursor)
    case Exhausted =>
      if job.algo.TrialDivision? then
        moved.(shared := pool.shared + ws.local, workers := pool.workers[w := WorkerState([], true)])
      else
        moved.(workers := pool.workers[w := ws.(done := true)])
    case Granted(b) =>
      var found := RangeFilter(b.start, b.end, KeepOf(job.algo));
      if job.algo.TrialDivision? then
        moved.(workers := pool.workers[w := ws.(local := ws.local + found)])
      else
        moved.(shared := pool.shared + found)
  }

  lemma CoversDownward(basePrimes: seq<int>, bound: int, smaller: int)
    requires Sieve.CoversUpTo(basePrimes, bound) && smaller <= bound
    ensures Sieve.CoversUpTo(basePrimes, smaller)
  {
  }

  /** One pass of TrialChecker's loop body: claim, then on exhaustion flush
      the buffer and stop, else add `calculatePrimes` of the block to the
      buffer. */
  method TrialPass(job: Job, pool: Pool, w: nat) returns (r: Pool)
    requires job.algo.TrialDivision? && job.checker.blockSize >= 1 && w < |pool.workers|
    ensures r == Next(job, pool, w)
  {
    var c := job.checker;
    var start := pool.cursor;
    var ws := pool.workers[w];
    r := pool.(cursor := start + c.blockSize);
    if start > c.maxNumber {
      r := r.(shared := r.shared + ws.local, workers := r.workers[w := WorkerState([], true)]);
    } else {
      var end := Min(start + c.blockSize - 1, c.maxNumber);
      var found := Trial.CalculatePrimes(start, end);
      r := r.(workers := r.workers[w := ws.(local := ws.local + found)]);
    }
  }

  /** One pass of SieveOfEratosthenes's loop body: claim, then on exhaustion
      stop, else sieve the segment and append its primes to the shared list
      when there are any. */
  method SievePass(job: Job, pool: Pool, w: nat) returns (r: Pool)
    requires ValidJob(job) && job.algo.SegmentedSieve? && w < |pool.workers|
    ensures r == Next(job, pool, w)
  {
    var c := job.checker;
    var start := pool.cursor;
    var ws := pool.workers[w];
    r := pool.(cursor := start + c.blockSize);
    if start > c.maxNumber {
      r := r.(workers := r.workers[w := ws.(done := true)]);
    } else {
      var end := Min(start + c.blockSize - 1, c.maxNumber);
      ghost var found := RangeFilter(start, end, KeepOf(job.algo));
      assert Next(job, pool, w) == r.(shared := pool.shared + found);
      CoversDownward(job.algo.basePrimes, c.maxNumber, end);
      var local := Sieve.SieveSegment(start, end, job.algo.basePrimes);
      assert local == found;
      if |local| > 0 {
        r := r.(shared := r.shared + local);
      } else {
        assert pool.shared + local == pool.shared;
      }
    }
  }

  /** One pass of worker w's loop body as the Java code runs it; it makes
      exactly the transition `Next` describes. */
  method Step(job: Job, pool: Pool, w: nat) returns (r: Pool)
    requires ValidJob(job) && w < |pool.workers|
    ensures r == Next(job, pool, w)
  {
    if job.algo.TrialDivision? {
      r := TrialPass(job, pool, w);
    } else {
      r := SievePass(job, pool, w);
    }
  }

  /** The numbers held in the threads' private buffers. */
  function Buffered(ws: seq<WorkerState>): multiset<int> {
    if |ws| == 0 then multiset{}
    else Buffered(ws[..|ws| - 1]) + multiset(ws[|ws| - 1].local)
  }

  lemma {:induction false} BufferedUpdate(ws: seq<WorkerState>, w: nat, x: WorkerState)
    requires w < |ws|
    ensures Buffered(ws[w := x]) + multiset(ws[w].local) == Buffered(ws) + multiset(x.local)
    decreases |ws|
  {
    var n := |ws| - 1;
    var ws' := ws[w := x];
    if w == n {
      assert ws'[..n] == ws[..n];
    } else {
      var front := ws[..n];
      assert ws'[..n] == front[w := x];
      BufferedUpdate(front, w, x);
      calc {
        Buffered(ws') + multiset(ws[w].local);
        (Buffered(front[w := x]) + multiset(ws[n].local)) + multiset(front[w].local);
        (Buffered(front[w := x]) + multiset(front[w].local)) + multiset(ws[n].local);
        (Buffered(front) + multiset(x.local)) + multiset(ws[n].local);
        Buffered(ws) + multiset(x.local);
      }
    }
  }

  lemma {:induction false} BufferedEmpty(ws: seq<WorkerState>)
    requires forall i :: 0 <= i < |ws| ==> ws[i].local == []
    ensures Buffered(ws) == multiset{}
    decreases |ws|
  {
    if |ws| > 0 {
      BufferedEmpty(ws[..|ws| - 1]);
    }
  }

  /** The counting part of the run invariant for a run that started with the
      cursor at c0: the shared list and the buffers together hold every
      reported value of the claimed range [c0, cursor - 1] (clipped at
      maxNumber) exactly once. */
  ghost predicate Accounted(job: Job, c0: int, pool: Pool) {
    multiset(pool.shared) + Buffered(pool.workers)
    == multiset(RangeFilter(c0, Min(pool.cursor - 1, job.checker.maxNumber), KeepOf(job.algo)))
  }

  /** The shape part of the run invariant: a finished thread has flushed and
      has seen the range exhausted; sieve threads buffer nothing. */
  predicate Shaped(job: Job, pool: Pool) {
    && (forall i :: 0 <= i < |pool.workers| && pool.workers[i].done ==>
          pool.workers[i].local == [] && pool.cursor > job.checker.maxNumber)
    && (job.algo.SegmentedSieve? ==> forall i :: 0 <= i < |pool.workers| ==> pool.workers[i].local == [])
  }

  ghost predicate Inv(job: Job, c0: int, pool: Pool) {
    c0 <= pool.cursor && Accounted(job, c0, pool) && Shaped(job, pool)
  }

  /** The state before any thread starts: cursor at c0, nothing found. */
  lemma InitialInv(job: Job, c0: int, n: nat)
    ensures Inv(job, c0, Pool(c0, [], IdleWorkers(n)))
  {
    BufferedEmpty(IdleWorkers(n));
  }

  /** Every pass keeps the shape part: only worker w changes, and it
      finishes, flushed, only once the range is exhausted. */
  lemma NextKeepsShape(job: Job, pool: Pool, w: nat)
    requires job.checker.blockSize >= 1 && w < |pool.workers|
    requires Shaped(job, pool)
    ensures Shaped(job, Next(job, pool, w))
  {
    NextShape(job, pool, w);
  }

  lemma MultisetBalance(s: multiset<int>, b: multiset<int>, f: multiset<int>, s0: multiset<int>,
                        b0: multiset<int>, lx: multiset<int>, lw: multiset<int>, before: multiset<int>)
    requires b + lw == b0 + lx && s + lx == s0 + lw + f && s0 + b0 == before
    ensures s + b == before + f
  {
    forall v
      ensures (s + b)[v] == (before + f)[v]
    {
      assert (b + lw)[v] == (b0 + lx)[v];
      assert (s + lx)[v] == (s0 + lw + f)[v];
      assert (s0 + b0)[v] == before[v];
    }
  }

  /** Counting after one step in which worker w became x, the shared list and
      the buffers together gained `found`, and so did the claimed range. */
  lemma AccountedAfterUpdate(job: Job, c0: int, pool: Pool, r: Pool, w: nat, x: WorkerState, found: seq<int>)
    requires Accounted(job, c0, pool)
    requires w < |pool.workers| && r.workers == pool.workers[w := x]
    requires multiset(r.shared) + multiset(x.local)
             == multiset(pool.shared) + multiset(pool.workers[w].local) + multiset(found)
    requires multiset(RangeFilter(c0, Min(r.cursor - 1, job.checker.maxNumber), KeepOf(job.algo)))
             == multiset(RangeFilter(c0, Min(pool.cursor - 1, job.checker.maxNumber), KeepOf(job.algo)))
                + multiset(found)
    ensures Accounted(job, c0, r)
  {
    BufferedUpdate(pool.workers, w, x);
    MultisetBalance(multiset(r.shared), Buffered(r.workers), multiset(found),
                    multiset(pool.shared), Buffered(pool.workers),
                    multiset(x.local), multiset(pool.workers[w].local),
                    multiset(RangeFilter(c0, Min(pool.cursor - 1, job.checker.maxNumber), KeepOf(job.algo))));
  }

  /** The claim that finds the range exhausted keeps the count: the trial
      thread's flush moves its buffer into the shared list, and the claimed
      range stays clipped at maxNumber. */
  lemma ExhaustedAccounted(job: Job, c0: int, pool: Pool, w: nat)
    requires job.checker.blockSize >= 1 && w < |pool.workers|
    requires Accounted(job, c0, pool) && pool.cursor > job.checker.maxNumber
    ensures Accounted(job, c0, Next(job, pool, w))
  {
    var c := job.checker;
    var ws := pool.workers[w];
    var r := Next(job, pool, w);
    assert Min(r.cursor - 1, c.maxNumber) == Min(pool.cursor - 1, c.maxNumber);
    if job.algo.TrialDivision? {
      var x := WorkerState([], true);
      assert r.workers == pool.workers[w := x];
      assert r.shared == pool.shared + ws.local;
      AccountedAfterUpdate(job, c0, pool, r, w, x, []);
    } else {
      var x := ws.(done := true);
      assert r.workers == pool.workers[w := x];
      assert r.shared == pool.shared;
      AccountedAfterUpdate(job, c0, pool, r, w, x, []);
    }
  }

  lemma UpdateWithSame(ws: seq<WorkerState>, w: nat)
    requires w < |ws|
    ensures ws[w := ws[w]] == ws
  {
  }

  /** A granted pass of a trial worker appends the found values to its
      buffer and changes nothing else but the cursor. */
  lemma TrialGrantedUpdate(job: Job, pool: Pool, w: nat, found: seq<int>)
    requires job.checker.blockSize >= 1 && w < |pool.workers| && job.algo.TrialDivision?
    requires pool.cursor <= job.checker.maxNumber
    requires found == RangeFilter(pool.cursor, Min(pool.cursor + job.checker.blockSize - 1, job.checker.maxNumber),
                                  KeepOf(job.algo))
    ensures var r := Next(job, pool, w);
      var ws := pool.workers[w];
      && r.cursor == pool.cursor + job.checker.blockSize
      && r.shared == pool.shared
      && r.workers == pool.workers[w := ws.(local := ws.local + found)]
  {
  }

  /** A granted pass of a sieve worker appends the found values to the
      shared list and changes nothing else but the cursor. */
  lemma SieveGrantedUpdate(job: Job, pool: Pool, w: nat, found: seq<int>)
    requires job.checker.blockSize >= 1 && w < |pool.workers| && job.algo.SegmentedSieve?
    requires pool.cursor <= job.checker.maxNumber
    requires found == RangeFilter(pool.cursor, Min(pool.cursor + job.checker.blockSize - 1, job.checker.maxNumber),
                                  KeepOf(job.algo))
    ensures var r := Next(job, pool, w);
      && r.cursor == pool.cursor + job.checker.blockSize
      && r.shared == pool.shared + found
      && r.workers == pool.workers
  {
  }

  /** Counting after a granted pass: worker w became x, the shared list and
      the buffers together gained `found`, which is what the claimed range
      gained. */
  lemma GrantedAfterUpdate(job: Job, c0: int, pool: Pool, r: Pool, w: nat, x: WorkerState, found: seq<int>, end: int)
    requires Accounted(job, c0, pool)
    requires w < |pool.workers| && r.workers == pool.workers[w := x]
    requires multiset(r.shared) + multiset(x.local)
             == multiset(pool.shared) + multiset(pool.workers[w].local) + multiset(found)
    requires c0 <= pool.cursor <= end + 1 && pool.cursor <= job.checker.maxNumber
    requires end == Min(r.cursor - 1, job.checker.maxNumber)
    requires found == RangeFilter(pool.cursor, end, KeepOf(job.algo))
    ensures Accounted(job, c0, r)
  {
    var mid := Min(pool.cursor - 1, job.checker.maxNumber);
    assert mid + 1 == pool.cursor;
    RangeFilterSplitMultiset(c0, mid, end, KeepOf(job.algo));
    AccountedAfterUpdate(job, c0, pool, r, w, x, found);
  }

  /** A granted block keeps the count for trial workers: its primes join
      the worker's buffer, and the claimed range grows by that block. */
  lemma TrialGrantedAccounted(job: Job, c0: int, pool: Pool, w: nat)
    requires job.checker.blockSize >= 1 && w < |pool.workers| && job.algo.TrialDivision?
    requires c0 <= pool.cursor <= job.checker.maxNumber
    ensures Accounted(job, c0, pool) ==> Accounted(job, c0, Next(job, pool, w))
  {
    var c := job.checker;
    var end := Min(pool.cursor + c.blockSize - 1, c.maxNumber);
    var found := RangeFilter(pool.cursor, end, KeepOf(job.algo));
    var ws := pool.workers[w];
    TrialGrantedUpdate(job, pool, w, found);
    if Accounted(job, c0, pool) {
      GrantedAfterUpdate(job, c0, pool, Next(job, pool, w), w, ws.(local := ws.local + found), found, end);
    }
  }

  /** A granted block keeps the count for sieve workers: its values join
      the shared list, and the claimed range grows by that block. */
  lemma SieveGrantedAccounted(job: Job, c0: int, pool: Pool, w: nat)
    requires job.checker.blockSize >= 1 && w < |pool.workers| && job.algo.SegmentedSieve?
    requires c0 <= pool.cursor <= job.checker.maxNumber
    ensures Accounted(job, c0, pool) ==> Accounted(job, c0, Next(job, pool, w))
  {
    var c := job.checker;
    var end := Min(pool.cursor + c.blockSize - 1, c.maxNumber);
    var found := RangeFilter(pool.cursor, end, KeepOf(job.algo));
    SieveGrantedUpdate(job, pool, w, found);
    UpdateWithSame(pool.workers, w);
    if Accounted(job, c0, pool) {
      GrantedAfterUpdate(job, c0, pool, Next(job, pool, w), w, pool.workers[w], found, end);
    }
  }

  /** Every step of every thread keeps the invariant, so it holds along any
      interleaving. */
  lemma NextPreservesInv(job: Job, c0: int, pool: Pool, w: nat)
    requires job.checker.blockSize >= 1 && w < |pool.workers|
    requires Inv(job, c0, pool)
    ensures Inv(job, c0, Next(job, pool, w))
  {
    NextKeepsShape(job, pool, w);
    if pool.cursor > job.checker.maxNumber {
      ExhaustedAccounted(job, c0, pool, w);
    } else if job.algo.TrialDivision? {
      TrialGrantedAccounted(job, c0, pool, w);
    } else {
      SieveGrantedAccounted(job, c0, pool, w);
    }
  }

  /** What one thread running alone from `pool` has produced by `r`: the
      shared list and its buffer hold what they held before, followed by
      every reported value of [pool.cursor, r.cursor - 1] (clipped at
      maxNumber) in ascending order. */
  predicate SoloProgress(job: Job, pool: Pool, r: Pool, w: nat)
    requires w < |pool.workers| && w < |r.workers|
  {
    r.shared + r.workers[w].local
    == pool.shared + pool.workers[w].local
       + RangeFilter(pool.cursor, Min(r.cursor - 1, job.checker.maxNumber), KeepOf(job.algo))
  }

  /** What one pass changes in the pool's shape: the cursor moves by one
      block, only worker w changes, and it finishes exactly when the range
      was exhausted, with its buffer flushed. */
  lemma NextShape(job: Job, pool: Pool, w: nat)
    requires job.checker.blockSize >= 1 && w < |pool.workers|
    requires job.algo.SegmentedSieve? ==> pool.workers[w].local == []
    ensures var r := Next(job, pool, w);
      && |r.workers| == |pool.workers|
      && (forall i :: 0 <= i < |r.workers| && i != w ==> r.workers[i] == pool.workers[i])
      && r.cursor == pool.cursor + job.checker.blockSize
      && (job.algo.SegmentedSieve? ==> r.workers[w].local == [])
      && (r.workers[w].done <==> pool.cursor > job.checker.maxNumber || pool.workers[w].done)
      && (pool.cursor > job.checker.maxNumber ==> r.workers[w].local == [])
  {
  }

  /** A pass that finds the range exhausted adds nothing to a lone
      thread's progress: the flush only moves its buffer to the shared list. */
  lemma SoloStepExhausted(job: Job, pool: Pool, before: Pool, w: nat)
    requires job.checker.blockSize >= 1 && w < |pool.workers| && w < |before.workers|
    requires pool.cursor <= before.cursor && before.cursor > job.checker.maxNumber
    requires job.algo.SegmentedSieve? ==> before.workers[w].local == []
    requires SoloProgress(job, pool, before, w)
    ensures w < |Next(job, before, w).workers|
    ensures SoloProgress(job, pool, Next(job, before, w), w)
  {
    var c := job.checker;
    var r := Next(job, before, w);
    assert Min(r.cursor - 1, c.maxNumber) == Min(before.cursor - 1, c.maxNumber);
    assert r.shared + r.workers[w].local == before.shared + before.workers[w].local;
  }

  lemma ExtendProgress(earlier: seq<int>, done: seq<int>, found: seq<int>,
                       shared: seq<int>, local: seq<int>, shared': seq<int>, local': seq<int>)
    requires shared + local == earlier + done
    requires shared' + local' == (shared + local) + found
    ensures shared' + local' == earlier + (done + found)
  {
  }

  /** What a granted pass adds to the shared list and the buffer together:
      the block's reported values. */
  lemma GrantedAppends(job: Job, before: Pool, w: nat)
    requires job.checker.blockSize >= 1 && w < |before.workers|
    requires before.cursor <= job.checker.maxNumber
    requires job.algo.SegmentedSieve? ==> before.workers[w].local == []
    ensures var r := Next(job, before, w);
      var b := ClaimAt(job.checker, before.cursor).block;
      && w < |r.workers|
      && r.shared + r.workers[w].local
         == (before.shared + before.workers[w].local) + RangeFilter(b.start, b.end, KeepOf(job.algo))
  {
    var b := ClaimAt(job.checker, before.cursor).block;
    var found := RangeFilter(b.start, b.end, KeepOf(job.algo));
    if job.algo.SegmentedSieve? {
      assert before.shared + before.workers[w].local == before.shared;
    }
  }

  /** A pass that is granted a block extends a lone thread's progress by the
      block's reported values. */
  lemma SoloStepGranted(job: Job, pool: Pool, before: Pool, w: nat)
    requires job.checker.blockSize >= 1 && w < |pool.workers| && w < |before.workers|
    requires pool.cursor <= before.cursor <= job.checker.maxNumber
    requires job.algo.SegmentedSieve? ==> before.workers[w].local == []
    requires SoloProgress(job, pool, before, w)
    ensures w < |Next(job, before, w).workers|
    ensures SoloProgress(job, pool, Next(job, before, w), w)
  {
    var c := job.checker;
    var keep := KeepOf(job.algo);
    var r := Next(job, before, w);
    var b := ClaimAt(c, before.cursor).block;
    var mid := Min(before.cursor - 1, c.maxNumber);
    var hi := Min(r.cursor - 1, c.maxNumber);
    GrantedAppends(job, before, w);
    assert mid + 1 == b.start && hi == b.end;
    RangeFilterSplit(pool.cursor, mid, hi, keep);
    ExtendProgress(pool.shared + pool.workers[w].local, RangeFilter(pool.cursor, mid, keep),
                   RangeFilter(mid + 1, hi, keep),
                   before.shared, before.workers[w].local, r.shared, r.workers[w].local);
  }

  /** A thread's `run()` to its end, with no other thread moving meanwhile:
      it stops after the claim that finds the range exhausted, and it adds
      to the shared list its earlier buffer followed by every reported value
      of [cursor, maxNumber] in ascending order. Other threads are untouched,
      and the run invariant is kept. */
  method RunWorker(job: Job, pool: Pool, w: nat, ghost c0: int) returns (r: Pool)
    requires ValidJob(job) && w < |pool.workers| && !pool.workers[w].done
    requires job.algo.SegmentedSieve? ==> pool.workers[w].local == []
    ensures |r.workers| == |pool.workers|
    ensures forall i :: 0 <= i < |r.workers| && i != w ==> r.workers[i] == pool.workers[i]
    ensures r.workers[w] == WorkerState([], true)
    ensures r.cursor > job.checker.maxNumber
    ensures r.shared == pool.shared + pool.workers[w].local
                        + RangeFilter(pool.cursor, job.checker.maxNumber, KeepOf(job.algo))
    ensures Inv(job, c0, pool) ==> Inv(job, c0, r)
  {
    var c := job.checker;
    r := pool;
    while !r.workers[w].done
      invariant |r.workers| == |pool.workers|
      invariant forall i :: 0 <= i < |r.workers| && i != w ==> r.workers[i] == pool.workers[i]
      invariant r.cursor >= pool.cursor
      invariant job.algo.SegmentedSieve? ==> r.workers[w].local == []
      invariant r.workers[w].done ==> r.workers[w].local == [] && r.cursor > c.maxNumber
      invariant SoloProgress(job, pool, r, w)
      invariant Inv(job, c0, pool) ==> Inv(job, c0, r)
      decreases (if r.workers[w].done then 0 else 1) + Max(c.maxNumber + 1 - r.cursor, 0)
    {
      var before := r;
      r := Step(job, r, w);
      NextShape(job, before, w);
      if before.cursor > c.maxNumber {
        SoloStepExhausted(job, pool, before, w);
      } else {
        SoloStepGranted(job, pool, before, w);
      }
      if Inv(job, c0, pool) {
        NextPreservesInv(job, c0, before, w);
      }
    }
    assert Min(r.cursor - 1, c.maxNumber) == c.maxNumber;
  }

  /** A finished run: with at least one thread and every thread done, the
      shared list holds each reported value of [c0, maxNumber] exactly once. */
  lemma FinishedRun(job: Job, c0: int, pool: Pool)
    requires Inv(job, c0, pool) && |pool.workers| >= 1
    requires forall i :: 0 <= i < |pool.workers| ==> pool.workers[i].done
    ensures multiset(pool.shared) == multiset(RangeFilter(c0, job.checker.maxNumber, KeepOf(job.algo)))
  {
    assert pool.workers[0].done;
    BufferedEmpty(pool.workers);
  }

  /** A whole concurrent run of `count` threads from cursor c0: the threads
      take turns as `schedule` says (an index of a thread that has returned,
      or of no thread, is skipped), then each thread in turn is joined, that
      is, runs to its end. The shared list then holds every reported value of
      [c0, maxNumber] exactly once, in some order. */
  method RunThreads(job: Job, c0: int, count: nat, schedule: seq<nat>) returns (r: Pool)
    requires ValidJob(job) && count >= 1
    ensures |r.workers| == count
    ensures forall i :: 0 <= i < count ==> r.workers[i] == WorkerState([], true)
    ensures r.cursor > job.checker.maxNumber
    ensures multiset(r.shared) == multiset(RangeFilter(c0, job.checker.maxNumber, KeepOf(job.algo)))
    ensures NoDuplicates(r.shared)
  {
    r := Pool(c0, [], IdleWorkers(count));
    InitialInv(job, c0, count);
    r := Interleave(job, c0, r, schedule);
    r := JoinAll(job, c0, r);
    FinishedRun(job, c0, r);
    var expected := RangeFilter(c0, job.checker.maxNumber, KeepOf(job.algo));
    RangeFilterAscending(c0, job.checker.maxNumber, KeepOf(job.algo));
    StrictlyAscendingHasNoDuplicates(expected);
    NoDuplicatesOfSameMultiset(r.shared, expected);
  }

  /** The threads take turns as `schedule` says; a turn of a thread that has
      returned, or of no thread, is skipped. The run invariant is kept. */
  method Interleave(job: Job, ghost c0: int, pool: Pool, schedule: seq<nat>) returns (r: Pool)
    requires ValidJob(job) && Inv(job, c0, pool)
    ensures |r.workers| == |pool.workers|
    ensures Inv(job, c0, r)
  {
    r := pool;
    var k := 0;
    while k < |schedule|
      invariant 0 <= k <= |schedule|
      invariant |r.workers| == |pool.workers|
      invariant Inv(job, c0, r)
    {
      var w := schedule[k];
      if w < |r.workers| && !r.workers[w].done {
        NextPreservesInv(job, c0, r, w);
        r := Step(job, r, w);
      }
      k := k + 1;
    }
  }

  /** Each thread in turn is joined: it runs to its end. Afterwards every
      thread has returned with an empty buffer, the cursor is past
      maxNumber, and the run invariant still holds. */
  method JoinAll(job: Job, ghost c0: int, pool: Pool) returns (r: Pool)
    requires ValidJob(job) && Inv(job, c0, pool) && |pool.workers| >= 1
    ensures |r.workers| == |pool.workers|
    ensures forall i :: 0 <= i < |r.workers| ==> r.workers[i] == WorkerState([], true)
    ensures r.cursor > job.checker.maxNumber
    ensures Inv(job, c0, r)
  {
    r := pool;
    var i := 0;
    while i < |r.workers|
      invariant 0 <= i <= |r.workers|
      invariant |r.workers| == |pool.workers|
      invariant Inv(job, c0, r)
      invariant forall j :: 0 <= j < i ==> r.workers[j] == WorkerState([], true)
      invariant i > 0 ==> r.cursor > job.checker.maxNumber
    {
      if !r.workers[i].done {
        r := RunWorker(job, r, i, c0);
      }
      i := i + 1;
    }
  }
}

/** The shared worker contract of both algorithms (PrimeChecker.java): the
    stored parameters and the claim on the shared cursor. The cursor is a
    plain counter here; one claim is the model of one `getAndAdd`. */
module Checker {
  import opened Arith

  /** The parameters every worker stores. The shared result list and the
      shared cursor live in the worker pool (module Workers), which all
      workers of one run reference. */
  datatype PrimeChecker = PrimeChecker(maxNumber: int, blockSize: int)

  /** A block of consecutive numbers [start, end] granted to one worker. */
  datatype Block = Block(start: int, end: int)

  /** The outcome of one claim: a block, or the signal that no work is left. */
  datatype Claim = Exhausted | Granted(block: Block)

  /** The constructor: parameters are stored as passed, except that the block
      size is raised to at least 1. */
  function NewPrimeChecker(maxNumber: int, blockSize: int): (c: PrimeChecker)
    ensures c.maxNumber == maxNumber
    ensures c.blockSize >= 1
    ensures blockSize >= 1 ==> c.blockSize == blockSize
    ensures blockSize < 1 ==> c.blockSize == 1
  {
    PrimeChecker(maxNumber, Max(1, blockSize))
  }

  /** What a worker makes of the value `start` it read from the cursor (the
      cursor itself moves on to start + blockSize): nothing when start is past
      maxNumber, otherwise the block from start to the earlier of its
      natural end and maxNumber. */
  function ClaimAt(c: PrimeChecker, start: int): (r: Claim)
    requires c.blockSize >= 1
    ensures r.Exhausted? <==> start > c.maxNumber
    ensures r.Granted? ==> r.block.start == start <= r.block.end <= c.maxNumber
    ensures r.Granted? ==> r.block.end < start + c.blockSize
    ensures r.Granted? ==> r.block.end == c.maxNumber || r.block.end == start + c.blockSize - 1
  {
    if start > c.maxNumber then Exhausted
    else Granted(Block(start, Min(start + c.blockSize - 1, c.maxNumber)))
  }

  /** The blocks granted by successive claims starting from `cursor`, up to
      the first claim that finds the range exhausted. Every pass of a worker,
      whichever worker makes it, moves the shared cursor on by one block
      (`Workers.NextShape`), so it takes the front block of this sequence and
      leaves the rest due (`ClaimedTail`). */
  function ClaimedBlocks(c: PrimeChecker, cursor: int): (bs: seq<Block>)
    requires c.blockSize >= 1
    ensures |bs| == 0 <==> cursor > c.maxNumber
    ensures forall k :: 0 <= k < |bs| ==> cursor <= bs[k].start <= bs[k].end <= c.maxNumber
    ensures forall k, l :: 0 <= k < l < |bs| ==> bs[k].end < bs[l].start
    ensures |bs| > 0 ==> bs[0].start == cursor && bs[|bs| - 1].end == c.maxNumber
    decreases c.maxNumber - cursor
  {
    match ClaimAt(c, cursor)
    case Exhausted => []
    case Granted(b) => [b] + ClaimedBlocks(c, cursor + c.blockSize)
  }

  /** Some block of bs contains x. */
  predicate InSomeBlock(bs: seq<Block>, x: int) {
    exists k :: 0 <= k < |bs| && bs[k].start <= x <= bs[k].end
  }

  lemma InSomeBlockCons(b: Block, rest: seq<Block>, x: int)
    requires b.start <= x <= b.end || InSomeBlock(rest, x)
    ensures InSomeBlock([b] + rest, x)
  {
    var bs := [b] + rest;
    if b.start <= x <= b.end {
      assert bs[0] == b;
    } else {
      var k :| 0 <= k < |rest| && rest[k].start <= x <= rest[k].end;
      assert bs[k + 1] == rest[k];
    }
  }

  /** Every number of [cursor, maxNumber] lies in one of the claimed blocks,
      and since the blocks are disjoint, in exactly one. */
  lemma {:induction false} ClaimsCover(c: PrimeChecker, cursor: int, x: int)
    requires c.blockSize >= 1
    requires cursor <= x <= c.maxNumber
    ensures InSomeBlock(ClaimedBlocks(c, cursor), x)
    decreases c.maxNumber - cursor
  {
    var b := ClaimAt(c, cursor).block;
    var next := cursor + c.blockSize;
    ClaimedUnfold(c, cursor);
    if x > b.end {
      ClaimsCover(c, next, x);
    }
    InSomeBlockCons(b, ClaimedBlocks(c, next), x);
  }

  /** One claim peeled off the front of the claimed blocks. */
  lemma ClaimedUnfold(c: PrimeChecker, cursor: int)
    requires c.blockSize >= 1 && cursor <= c.maxNumber
    ensures ClaimedBlocks(c, cursor) == [ClaimAt(c, cursor).block] + ClaimedBlocks(c, cursor + c.blockSize)
  {
  }

  /** One claim from a cursor: when blocks are due, it takes the front one
      and the blocks due from the advanced cursor are the rest; when none
      are due, none are due afterwards either. */
  lemma ClaimedTail(c: PrimeChecker, cursor: int)
    requires c.blockSize >= 1
    ensures var due := ClaimedBlocks(c, cursor);
      var after := ClaimedBlocks(c, cursor + c.blockSize);
      && (due == [] ==> after == [])
      && (due != [] ==> due[0] == ClaimAt(c, cursor).block && after == due[1..])
  {
    if cursor <= c.maxNumber {
      ClaimedUnfold(c, cursor);
      var rest := ClaimedBlocks(c, cursor + c.blockSize);
      assert ([ClaimAt(c, cursor).block] + rest)[1..] == rest;
    }
  }

  /** The claims stop: from cursor <= maxNumber exactly
      (maxNumber - cursor) / blockSize + 1 blocks are granted. */
  lemma {:induction false} ClaimsCount(c: PrimeChecker, cursor: int)
    requires c.blockSize >= 1 && cursor <= c.maxNumber
    ensures |ClaimedBlocks(c, cursor)| == (c.maxNumber - cursor) / c.blockSize + 1
    decreases c.maxNumber - cursor
  {
    var k := c.blockSize;
    var next := cursor + k;
    var n := c.maxNumber - cursor;
    ClaimedUnfold(c, cursor);
    if next > c.maxNumber {
      DivSmall(n, k);
    } else {
      ClaimsCount(c, next);
      DivStep(n, k);
      assert c.maxNumber - next == n - k;
    }
  }
}

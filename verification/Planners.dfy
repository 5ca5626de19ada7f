/** Cutting gaps into range proof requests: greedily by gas, or into fixed-size chunks of blocks. */
module Planners {
  import opened Prelude
  import opened RangeGaps

  datatype BlockInfo = BlockInfo(blockNumber: int, gasUsed: nat)

  type Infos = map<int, BlockInfo>

  /** The segments tile (lo, hi] from left to right; nothing is left to tile when `hi <= lo`. */
  ghost predicate Partition(segs: seq<Range>, lo: int, hi: int) {
    if segs == [] then hi <= lo
    else
      && segs[0].start == lo && segs[|segs| - 1].end == hi
      && AllNonEmpty(segs)
      && forall k :: 0 <= k < |segs| - 1 ==> segs[k].end == segs[k + 1].start
  }

  /** Left to right without overlap; neighbours may touch. */
  ghost predicate Ordered(ranges: seq<Range>) {
    forall j, k :: 0 <= j < k < |ranges| ==> ranges[j].end <= ranges[k].start
  }

  lemma {:induction false} PartitionSpan(segs: seq<Range>, lo: int, hi: int, j: nat, k: nat)
    requires Partition(segs, lo, hi) && j <= k < |segs|
    ensures lo <= segs[j].start && segs[k].end <= hi
    ensures j < k ==> segs[j].end <= segs[k].start
    decreases k - j, j + |segs| - k
  {
    assert !segs[j].IsEmpty() && !segs[k].IsEmpty();
    if j < k {
      PartitionSpan(segs, lo, hi, j + 1, k);
      PartitionSpan(segs, lo, hi, j, j);
    } else {
      if j > 0 {
        assert segs[j - 1].end == segs[j].start;
        PartitionStart(segs, lo, hi, j);
      }
      if k < |segs| - 1 {
        PartitionEnd(segs, lo, hi, k);
      }
    }
  }

  lemma {:induction false} PartitionStart(segs: seq<Range>, lo: int, hi: int, j: nat)
    requires Partition(segs, lo, hi) && j < |segs|
    ensures lo <= segs[j].start
  {
    if j == 0 {
    } else {
      PartitionStart(segs, lo, hi, j - 1);
      assert !segs[j - 1].IsEmpty() && segs[j - 1].end == segs[j].start;
    }
  }

  lemma {:induction false} PartitionEnd(segs: seq<Range>, lo: int, hi: int, k: nat)
    requires Partition(segs, lo, hi) && k < |segs|
    ensures segs[k].end <= hi
    decreases |segs| - k
  {
    if k == |segs| - 1 {
    } else {
      PartitionEnd(segs, lo, hi, k + 1);
      assert !segs[k + 1].IsEmpty() && segs[k].end == segs[k + 1].start;
    }
  }

  lemma {:induction false} PartitionReaches(segs: seq<Range>, lo: int, hi: int, x: int, k: nat)
    requires Partition(segs, lo, hi) && k < |segs| && lo <= x < segs[k].end
    ensures Covers(segs, x)
  {
    if segs[k].start <= x {
      assert segs[k].Contains(x);
    } else {
      assert k > 0 && segs[k - 1].end == segs[k].start;
      PartitionReaches(segs, lo, hi, x, k - 1);
    }
  }

  /** A partition has exactly the blocks of the range it cuts up. */
  lemma PartitionCovers(segs: seq<Range>, lo: int, hi: int, x: int)
    requires Partition(segs, lo, hi)
    ensures Covers(segs, x) <==> lo <= x < hi
  {
    if Covers(segs, x) {
      var k :| 0 <= k < |segs| && segs[k].Contains(x);
      PartitionSpan(segs, lo, hi, k, k);
    }
    if lo <= x < hi {
      PartitionReaches(segs, lo, hi, x, |segs| - 1);
    }
  }

  lemma PartitionPush(segs: seq<Range>, lo: int, mid: int, hi: int)
    requires Partition(segs, lo, mid) && (segs == [] ==> lo == mid) && mid < hi
    ensures Partition(segs + [Range(mid, hi)], lo, hi)
  {
    var more := segs + [Range(mid, hi)];
    forall k | 0 <= k < |more| - 1 ensures more[k].end == more[k + 1].start {
      if k < |segs| - 1 {
        assert segs[k].end == segs[k + 1].start;
      }
    }
    forall k | 0 <= k < |more| ensures !more[k].IsEmpty() {
      if k < |segs| {
        assert !segs[k].IsEmpty();
      }
    }
  }

  /** The lists one after another. */
  function Flatten(parts: seq<seq<Range>>): seq<Range> {
    if parts == [] then [] else Flatten(parts[..|parts| - 1]) + parts[|parts| - 1]
  }

  lemma FlattenPush(parts: seq<seq<Range>>, part: seq<Range>)
    ensures Flatten(parts + [part]) == Flatten(parts) + part
  {
    assert (parts + [part])[..|parts|] == parts;
  }

  /** `parts` cuts up each gap in turn. */
  ghost predicate CutsUp(gaps: seq<Range>, parts: seq<seq<Range>>) {
    && |parts| == |gaps|
    && forall k :: 0 <= k < |gaps| ==> Partition(parts[k], gaps[k].start, gaps[k].end)
  }

  lemma {:induction false} FlattenCovers(gaps: seq<Range>, parts: seq<seq<Range>>, x: int)
    requires CutsUp(gaps, parts)
    ensures Covers(Flatten(parts), x) <==> Covers(gaps, x)
    decreases |gaps|
  {
    if gaps == [] {
      assert parts == [];
    } else {
      var n := |gaps| - 1;
      FlattenCovers(gaps[..n], parts[..n], x);
      PartitionCovers(parts[n], gaps[n].start, gaps[n].end, x);
      CoversConcat(Flatten(parts[..n]), parts[n], x);
      assert gaps == gaps[..n] + [gaps[n]];
      CoversConcat(gaps[..n], [gaps[n]], x);
      CoversOne(gaps[n], x);
    }
  }

  lemma {:induction false} FlattenOrdered(gaps: seq<Range>, parts: seq<seq<Range>>)
    requires CutsUp(gaps, parts) && Ordered(gaps) && AllNonEmpty(gaps)
    ensures Ordered(Flatten(parts)) && AllNonEmpty(Flatten(parts))
    ensures forall k :: 0 <= k < |Flatten(parts)| && gaps != [] ==> Flatten(parts)[k].end <= gaps[|gaps| - 1].end
    decreases |gaps|
  {
    if gaps == [] {
      assert parts == [];
    } else {
      var n := |gaps| - 1;
      var before, last := Flatten(parts[..n]), parts[n];
      FlattenOrdered(gaps[..n], parts[..n]);
      forall k | 0 <= k < |last| ensures gaps[n].start <= last[k].start && last[k].end <= gaps[n].end && !last[k].IsEmpty() {
        PartitionSpan(last, gaps[n].start, gaps[n].end, k, k);
      }
      forall k | 0 <= k < |before| ensures before[k].end <= gaps[n].start {
        if n > 0 {
          assert gaps[n - 1].end <= gaps[n].start;
        }
      }
      forall j, k | 0 <= j < k < |last| ensures last[j].end <= last[k].start {
        PartitionSpan(last, gaps[n].start, gaps[n].end, j, k);
      }
    }
  }

  // ----- by gas -----

  predicate Known(infos: Infos, b: int) {
    b in infos && infos[b].blockNumber == b
  }

  function GasOf(infos: Infos, b: int): nat {
    if b in infos then infos[b].gasUsed else 0
  }

  /** Gas of the blocks (lo, hi]. */
  function Gas(infos: Infos, lo: int, hi: int): nat
    decreases hi - lo
  {
    if hi <= lo then 0 else Gas(infos, lo, hi - 1) + GasOf(infos, hi)
  }

  /**
   A segment the planner may issue: no longer than a positive interval, and over the gas limit only
   when the excess is its last block's alone, all blocks before it using no gas.
   */
  ghost predicate Fits(infos: Infos, limit: nat, interval: int, s: Range) {
    && s.start < s.end
    && (interval > 0 ==> s.end - s.start <= interval)
    && (Gas(infos, s.start, s.end) <= limit || Gas(infos, s.start, s.end - 1) == 0)
  }

  /** Gas is what the records say: nothing for no blocks, a block's own record, and the sum of adjacent stretches. */
  lemma {:induction false} GasIsTheSum(infos: Infos, lo: int, mid: int, hi: int)
    requires lo <= mid <= hi
    ensures Gas(infos, lo, hi) == Gas(infos, lo, mid) + Gas(infos, mid, hi)
    ensures lo == hi ==> Gas(infos, lo, hi) == 0
    ensures hi == lo + 1 && hi in infos ==> Gas(infos, lo, hi) == infos[hi].gasUsed
    decreases hi - mid
  {
    if mid < hi {
      GasIsTheSum(infos, lo, mid, hi - 1);
    }
    if hi == lo + 1 {
      assert Gas(infos, lo, hi - 1) == 0;
    }
  }

  lemma {:induction false} NoGasMeansEmptyBlocks(infos: Infos, lo: int, hi: int)
    requires lo <= hi
    ensures Gas(infos, lo, hi) == 0 <==> forall b :: lo < b <= hi && b in infos ==> infos[b].gasUsed == 0
    decreases hi - lo
  {
    if lo < hi {
      NoGasMeansEmptyBlocks(infos, lo, hi - 1);
      assert Gas(infos, lo, hi) == Gas(infos, lo, hi - 1) + GasOf(infos, hi);
    }
  }

  /**
   What a segment may be: not empty, no longer than a positive interval, and within the gas limit unless
   all its blocks but the last use none.
   */
  lemma FitsInRecords(infos: Infos, limit: nat, interval: int, s: Range)
    ensures Fits(infos, limit, interval, s) <==>
            && s.start < s.end
            && (interval <= 0 || s.end - s.start <= interval)
            && (|| Gas(infos, s.start, s.end) <= limit
                || forall b :: s.start < b < s.end && b in infos ==> infos[b].gasUsed == 0)
  {
    if s.start < s.end {
      NoGasMeansEmptyBlocks(infos, s.start, s.end - 1);
    }
  }

  ghost predicate AllFit(infos: Infos, limit: nat, interval: int, segs: seq<Range>) {
    forall k :: 0 <= k < |segs| ==> Fits(infos, limit, interval, segs[k])
  }

  /** Every segment but the last would stop fitting with one more block. */
  ghost predicate Greedy(infos: Infos, limit: nat, interval: int, segs: seq<Range>) {
    && AllFit(infos, limit, interval, segs)
    && forall k :: 0 <= k < |segs| - 1 ==> !Fits(infos, limit, interval, Range(segs[k].start, segs[k].end + 1))
  }

  lemma {:induction false} GasMonotone(infos: Infos, lo: int, lo': int, hi': int, hi: int)
    requires lo <= lo' && hi' <= hi
    ensures Gas(infos, lo', hi') <= Gas(infos, lo, hi)
    decreases hi - hi', lo' - lo, hi' - lo'
  {
    if hi' < hi {
      GasMonotone(infos, lo, lo', hi', hi - 1);
    } else if hi > lo' {
      GasMonotone(infos, lo, lo', hi - 1, hi - 1);
    }
  }

  /** A segment over the limit owes all of its gas to its last block. */
  lemma OversizedSegmentIsOneBlock(infos: Infos, limit: nat, interval: int, s: Range)
    requires Fits(infos, limit, interval, s) && Gas(infos, s.start, s.end) > limit
    ensures s.end in infos && infos[s.end].gasUsed > limit
    ensures forall b :: s.start < b < s.end && b in infos ==> infos[b].gasUsed == 0
  {
    NoGasMeansEmptyBlocks(infos, s.start, s.end - 1);
  }

  /** Any non-empty part of a fitting segment fits. */
  lemma FitsIsHereditary(infos: Infos, limit: nat, interval: int, s: Range, part: Range)
    requires Fits(infos, limit, interval, s)
    requires s.start <= part.start < part.end <= s.end
    ensures Fits(infos, limit, interval, part)
  {
    GasMonotone(infos, s.start, part.start, part.end, s.end);
    GasMonotone(infos, s.start, part.start, part.end - 1, s.end - 1);
    if part.end < s.end {
      GasMonotone(infos, s.start, part.start, part.end, s.end - 1);
    }
  }

  /** The greedy cut points stay at or ahead of those of any other fitting partition. */
  lemma {:induction false} GreedyStaysAhead(
    infos: Infos, limit: nat, interval: int, greedy: seq<Range>, other: seq<Range>, lo: int, hi: int, k: nat)
    requires Partition(greedy, lo, hi) && Greedy(infos, limit, interval, greedy)
    requires Partition(other, lo, hi) && AllFit(infos, limit, interval, other)
    requires k < |greedy| && k < |other|
    ensures other[k].end <= greedy[k].end
  {
    if k > 0 {
      GreedyStaysAhead(infos, limit, interval, greedy, other, lo, hi, k - 1);
      assert greedy[k - 1].end == greedy[k].start && other[k - 1].end == other[k].start;
    }
    PartitionSpan(other, lo, hi, k, k);
    assert Fits(infos, limit, interval, greedy[k]);
    if greedy[k].end < other[k].end {
      FitsIsHereditary(infos, limit, interval, other[k], Range(greedy[k].start, greedy[k].end + 1));
      assert false;
    }
  }

  /** No partition into fitting segments has fewer pieces than the greedy one. */
  lemma GreedyIsOptimal(
    infos: Infos, limit: nat, interval: int, greedy: seq<Range>, other: seq<Range>, lo: int, hi: int)
    requires Partition(greedy, lo, hi) && Greedy(infos, limit, interval, greedy)
    requires Partition(other, lo, hi) && AllFit(infos, limit, interval, other)
    ensures |greedy| <= |other|
  {
    if |other| < |greedy| {
      if other == [] {
        PartitionSpan(greedy, lo, hi, 0, 0);
      } else {
        var k := |other| - 1;
        GreedyStaysAhead(infos, limit, interval, greedy, other, lo, hi, k);
        PartitionSpan(greedy, lo, hi, k, k + 1);
      }
    }
  }

  /** No segment would still fit with one more block. */
  ghost predicate AllFull(infos: Infos, limit: nat, interval: int, segs: seq<Range>) {
    forall k :: 0 <= k < |segs| ==> !Fits(infos, limit, interval, Range(segs[k].start, segs[k].end + 1))
  }

  lemma OneMoreIsFull(infos: Infos, limit: nat, interval: int, segs: seq<Range>, s: Range)
    requires AllFit(infos, limit, interval, segs) && Fits(infos, limit, interval, s)
    requires AllFull(infos, limit, interval, segs) && !Fits(infos, limit, interval, Range(s.start, s.end + 1))
    ensures AllFit(infos, limit, interval, segs + [s]) && AllFull(infos, limit, interval, segs + [s])
  {
  }

  /** The greedy scan before block `b`: closed segments up to `current`, and an open one that fits. */
  ghost predicate GasSoFar(
    infos: Infos, limit: nat, interval: int, start: int, segs: seq<Range>, current: int, b: int)
  {
    && start <= current < b && (current == b - 1 ==> b == start + 1)
    && Partition(segs, start, current) && (segs == [] <==> current == start)
    && AllFit(infos, limit, interval, segs)
    && AllFull(infos, limit, interval, segs)
    && (current < b - 1 ==> Fits(infos, limit, interval, Range(current, b - 1)))
  }

  lemma NextDoesNotFit(infos: Infos, limit: nat, interval: int, current: int, b: int)
    requires current < b - 1
    requires var gas := Gas(infos, current, b - 1);
             (gas > 0 && gas + GasOf(infos, b) > limit) || (interval > 0 && b - current > interval)
    ensures !Fits(infos, limit, interval, Range(current, b))
  {
    assert Gas(infos, current, b) == Gas(infos, current, b - 1) + GasOf(infos, b);
  }

  /** Closing the open segment before a block that no longer fits. */
  lemma CutHere(infos: Infos, limit: nat, interval: int, start: int, segs: seq<Range>, current: int, b: int)
    requires GasSoFar(infos, limit, interval, start, segs, current, b)
    requires var gas := Gas(infos, current, b - 1);
             (gas > 0 && gas + GasOf(infos, b) > limit) || (interval > 0 && b - current > interval)
    ensures GasSoFar(infos, limit, interval, start, segs + [Range(current, b - 1)], b - 1, b + 1)
    ensures Gas(infos, b - 1, b) == GasOf(infos, b)
  {
    assert Gas(infos, b - 1, b - 1) == 0;
    PartitionPush(segs, start, current, b - 1);
    NextDoesNotFit(infos, limit, interval, current, b);
    OneMoreIsFull(infos, limit, interval, segs, Range(current, b - 1));
  }

  /** The open segment takes one more block that still fits. */
  lemma TakeBlock(infos: Infos, limit: nat, interval: int, start: int, segs: seq<Range>, current: int, b: int)
    requires GasSoFar(infos, limit, interval, start, segs, current, b)
    requires var gas := Gas(infos, current, b - 1);
             !((gas > 0 && gas + GasOf(infos, b) > limit) || (interval > 0 && b - current > interval))
    ensures GasSoFar(infos, limit, interval, start, segs, current, b + 1)
  {
  }

  lemma CloseLast(infos: Infos, limit: nat, interval: int, start: int, segs: seq<Range>, current: int, end: int)
    requires GasSoFar(infos, limit, interval, start, segs, current, end + 1) && current < end
    ensures Partition(segs + [Range(current, end)], start, end)
    ensures Greedy(infos, limit, interval, segs + [Range(current, end)])
  {
    PartitionPush(segs, start, current, end);
  }

  /** The greedy cut of one gap; an error if any block of it has no consistent gas record. */
  method SplitGapByGas(gap: Range, limit: nat, interval: int, infos: Infos) returns (r: Result<seq<Range>>)
    ensures r.Ok? ==> Partition(r.value, gap.start, gap.end) && Greedy(infos, limit, interval, r.value)
    ensures r.Ok? && interval > 0 ==> AllWithin(interval, r.value)
    ensures r.Err? <==> exists b :: gap.start < b <= gap.end && !Known(infos, b)
  {
    var segs: seq<Range> := [];
    var current, gas := gap.start, 0;
    var b := gap.start + 1;
    while b <= gap.end
      invariant gap.start < b && (b <= gap.end + 1 || b == gap.start + 1)
      invariant GasSoFar(infos, limit, interval, gap.start, segs, current, b)
      invariant gas == Gas(infos, current, b - 1)
      invariant forall c :: gap.start < c < b ==> Known(infos, c)
    {
      if b !in infos || infos[b].blockNumber != b {
        assert !Known(infos, b);
        return Err;
      }
      var g := infos[b].gasUsed;
      if (gas > 0 && gas + g > limit) || (interval > 0 && b - current > interval) {
        CutHere(infos, limit, interval, gap.start, segs, current, b);
        segs := segs + [Range(current, b - 1)];
        current := b - 1;
        gas := g;
      } else {
        TakeBlock(infos, limit, interval, gap.start, segs, current, b);
        gas := gas + g;
      }
      b := b + 1;
    }
    if current < gap.end {
      CloseLast(infos, limit, interval, gap.start, segs, current, gap.end);
      segs := segs + [Range(current, gap.end)];
    }
    r := Ok(segs);
  }

  /** Every gap is cut greedily, and the flat list is those cuts one after another. */
  ghost predicate IsGasPlan(
    infos: Infos, limit: nat, interval: int, gaps: seq<Range>, parts: seq<seq<Range>>, ranges: seq<Range>)
  {
    && CutsUp(gaps, parts)
    && (forall k :: 0 <= k < |parts| ==> Greedy(infos, limit, interval, parts[k]))
    && ranges == Flatten(parts)
  }

  /**
   `get_ranges_to_prove_by_gas`. The source ends by popping an empty last range; that branch is shown
   to be unreachable.
   */
  method RangesByGas(gaps: seq<Range>, limit: nat, interval: int, infos: Infos)
    returns (r: Result<seq<Range>>, ghost parts: seq<seq<Range>>)
    ensures r.Ok? ==> IsGasPlan(infos, limit, interval, gaps, parts, r.value) && AllNonEmpty(r.value)
    ensures r.Err? <==> exists k, b :: 0 <= k < |gaps| && gaps[k].start < b <= gaps[k].end && !Known(infos, b)
  {
    var ranges: seq<Range> := [];
    parts := [];
    for n := 0 to |gaps|
      invariant |parts| == n
      invariant CutsUp(gaps[..n], parts) && ranges == Flatten(parts) && AllNonEmpty(ranges)
      invariant forall k :: 0 <= k < n ==> Greedy(infos, limit, interval, parts[k])
      invariant forall k, b :: 0 <= k < n && gaps[k].start < b <= gaps[k].end ==> Known(infos, b)
    {
      var cut := SplitGapByGas(gaps[n], limit, interval, infos);
      if cut.Err? {
        return Err, parts;
      }
      FlattenPush(parts, cut.value);
      parts := parts + [cut.value];
      ranges := ranges + cut.value;
    }
    assert gaps[..|gaps|] == gaps;
    if |ranges| > 0 {
      if ranges[|ranges| - 1].IsEmpty() {
        assert false;
      }
    }
    r := Ok(ranges);
  }

  // ----- by blocks -----

  /** Full-size chunks, with at most the last one shorter. */
  ghost predicate Chunked(interval: int, segs: seq<Range>) {
    && (forall k :: 0 <= k < |segs| ==> segs[k].end - segs[k].start <= interval)
    && forall k :: 0 <= k < |segs| - 1 ==> segs[k].end - segs[k].start == interval
  }

  ghost predicate AllWithin(interval: int, ranges: seq<Range>) {
    forall k :: 0 <= k < |ranges| ==> ranges[k].end - ranges[k].start <= interval
  }

  /** The chunks of all gaps together are non-empty and no longer than the interval. */
  lemma {:induction false} FlattenWithin(interval: int, gaps: seq<Range>, parts: seq<seq<Range>>)
    requires CutsUp(gaps, parts) && forall k :: 0 <= k < |parts| ==> Chunked(interval, parts[k])
    ensures AllNonEmpty(Flatten(parts)) && AllWithin(interval, Flatten(parts))
    decreases |parts|
  {
    if parts != [] {
      var n := |parts| - 1;
      FlattenWithin(interval, gaps[..n], parts[..n]);
      assert Partition(parts[n], gaps[n].start, gaps[n].end) && Chunked(interval, parts[n]);
    }
  }

  /** What is left of `n` blocks for the last chunk, once whole intervals have been taken off. */
  function Rest(n: int, interval: int): (rest: int)
    requires n > 0 && interval > 0
    ensures 1 <= rest <= interval
    decreases n
  {
    if n <= interval then n else Rest(n - interval, interval)
  }

  lemma {:induction false} LastChunkIsTheRest(interval: int, segs: seq<Range>, lo: int, hi: int)
    requires interval > 0 && lo < hi && Partition(segs, lo, hi) && Chunked(interval, segs)
    ensures segs != [] && segs[|segs| - 1].end == hi && hi - segs[|segs| - 1].start == Rest(hi - lo, interval)
    decreases |segs|
  {
    if |segs| > 1 {
      assert segs[0].end - segs[0].start == interval;
      PartitionTail(segs, lo, hi);
      PartitionSpan(segs, lo, hi, 1, 1);
      assert !segs[1].IsEmpty() && segs[0].end == segs[0 + 1].start;
      LastChunkIsTheRest(interval, segs[1..], lo + interval, hi);
    } else {
      assert segs[0].end - segs[0].start <= interval;
    }
  }

  lemma PartitionTail(segs: seq<Range>, lo: int, hi: int)
    requires Partition(segs, lo, hi) && |segs| > 1
    ensures Partition(segs[1..], segs[0].end, hi)
  {
    var rest := segs[1..];
    assert segs[0].end == segs[0 + 1].start;
    forall k | 0 <= k < |rest| - 1 ensures rest[k].end == rest[k + 1].start {
      assert segs[k + 1].end == segs[k + 2].start;
    }
  }

  /** All chunks of all gaps, less the very last chunk when it is short. */
  ghost predicate IsBlockPlan(interval: int, gaps: seq<Range>, parts: seq<seq<Range>>, ranges: seq<Range>) {
    && CutsUp(gaps, parts)
    && (forall k :: 0 <= k < |parts| ==> Chunked(interval, parts[k]))
    && ranges == DropShortLast(interval, Flatten(parts))
  }

  function DropShortLast(interval: int, ranges: seq<Range>): seq<Range> {
    if ranges != [] && ranges[|ranges| - 1].end - ranges[|ranges| - 1].start < interval
    then ranges[..|ranges| - 1] else ranges
  }

  method ChunkGap(gap: Range, interval: int) returns (segs: seq<Range>)
    requires interval > 0
    ensures Partition(segs, gap.start, gap.end) && Chunked(interval, segs)
  {
    segs := [];
    var current := gap.start;
    while current < gap.end
      invariant current == gap.start || current <= gap.end
      invariant Partition(segs, gap.start, current) && (segs == [] <==> current == gap.start)
      invariant Chunked(interval, segs)
      invariant current < gap.end ==> forall k :: 0 <= k < |segs| ==> segs[k].end - segs[k].start == interval
      decreases gap.end - current
    {
      var end := Min(current + interval, gap.end);
      PartitionPush(segs, gap.start, current, end);
      segs := segs + [Range(current, end)];
      current := end;
    }
  }

  /** `get_ranges_to_prove_by_blocks`. A zero or negative interval would never advance. */
  method RangesByBlocks(gaps: seq<Range>, interval: int) returns (ranges: seq<Range>, ghost parts: seq<seq<Range>>)
    requires interval > 0
    ensures IsBlockPlan(interval, gaps, parts, ranges)
    ensures AllNonEmpty(ranges) && AllWithin(interval, ranges)
  {
    ranges := [];
    parts := [];
    for n := 0 to |gaps|
      invariant CutsUp(gaps[..n], parts) && ranges == Flatten(parts)
      invariant forall k :: 0 <= k < |parts| ==> Chunked(interval, parts[k])
    {
      var segs := ChunkGap(gaps[n], interval);
      FlattenPush(parts, segs);
      parts := parts + [segs];
      ranges := ranges + segs;
    }
    assert gaps[..|gaps|] == gaps;
    FlattenWithin(interval, gaps, parts);
    if |ranges| > 0 {
      var last := ranges[|ranges| - 1];
      if last.end - last.start < interval {
        ranges := ranges[..|ranges| - 1];
      }
    }
  }
}

/** Splitting a proving range into near-equal pieces. */
module RangeSplit {
  import opened Prelude
  import opened RangeGaps
  import opened Planners

  const U64_MAX: nat := 0xFFFF_FFFF_FFFF_FFFF

  type u64 = x: nat | x <= U64_MAX

  const MAX_SPLITS: nat := 16

  /** A validated split count. */
  type SplitCount = c: nat | 1 <= c <= MAX_SPLITS witness 1

  function SaturatingAdd(a: u64, b: u64): u64 {
    if a + b <= U64_MAX then a + b else U64_MAX
  }

  function CeilDiv(a: nat, b: nat): nat
    requires b > 0
  {
    (a + b - 1) / b
  }

  /** `CeilDiv(a, b)` is the least `m` with `a <= b * m`. */
  lemma CeilDivIsLeast(a: nat, b: nat, m: nat)
    requires b > 0
    ensures a <= b * CeilDiv(a, b)
    ensures a <= b * m ==> CeilDiv(a, b) <= m
  {
    var q := CeilDiv(a, b);
    assert a + b - 1 == b * q + (a + b - 1) % b;
    if q > m {
      MulMonotone(b, m + 1, q);
    }
  }

  lemma MulMonotone(b: nat, x: nat, y: nat)
    requires x <= y
    ensures b * x <= b * y
  {
  }

  /** The number of pieces the split aims for: never more than there are blocks. */
  function Segments(count: SplitCount, start: u64, end: u64): nat
    requires start < end
  {
    Min(count, end - start)
  }

  function PieceSize(count: SplitCount, start: u64, end: u64): nat
    requires start < end
  {
    CeilDiv(end - start, Segments(count, start, end))
  }

  ghost predicate NoLongerThan(segs: seq<Range>, m: int) {
    forall k :: 0 <= k < |segs| ==> segs[k].end - segs[k].start <= m
  }

  /** Full steps from `start` on, and what is left. */
  function Pieces(start: int, end: int, step: int): seq<Range>
    requires step > 0
    decreases end - start
  {
    if end <= start then [] else [Range(start, Min(start + step, end))] + Pieces(Min(start + step, end), end, step)
  }

  lemma PieceSizeIsPositive(count: SplitCount, start: u64, end: u64)
    requires start < end
    ensures PieceSize(count, start, end) > 0
  {
    StepInRange(end - start, Segments(count, start, end));
  }

  /** The pieces of a range, in order. */
  function SplitOf(count: SplitCount, start: u64, end: u64): seq<Range>
    requires start < end
  {
    PieceSizeIsPositive(count, start, end);
    Pieces(start, end, PieceSize(count, start, end))
  }

  /** `RangeSplitCount::split`. */
  method Split(count: SplitCount, start: u64, end: u64) returns (r: Result<seq<Range>>)
    ensures r.Err? <==> end <= start
    ensures r.Ok? ==>
              && Partition(r.value, start, end)
              && 1 <= |r.value| && |r.value| <= count && |r.value| <= end - start
              && NoLongerThan(r.value, PieceSize(count, start, end))
              && r.value == SplitOf(count, start, end)
  {
    if end < start || end - start == 0 {
      return Err;
    }
    var total := end - start;
    if count == 1 {
      CeilDivIsLeast(total, 1, total);
      CeilDivIsLeast(total, 1, CeilDiv(total, 1));
      assert Pieces(start, end, total) == [Range(start, end)] + Pieces(end, end, total);
      return Ok([Range(start, end)]);
    }
    var ranges := CutEvenly(start, end, Min(count, total));
    r := Ok(ranges);
  }

  /** The splitting loop, for at least one and at most as many segments as blocks. */
  method CutEvenly(start: u64, end: u64, segments: nat) returns (ranges: seq<Range>)
    requires start < end && 1 <= segments <= end - start
    ensures Partition(ranges, start, end)
    ensures 1 <= |ranges| <= segments
    ensures NoLongerThan(ranges, CeilDiv(end - start, segments))
    ensures CeilDiv(end - start, segments) > 0 && ranges == Pieces(start, end, CeilDiv(end - start, segments))
  {
    var step := CeilDiv(end - start, segments);
    StepInRange(end - start, segments);
    TimesIsProduct(segments, step);
    ranges := [];
    var cur: u64 := start;
    var i := 0;
    while i < segments && cur < end
      invariant 0 <= i <= segments && |ranges| == i
      invariant start <= cur <= end
      invariant Partition(ranges, start, cur) && (ranges == [] <==> cur == start)
      invariant NoLongerThan(ranges, step)
      invariant end - cur <= Times(segments - i, step)
      invariant ranges + Pieces(cur, end, step) == Pieces(start, end, step)
      decreases segments - i
    {
      var next: u64 := Min(SaturatingAdd(cur, step), end);
      TakePiece(ranges, start, cur, next, end, step);
      ranges := ranges + [Range(cur, next)];
      cur := next;
      i := i + 1;
    }
  }

  /** The pieces already cut and one more. */
  lemma TakePiece(ranges: seq<Range>, start: int, cur: int, next: int, end: int, step: int)
    requires step > 0 && cur < end && next == Min(cur + step, end)
    requires Partition(ranges, start, cur) && (ranges == [] ==> cur == start) && NoLongerThan(ranges, step)
    ensures Partition(ranges + [Range(cur, next)], start, next) && NoLongerThan(ranges + [Range(cur, next)], step)
    ensures ranges + Pieces(cur, end, step) == (ranges + [Range(cur, next)]) + Pieces(next, end, step)
  {
    PartitionPush(ranges, start, cur, next);
    assert ranges + ([Range(cur, next)] + Pieces(next, end, step)) == (ranges + [Range(cur, next)]) + Pieces(next, end, step);
  }

  lemma StepInRange(total: nat, segments: nat)
    requires 1 <= segments <= total
    ensures 1 <= CeilDiv(total, segments) <= total
    ensures total <= segments * CeilDiv(total, segments)
  {
    CeilDivIsLeast(total, segments, total);
    MulMonotone(total, 1, segments);
    CeilDivIsLeast(total, segments, 0);
  }

  /** `n * step` by repeated addition. */
  ghost function Times(n: nat, step: nat): nat {
    if n == 0 then 0 else step + Times(n - 1, step)
  }

  lemma {:induction false} TimesIsProduct(n: nat, step: nat)
    ensures Times(n, step) == n * step
  {
    if n == 0 {
    } else {
      TimesIsProduct(n - 1, step);
      assert n * step == (n - 1) * step + step;
    }
  }

  lemma {:induction false} PiecesBoundLength(segs: seq<Range>, lo: int, hi: int, m: nat, k: nat)
    requires Partition(segs, lo, hi) && NoLongerThan(segs, m) && k < |segs|
    ensures segs[k].end - lo <= (k + 1) * m
  {
    if k == 0 {
    } else {
      PiecesBoundLength(segs, lo, hi, m, k - 1);
      assert segs[k - 1].end == segs[k].start;
      assert (k + 1) * m == k * m + m;
    }
  }

  /** Non-empty pieces are no more than there are blocks. */
  lemma {:induction false} PiecesAreAtMostBlocks(segs: seq<Range>, lo: int, hi: int, k: nat)
    requires Partition(segs, lo, hi) && k < |segs|
    ensures segs[k].end - lo >= k + 1
  {
    assert !segs[k].IsEmpty();
    if k > 0 {
      PiecesAreAtMostBlocks(segs, lo, hi, k - 1);
      assert segs[k - 1].end == segs[k].start;
    }
  }

  /**
   The split is as even as can be: any other way to cut the range into at most `count` pieces has a
   piece at least as long as the longest one of the split.
   */
  lemma SplitMinimisesLargestPiece(count: SplitCount, start: u64, end: u64, other: seq<Range>, m: nat)
    requires start < end && Partition(other, start, end) && |other| <= count
    requires forall k :: 0 <= k < |other| ==> other[k].end - other[k].start <= m
    ensures forall k :: 0 <= k < |SplitOf(count, start, end)| ==>
                          SplitOf(count, start, end)[k].end - SplitOf(count, start, end)[k].start <= m
  {
    var segments := Segments(count, start, end);
    PiecesAreAtMostBlocks(other, start, end, |other| - 1);
    assert |other| <= segments;
    PiecesBoundLength(other, start, end, m, |other| - 1);
    MulMonotone(m, |other|, segments);
    CeilDivIsLeast(end - start, segments, m);
    PieceSizeIsPositive(count, start, end);
    PiecesAreWithinStep(start, end, PieceSize(count, start, end));
  }

  lemma {:induction false} PiecesAreWithinStep(start: int, end: int, step: int)
    requires step > 0
    ensures NoLongerThan(Pieces(start, end, step), step)
    decreases end - start
  {
    if start < end {
      PiecesAreWithinStep(Min(start + step, end), end, step);
    }
  }
}

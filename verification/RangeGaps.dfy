/** Half-open block ranges, gap finding and merging. */
module RangeGaps {
  import opened Prelude

  datatype Range = Range(start: int, end: int) {
    predicate Contains(x: int) {
      start <= x < end
    }

    predicate IsEmpty() {
      end <= start
    }
  }

  /** Some listed range contains `x`. Empty and reversed ranges contain nothing. */
  ghost predicate Covers(ranges: seq<Range>, x: int) {
    exists k :: 0 <= k < |ranges| && ranges[k].Contains(x)
  }

  ghost predicate SameBlocks(a: seq<Range>, b: seq<Range>) {
    forall x :: Covers(a, x) <==> Covers(b, x)
  }

  ghost predicate SortedByStart(ranges: seq<Range>) {
    forall j, k :: 0 <= j < k < |ranges| ==> ranges[j].start <= ranges[k].start
  }

  ghost predicate AllNonEmpty(ranges: seq<Range>) {
    forall k :: 0 <= k < |ranges| ==> !ranges[k].IsEmpty()
  }

  /** Sorted with at least one block between neighbours: nothing overlaps and nothing touches. */
  ghost predicate Separated(ranges: seq<Range>) {
    forall j, k :: 0 <= j < k < |ranges| ==> ranges[j].end < ranges[k].start
  }

  ghost predicate Canonical(ranges: seq<Range>) {
    AllNonEmpty(ranges) && Separated(ranges)
  }

  lemma CoversConcat(a: seq<Range>, b: seq<Range>, x: int)
    ensures Covers(a + b, x) <==> Covers(a, x) || Covers(b, x)
  {
    if Covers(a, x) {
      var k :| 0 <= k < |a| && a[k].Contains(x);
      assert (a + b)[k].Contains(x);
    }
    if Covers(b, x) {
      var k :| 0 <= k < |b| && b[k].Contains(x);
      assert (a + b)[|a| + k].Contains(x);
    }
    if Covers(a + b, x) {
      var k :| 0 <= k < |a + b| && (a + b)[k].Contains(x);
      if k < |a| {
        assert a[k].Contains(x);
      } else {
        assert b[k - |a|].Contains(x);
      }
    }
  }

  lemma CoversOne(r: Range, x: int)
    ensures Covers([r], x) <==> r.Contains(x)
  {
    assert [r][0] == r;
  }

  /** The first block of a canonical list is its first range's start, and that range ends first. */
  lemma FirstRangeIsDetermined(a: seq<Range>, b: seq<Range>)
    requires Canonical(a) && Canonical(b) && SameBlocks(a, b) && a != [] && b != []
    ensures a[0] == b[0]
  {
    FirstRangeNotLater(a, b);
    FirstRangeNotLater(b, a);
  }

  lemma FirstRangeNotLater(a: seq<Range>, b: seq<Range>)
    requires Canonical(a) && Canonical(b) && SameBlocks(a, b) && a != [] && b != []
    ensures a[0].start <= b[0].start
    ensures a[0].start == b[0].start ==> b[0].end <= a[0].end
  {
    assert b[0].Contains(b[0].start);
    assert Covers(b, b[0].start);
    assert Covers(a, b[0].start);
    forall k | 0 <= k < |a| ensures !a[k].Contains(a[0].end) {
      assert k > 0 ==> a[0].end < a[k].start;
    }
    assert !Covers(a, a[0].end);
    assert !Covers(b, a[0].end);
    assert !b[0].Contains(a[0].end);
  }

  /** A set of blocks has one canonical list of ranges. */
  lemma {:induction false} CanonicalIsUnique(a: seq<Range>, b: seq<Range>)
    requires Canonical(a) && Canonical(b) && SameBlocks(a, b)
    ensures a == b
    decreases |a|
  {
    if a == [] || b == [] {
      if a != [] {
        assert a[0].Contains(a[0].start);
        assert Covers(a, a[0].start);
      }
      if b != [] {
        assert b[0].Contains(b[0].start);
        assert Covers(b, b[0].start);
      }
    } else {
      FirstRangeIsDetermined(a, b);
      assert SameBlocks(a[1..], b[1..]) by {
        forall x ensures Covers(a[1..], x) <==> Covers(b[1..], x) {
          TailCovers(a, x);
          TailCovers(b, x);
        }
      }
      CanonicalIsUnique(a[1..], b[1..]);
      assert a == [a[0]] + a[1..] && b == [b[0]] + b[1..];
    }
  }

  lemma TailCovers(a: seq<Range>, x: int)
    requires Canonical(a) && a != []
    ensures Covers(a[1..], x) <==> Covers(a, x) && !a[0].Contains(x)
  {
    assert a == [a[0]] + a[1..];
    CoversConcat([a[0]], a[1..], x);
    CoversOne(a[0], x);
    if Covers(a[1..], x) {
      var k :| 0 <= k < |a[1..]| && a[1..][k].Contains(x);
      assert a[0].end < a[k + 1].start;
    }
  }

  method InsertSorted(sorted: seq<Range>, r: Range) returns (longer: seq<Range>)
    requires SortedByStart(sorted)
    ensures SortedByStart(longer)
    ensures multiset(longer) == multiset(sorted) + multiset{r}
  {
    var at := 0;
    while at < |sorted| && (sorted[at].start < r.start || (sorted[at].start == r.start && sorted[at].end <= r.end))
      invariant 0 <= at <= |sorted|
      invariant forall j :: 0 <= j < at ==> sorted[j].start <= r.start
    {
      at := at + 1;
    }
    longer := sorted[..at] + [r] + sorted[at..];
    SplicedIn(sorted, at, r);
  }

  lemma SortedJoin(lo: seq<Range>, hi: seq<Range>, pivot: int)
    requires SortedByStart(lo) && SortedByStart(hi)
    requires forall j :: 0 <= j < |lo| ==> lo[j].start <= pivot
    requires forall j :: 0 <= j < |hi| ==> pivot <= hi[j].start
    ensures SortedByStart(lo + hi)
  {
  }

  lemma SplicedIn(sorted: seq<Range>, at: nat, r: Range)
    requires SortedByStart(sorted) && at <= |sorted|
    requires forall j :: 0 <= j < at ==> sorted[j].start <= r.start
    requires at < |sorted| ==> r.start <= sorted[at].start
    ensures SortedByStart(sorted[..at] + [r] + sorted[at..])
    ensures multiset(sorted[..at] + [r] + sorted[at..]) == multiset(sorted) + multiset{r}
  {
    var lo, hi := sorted[..at], sorted[at..];
    SortedJoin(lo, [r], r.start);
    SortedJoin(lo + [r], hi, r.start);
    SplicedContents(lo, r, hi);
    assert sorted == lo + hi;
  }

  lemma SplicedContents(lo: seq<Range>, r: Range, hi: seq<Range>)
    ensures multiset(lo + [r] + hi) == multiset(lo + hi) + multiset{r}
  {
  }

  /** `sort_unstable_by` on (start, end). */
  method SortRanges(ranges: seq<Range>) returns (sorted: seq<Range>)
    ensures SortedByStart(sorted)
    ensures multiset(sorted) == multiset(ranges)
  {
    sorted := [];
    for n := 0 to |ranges|
      invariant SortedByStart(sorted)
      invariant multiset(sorted) == multiset(ranges[..n])
    {
      assert ranges[..n + 1] == ranges[..n] + [ranges[n]];
      sorted := InsertSorted(sorted, ranges[n]);
    }
    assert ranges[..|ranges|] == ranges;
  }

  lemma SortingKeepsBlocks(a: seq<Range>, b: seq<Range>)
    requires multiset(a) == multiset(b)
    ensures SameBlocks(a, b)
    ensures AllNonEmpty(a) ==> AllNonEmpty(b)
  {
    forall x ensures Covers(a, x) <==> Covers(b, x) {
      SameMembersCover(a, b, x);
      SameMembersCover(b, a, x);
    }
    forall k | AllNonEmpty(a) && 0 <= k < |b| ensures !b[k].IsEmpty() {
      assert b[k] in multiset(a);
    }
  }

  lemma SameMembersCover(a: seq<Range>, b: seq<Range>, x: int)
    requires multiset(a) == multiset(b)
    ensures Covers(a, x) ==> Covers(b, x)
  {
    if Covers(a, x) {
      var k :| 0 <= k < |a| && a[k].Contains(x);
      assert a[k] in multiset(b);
      var j :| 0 <= j < |b| && b[j] == a[k];
    }
  }

  /** Joining a range that starts no later than the current end covers what the two cover. */
  lemma JoinCovers(current: Range, r: Range, x: int)
    requires current.start <= r.start <= current.end
    ensures Range(current.start, Max(current.end, r.end)).Contains(x) <==> current.Contains(x) || r.Contains(x)
  {
  }

  /** Merges overlapping and touching ranges, in any order of input. */
  method MergeRanges(ranges: seq<Range>) returns (merged: seq<Range>)
    ensures SameBlocks(merged, ranges)
    ensures AllNonEmpty(ranges) ==> Canonical(merged)
  {
    if ranges == [] {
      return ranges;
    }
    var sorted := SortRanges(ranges);
    SortingKeepsBlocks(ranges, sorted);
    assert |sorted| == |multiset(sorted)| == |multiset(ranges)| == |ranges|;
    merged := [];
    var current := sorted[0];
    CoversSingleton(sorted);
    for n := 1 to |sorted|
      invariant current.start <= sorted[n - 1].start
      invariant forall x :: Covers(merged + [current], x) <==> Covers(sorted[..n], x)
      invariant AllNonEmpty(sorted) ==> Canonical(merged + [current])
    {
      var r := sorted[n];
      ghost var before := merged + [current];
      if r.start <= current.end {
        var joined := Range(current.start, Max(current.end, r.end));
        forall x ensures Covers(merged + [joined], x) <==> Covers(sorted[..n + 1], x) {
          JoinCovers(current, r, x);
          PrefixCovers(sorted, n, x);
          CoversConcat(merged, [joined], x);
          CoversConcat(merged, [current], x);
          CoversOne(joined, x);
          CoversOne(current, x);
        }
        JoinStaysCanonical(merged, current, joined);
        current := joined;
      } else {
        forall x ensures Covers(before + [r], x) <==> Covers(sorted[..n + 1], x) {
          PrefixCovers(sorted, n, x);
          CoversConcat(before, [r], x);
          CoversOne(r, x);
        }
        PushStaysCanonical(merged, current, r);
        merged := merged + [current];
        current := r;
      }
    }
    assert sorted[..|sorted|] == sorted;
    merged := merged + [current];
  }

  lemma CoversSingleton(sorted: seq<Range>)
    requires |sorted| > 0
    ensures forall x :: Covers([] + [sorted[0]], x) <==> Covers(sorted[..1], x)
  {
    assert [] + [sorted[0]] == sorted[..1];
  }

  lemma PrefixCovers(ranges: seq<Range>, n: nat, x: int)
    requires n < |ranges|
    ensures Covers(ranges[..n + 1], x) <==> Covers(ranges[..n], x) || ranges[n].Contains(x)
  {
    assert ranges[..n + 1] == ranges[..n] + [ranges[n]];
    CoversConcat(ranges[..n], [ranges[n]], x);
    CoversOne(ranges[n], x);
  }

  lemma JoinStaysCanonical(merged: seq<Range>, current: Range, joined: Range)
    requires joined.start == current.start && current.end <= joined.end
    ensures Canonical(merged + [current]) ==> Canonical(merged + [joined])
  {
    if Canonical(merged + [current]) {
      forall k | 0 <= k < |merged + [joined]| ensures !(merged + [joined])[k].IsEmpty() {
        assert !(merged + [current])[k].IsEmpty();
      }
      forall j, k | 0 <= j < k < |merged + [joined]| ensures (merged + [joined])[j].end < (merged + [joined])[k].start {
        assert (merged + [current])[j].end < (merged + [current])[k].start;
      }
    }
  }

  lemma PushStaysCanonical(merged: seq<Range>, current: Range, r: Range)
    requires current.end < r.start
    ensures Canonical(merged + [current]) && !r.IsEmpty() ==> Canonical(merged + [current] + [r])
  {
    var before := merged + [current];
    if Canonical(before) && !r.IsEmpty() {
      var after := before + [r];
      forall j, k | 0 <= j < k < |after| ensures after[j].end < after[k].start {
        if k == |before| && j < |merged| {
          assert before[j].end < before[|merged|].start;
          assert !before[|merged|].IsEmpty();
        }
      }
    }
  }

  /** The largest start in a sorted list; `otherwise` if the list is empty. */
  function LastStart(ranges: seq<Range>, otherwise: int): int {
    if ranges == [] then otherwise else ranges[|ranges| - 1].start
  }

  /** How far `FindGaps` looks: past `overallEnd` if some range starts there. */
  function Horizon(overallEnd: int, ranges: seq<Range>): int {
    Max(overallEnd, LastStart(ranges, overallEnd))
  }

  /** `x` is one of the blocks to account for and no range has it. */
  ghost predicate Uncovered(overallStart: int, limit: int, ranges: seq<Range>, x: int) {
    overallStart <= x < limit && !Covers(ranges, x)
  }

  /** State of the gap scan after `n` ranges. */
  ghost predicate Scanned(
    overallStart: int, ranges: seq<Range>, n: nat, gaps: seq<Range>, current: int)
    requires n <= |ranges|
  {
    && AllNonEmpty(gaps)
    && overallStart <= current
    && (forall x :: Covers(gaps, x) ==> overallStart <= x < LastStart(ranges[..n], overallStart) && !Covers(ranges[..n], x))
    && (forall x :: overallStart <= x < Max(current, LastStart(ranges[..n], overallStart)) ==>
                      Covers(gaps, x) || Covers(ranges[..n], x))
    && forall x :: current <= x ==> !Covers(ranges[..n], x)
  }

  lemma ScanOneMore(overallStart: int, ranges: seq<Range>, n: nat, gaps: seq<Range>, current: int)
    requires SortedByStart(ranges) && n < |ranges| && Scanned(overallStart, ranges, n, gaps, current)
    ensures var more := if current < ranges[n].start then gaps + [Range(current, ranges[n].start)] else gaps;
            Scanned(overallStart, ranges, n + 1, more, Max(ranges[n].end, current))
  {
    var r := ranges[n];
    var more := if current < r.start then gaps + [Range(current, r.start)] else gaps;
    var here := ranges[..n + 1];
    assert LastStart(here, overallStart) == r.start;
    assert LastStart(ranges[..n], overallStart) <= Max(r.start, overallStart);
    forall x
      ensures Covers(more, x) <==> Covers(gaps, x) || current <= x < r.start
      ensures Covers(here, x) <==> Covers(ranges[..n], x) || r.Contains(x)
    {
      PrefixCovers(ranges, n, x);
      if current < r.start {
        CoversConcat(gaps, [Range(current, r.start)], x);
        CoversOne(Range(current, r.start), x);
      }
    }
  }

  /**
   Gaps left by sub-ranges sorted by start; overlapping, empty and reversed ones are fine. The result
   is the canonical list of exactly the uncovered blocks up to the horizon.
   */
  method FindGaps(overallStart: int, overallEnd: int, ranges: seq<Range>) returns (gaps: seq<Range>)
    requires SortedByStart(ranges)
    ensures Canonical(gaps)
    ensures forall x :: Covers(gaps, x) <==> Uncovered(overallStart, Horizon(overallEnd, ranges), ranges, x)
  {
    var found: seq<Range> := [];
    var current := overallStart;
    for n := 0 to |ranges|
      invariant Scanned(overallStart, ranges, n, found, current)
    {
      ScanOneMore(overallStart, ranges, n, found, current);
      if current < ranges[n].start {
        found := found + [Range(current, ranges[n].start)];
      }
      current := Max(ranges[n].end, current);
    }
    assert ranges[..|ranges|] == ranges;
    ghost var before := found;
    if current < overallEnd {
      found := found + [Range(current, overallEnd)];
    }
    forall x ensures Covers(found, x) <==> Uncovered(overallStart, Horizon(overallEnd, ranges), ranges, x) {
      if current < overallEnd {
        CoversConcat(before, [Range(current, overallEnd)], x);
        CoversOne(Range(current, overallEnd), x);
      }
    }
    gaps := MergeRanges(found);
  }
  /** Any two canonical answers to the gap question are the same list. */
  lemma GapsAreUnique(overallStart: int, limit: int, ranges: seq<Range>, a: seq<Range>, b: seq<Range>)
    requires Canonical(a) && forall x :: Covers(a, x) <==> Uncovered(overallStart, limit, ranges, x)
    requires Canonical(b) && forall x :: Covers(b, x) <==> Uncovered(overallStart, limit, ranges, x)
    ensures a == b
  {
    CanonicalIsUnique(a, b);
  }

  /** Every block from `overallEnd` up to the last start is covered or lies below `overallStart`. */
  ghost predicate TailIsCovered(overallStart: int, overallEnd: int, ranges: seq<Range>) {
    forall x :: overallStart <= x && overallEnd <= x < LastStart(ranges, overallEnd) ==> Covers(ranges, x)
  }

  /**
   `find_gaps` does not clip at `overallEnd`: its answer is exactly the uncovered part of the overall
   range if and only if no uncovered block lies between `overallEnd` and the last range's start.
   */
  lemma GapsAreExactIff(overallStart: int, overallEnd: int, ranges: seq<Range>, gaps: seq<Range>)
    requires forall x :: Covers(gaps, x) <==> Uncovered(overallStart, Horizon(overallEnd, ranges), ranges, x)
    ensures (forall x :: Covers(gaps, x) <==> Uncovered(overallStart, overallEnd, ranges, x)) <==>
            TailIsCovered(overallStart, overallEnd, ranges)
  {
    if forall x :: Covers(gaps, x) <==> Uncovered(overallStart, overallEnd, ranges, x) {
      forall x | overallStart <= x && overallEnd <= x < LastStart(ranges, overallEnd) ensures Covers(ranges, x) {
        assert !Uncovered(overallStart, overallEnd, ranges, x);
        assert !Covers(gaps, x);
      }
    }
  }

  /** The planner's own case: when no range starts past `overallEnd` the answer is exact. */
  lemma StartsWithinMakeGapsExact(overallStart: int, overallEnd: int, ranges: seq<Range>)
    requires SortedByStart(ranges) && LastStart(ranges, overallEnd) <= overallEnd
    ensures TailIsCovered(overallStart, overallEnd, ranges)
  {
  }

  /** A range that starts past the end makes `find_gaps` report blocks outside the overall range. */
  lemma GapsCanOverrunTheEnd(gaps: seq<Range>)
    requires forall x :: Covers(gaps, x) <==> Uncovered(0, Horizon(10, [Range(20, 30)]), [Range(20, 30)], x)
    ensures Covers(gaps, 15)
    ensures !Uncovered(0, 10, [Range(20, 30)], 15)
  {
    CoversOne(Range(20, 30), 15);
  }
}

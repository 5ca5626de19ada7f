/** Three readings of "proved without a gap": the chain end, the aggregation check, and gap finding. */
module Contiguity {
  import opened Prelude
  import opened RangeGaps
  import opened Planners

  /** Each range starts where the one before it ends. */
  ghost predicate Linked(ranges: seq<Range>) {
    forall k :: 0 <= k < |ranges| - 1 ==> ranges[k].end == ranges[k + 1].start
  }

  /** `used` ranges form the chain; the next one, if any, lies past a gap. */
  ghost predicate IsLongestChain(from: int, ranges: seq<Range>, used: nat, end: int) {
    && used <= |ranges|
    && Partition(ranges[..used], from, end) && (used == 0 ==> end == from)
    && (used < |ranges| ==> end < ranges[used].start)
  }

  /** After a good chain of `used` ranges the next one overlaps it or is empty or reversed. */
  ghost predicate ChainBreaksAt(from: int, ranges: seq<Range>, used: nat, end: int) {
    && used < |ranges|
    && Partition(ranges[..used], from, end) && (used == 0 ==> end == from)
    && (ranges[used].start < end || (ranges[used].start == end && ranges[used].IsEmpty()))
  }

  /** A chain of `used` ranges that the next range, if any, does not continue. */
  ghost predicate ChainStopsAt(from: int, ranges: seq<Range>, used: nat, end: int) {
    && used <= |ranges|
    && Partition(ranges[..used], from, end) && (used == 0 ==> end == from)
    && (used < |ranges| ==> ranges[used].start != end || ranges[used].IsEmpty())
  }

  lemma LinkInside(from: int, ranges: seq<Range>, n: nat, m: nat, f: int)
    requires m <= |ranges| && Partition(ranges[..m], from, f)
    ensures n < m ==> !ranges[n].IsEmpty() && ranges[n].start == if n == 0 then from else ranges[n - 1].end
  {
    assert 0 < n < m ==> ranges[..m][n - 1].end == ranges[..m][n].start;
    assert n < m ==> !ranges[..m][n].IsEmpty();
  }

  /** A list has one place where its chain stops, so it cannot both end well and break. */
  lemma ChainStopsOnce(from: int, ranges: seq<Range>, n: nat, e: int, m: nat, f: int)
    requires ChainStopsAt(from, ranges, n, e) && ChainStopsAt(from, ranges, m, f)
    ensures n == m && e == f
  {
    LinkInside(from, ranges, n, m, f);
    LinkInside(from, ranges, m, n, e);
  }

  lemma ChainStopsOnlyAt(from: int, ranges: seq<Range>, used: nat, end: int)
    requires ChainStopsAt(from, ranges, used, end)
    ensures forall n, e :: IsLongestChain(from, ranges, n, e) ==> n == used && e == end
    ensures forall n, e :: ChainBreaksAt(from, ranges, n, e) ==> n == used && e == end
  {
    forall n, e | ChainStopsAt(from, ranges, n, e) ensures n == used && e == end {
      ChainStopsOnce(from, ranges, n, e, used, end);
    }
    assert forall n, e :: IsLongestChain(from, ranges, n, e) ==> ChainStopsAt(from, ranges, n, e);
    assert forall n, e :: ChainBreaksAt(from, ranges, n, e) ==> ChainStopsAt(from, ranges, n, e);
  }

  /** `highest_contiguous_end` on any list of ranges. */
  method HighestContiguousEnd(expectedStart: int, completed: seq<Range>)
    returns (r: Result<Option<int>>, ghost used: nat, ghost end: int)
    ensures r.Ok? ==> IsLongestChain(expectedStart, completed, used, end)
    ensures r.Ok? ==> r.value == if used == 0 then None else Some(end)
    ensures r.Err? ==> ChainBreaksAt(expectedStart, completed, used, end)
    ensures forall n, e :: IsLongestChain(expectedStart, completed, n, e) ==> r == Ok(if n == 0 then None else Some(e))
    ensures forall n, e :: ChainBreaksAt(expectedStart, completed, n, e) ==> r.Err?
  {
    var currentEnd, found := expectedStart, false;
    for k := 0 to |completed|
      invariant found <==> k > 0
      invariant Partition(completed[..k], expectedStart, currentEnd) && (k == 0 ==> currentEnd == expectedStart)
    {
      used, end := k, currentEnd;
      var range := completed[k];
      if range.start > currentEnd {
        ChainStopsOnlyAt(expectedStart, completed, used, end);
        r := Ok(if found then Some(currentEnd) else None);
        return;
      }
      if range.start < currentEnd || range.end <= range.start {
        ChainStopsOnlyAt(expectedStart, completed, used, end);
        r := Err;
        return;
      }
      PartitionPush(completed[..k], expectedStart, currentEnd, range.end);
      assert completed[..k + 1] == completed[..k] + [Range(currentEnd, range.end)];
      currentEnd := range.end;
      found := true;
    }
    used, end := |completed|, currentEnd;
    ChainStopsOnlyAt(expectedStart, completed, used, end) by {
      assert completed[..|completed|] == completed;
    }
    r := Ok(if found then Some(currentEnd) else None);
  }

  /** `validate_aggregation_request`: accepts exactly the linked lists that span the request. */
  method ValidateAggregation(proofs: seq<Range>, request: Range) returns (ok: bool)
    ensures ok <==> proofs != [] && proofs[0].start == request.start
                    && proofs[|proofs| - 1].end == request.end && Linked(proofs)
  {
    if proofs == [] || proofs[0].start != request.start || proofs[|proofs| - 1].end != request.end {
      return false;
    }
    for i := 1 to |proofs|
      invariant forall k :: 0 <= k < i - 1 ==> proofs[k].end == proofs[k + 1].start
    {
      if proofs[i - 1].end < proofs[i].start || proofs[i - 1].end > proofs[i].start {
        assert proofs[i - 1].end != proofs[i - 1 + 1].start;
        return false;
      }
    }
    ok := true;
  }

  /** On non-empty ranges the aggregation check means: no gap, no overlap, the whole span. */
  lemma AcceptedMeansPartition(proofs: seq<Range>, request: Range)
    requires AllNonEmpty(proofs)
    ensures (proofs != [] && proofs[0].start == request.start
             && proofs[|proofs| - 1].end == request.end && Linked(proofs)) <==>
            (proofs != [] && Partition(proofs, request.start, request.end))
  {
  }

  /** What the table guarantees about completed ranges. */
  ghost predicate WellPlaced(from: int, ranges: seq<Range>) {
    Ordered(ranges) && AllNonEmpty(ranges) && forall k :: 0 <= k < |ranges| ==> from <= ranges[k].start
  }

  /** On such ranges `highest_contiguous_end` cannot fail. */
  lemma WellPlacedNeverBreaks(from: int, ranges: seq<Range>, used: nat, end: int)
    requires WellPlaced(from, ranges)
    ensures !ChainBreaksAt(from, ranges, used, end)
  {
  }

  /** The chain end is the first block that no range has. */
  lemma ChainEndIsFirstUncovered(from: int, ranges: seq<Range>, used: nat, end: int)
    requires WellPlaced(from, ranges) && IsLongestChain(from, ranges, used, end)
    ensures from <= end && !Covers(ranges, end)
    ensures forall x :: from <= x < end ==> Covers(ranges, x)
  {
    assert ranges == ranges[..used] + ranges[used..];
    forall x ensures Covers(ranges, x) <==> Covers(ranges[..used], x) || Covers(ranges[used..], x) {
      CoversConcat(ranges[..used], ranges[used..], x);
    }
    forall x | from <= x < end ensures Covers(ranges, x) {
      PartitionCovers(ranges[..used], from, end, x);
    }
    if used > 0 {
      PartitionSpan(ranges[..used], from, end, 0, used - 1);
      assert !ranges[..used][0].IsEmpty();
    }
    PartitionCovers(ranges[..used], from, end, end);
    forall k | 0 <= k < |ranges[used..]| ensures !ranges[used..][k].Contains(end) {
      if k > 0 {
        assert ranges[used].end <= ranges[used + k].start && !ranges[used].IsEmpty();
      }
    }
  }

  /**
   The three views agree. For well-placed ranges the chain end is the first uncovered block, which is
   where `find_gaps` starts its first gap (it finds none exactly when the chain reaches its horizon),
   and the aggregation check accepts exactly the consumed prefix for that span.
   */
  lemma ViewsOfContiguityAgree(
    from: int, ranges: seq<Range>, used: nat, end: int, overallEnd: int, gaps: seq<Range>)
    requires WellPlaced(from, ranges) && IsLongestChain(from, ranges, used, end)
    requires Canonical(gaps)
    requires forall x :: Covers(gaps, x) <==> Uncovered(from, Horizon(overallEnd, ranges), ranges, x)
    ensures gaps == [] <==> Horizon(overallEnd, ranges) <= end
    ensures gaps != [] ==> gaps[0].start == end
    ensures used > 0 ==>
              && ranges[..used][0].start == from && ranges[..used][used - 1].end == end && Linked(ranges[..used])
  {
    ChainEndIsFirstUncovered(from, ranges, used, end);
    if gaps == [] {
      assert !Covers(gaps, end);
    } else {
      assert gaps[0].Contains(gaps[0].start);
      assert Covers(gaps, gaps[0].start);
      assert Covers(gaps, end);
      var k :| 0 <= k < |gaps| && gaps[k].Contains(end);
    }
  }
}

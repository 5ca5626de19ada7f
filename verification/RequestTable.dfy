/**
 The validity proposer's table of range proof requests: planning, completion, failure with and
 without a split, cancellation, and proposing, over every run of these steps.
 */
module RequestTables {
  import opened Prelude
  import opened RangeGaps
  import opened Planners
  import opened Contiguity

  datatype RequestStatus =
    | Unrequested
    | WitnessGeneration
    | Execution
    | Prove
    | Complete
    | Failed
    | Cancelled
    | Invalidated

  datatype Request = Request(range: Range, status: RequestStatus)

  predicate IsActive(r: Request) {
    !r.status.Failed? && !r.status.Cancelled? && !r.status.Invalidated?
  }

  /** Being worked on: the states from which a request can complete or fail. */
  predicate IsInFlight(r: Request) {
    IsActive(r) && !r.status.Complete?
  }

  datatype Table = Table(requests: map<nat, Request>, nextId: nat, latest: int)

  predicate ActiveIn(t: Table, id: nat) {
    id in t.requests && IsActive(t.requests[id])
  }

  predicate Disjoint(a: Range, b: Range) {
    a.end <= b.start || b.end <= a.start
  }

  /** Active requests are non-empty, pairwise disjoint, and on one side of the latest proposed block. */
  ghost predicate Inv(t: Table) {
    && (forall id :: id in t.requests ==> id < t.nextId)
    && (forall id :: ActiveIn(t, id) ==> !t.requests[id].range.IsEmpty())
    && (forall id :: ActiveIn(t, id) ==> t.requests[id].range.end <= t.latest || t.latest <= t.requests[id].range.start)
    && forall a, b :: ActiveIn(t, a) && ActiveIn(t, b) && a != b ==>
                        Disjoint(t.requests[a].range, t.requests[b].range)
  }

  /** An active request from the latest proposed block on has block `x`. */
  ghost predicate ActiveCovers(t: Table, x: int) {
    exists id :: ActiveIn(t, id) && t.latest <= t.requests[id].range.start && t.requests[id].range.Contains(x)
  }

  /** How far planning looks: the last provable block, or the last active start if that is higher. */
  ghost predicate IsHorizon(t: Table, finalized: int, h: int) {
    && finalized <= h
    && (forall id :: ActiveIn(t, id) && t.latest <= t.requests[id].range.start ==> t.requests[id].range.start <= h)
    && (h == finalized || exists id :: ActiveIn(t, id) && t.latest <= t.requests[id].range.start == h)
  }

  ghost predicate IsGapList(t: Table, h: int, gaps: seq<Range>) {
    Canonical(gaps) && forall x :: Covers(gaps, x) <==> t.latest <= x < h && !ActiveCovers(t, x)
  }

  datatype Plan =
    | ByGas(limit: nat, interval: int, infos: Infos, parts: seq<seq<Range>>)
    | ByBlocks(interval: int, parts: seq<seq<Range>>)

  ghost predicate IsPlan(plan: Plan, gaps: seq<Range>, ranges: seq<Range>) {
    match plan
    case ByGas(limit, interval, infos, parts) => IsGasPlan(infos, limit, interval, gaps, parts, ranges)
    case ByBlocks(interval, parts) => interval > 0 && IsBlockPlan(interval, gaps, parts, ranges)
  }

  datatype TableStep =
    | Planned(finalized: int, horizon: int, gaps: seq<Range>, plan: Plan, ranges: seq<Range>)
    | Advanced(id: nat, status: RequestStatus)
    | Deactivated(id: nat, status: RequestStatus)
    | Split(id: nat)
    | Proposed(chain: seq<nat>, end: int)

  function Ranges(t: Table, ids: seq<nat>): seq<Range>
    requires forall k :: 0 <= k < |ids| ==> ids[k] in t.requests
  {
    seq(|ids|, k requires 0 <= k < |ids| => t.requests[ids[k]].range)
  }

  /** Rust's `/` truncates toward zero. */
  function Midpoint(r: Range): int {
    var sum := r.start + r.end;
    if sum >= 0 then sum / 2 else -((-sum) / 2)
  }

  function Halves(r: Range): seq<Range> {
    [Range(r.start, Midpoint(r)), Range(Midpoint(r), r.end)]
  }

  /** Both halves of a request are clear of every other active request and of the latest proposed block. */
  ghost predicate HalvesFit(t: Table, id: nat)
    requires id in t.requests
  {
    forall h :: h in Halves(t.requests[id].range) ==>
      && (h.end <= t.latest || t.latest <= h.start)
      && forall other :: ActiveIn(t, other) && other != id ==> Disjoint(h, t.requests[other].range)
  }

  ghost predicate Enabled(t: Table, s: TableStep) {
    match s
    case Planned(finalized, horizon, gaps, plan, ranges) =>
      IsHorizon(t, finalized, horizon) && IsGapList(t, horizon, gaps) && IsPlan(plan, gaps, ranges)
    case Advanced(id, status) =>
      id in t.requests && IsInFlight(t.requests[id]) && IsActive(Request(t.requests[id].range, status))
    case Deactivated(id, status) =>
      id in t.requests && !IsActive(Request(t.requests[id].range, status))
    case Split(id) =>
      && id in t.requests && !t.requests[id].status.Invalidated?
      && t.requests[id].range.end - t.requests[id].range.start > 1
    case Proposed(chain, end) =>
      && chain != []
      && (forall k :: 0 <= k < |chain| ==> ActiveIn(t, chain[k]) && t.requests[chain[k]].status == Complete)
      && Partition(Ranges(t, chain), t.latest, end)
  }

  /** The fresh request that an insertion stores under `id`. */
  function NewRequest(t: Table, ranges: seq<Range>, id: nat): Request
    requires t.nextId <= id < t.nextId + |ranges|
  {
    Request(ranges[id - t.nextId], Unrequested)
  }

  function Inserted(t: Table, ranges: seq<Range>): Table {
    Table(t.requests + (map id: nat | t.nextId <= id < t.nextId + |ranges| :: NewRequest(t, ranges, id)),
          t.nextId + |ranges|, t.latest)
  }

  function WithStatus(t: Table, id: nat, status: RequestStatus): Table
    requires id in t.requests
  {
    t.(requests := t.requests[id := t.requests[id].(status := status)])
  }

  function Apply(t: Table, s: TableStep): Table {
    match s
    case Planned(_, _, _, _, ranges) => Inserted(t, ranges)
    case Advanced(id, status) => if id in t.requests then WithStatus(t, id, status) else t
    case Deactivated(id, status) => if id in t.requests then WithStatus(t, id, status) else t
    case Split(id) =>
      if id in t.requests then Inserted(WithStatus(t, id, Failed), Halves(t.requests[id].range)) else t
    case Proposed(_, end) => t.(latest := end)
  }

  // ----- every step keeps the invariant -----

  lemma PlanCovers(plan: Plan, gaps: seq<Range>, ranges: seq<Range>)
    requires Canonical(gaps) && IsPlan(plan, gaps, ranges)
    ensures Ordered(ranges) && AllNonEmpty(ranges)
    ensures forall x :: Covers(ranges, x) ==> Covers(gaps, x)
    ensures plan.ByGas? ==> forall x :: Covers(gaps, x) ==> Covers(ranges, x)
  {
    assert Ordered(gaps);
    FlattenOrdered(gaps, plan.parts);
    var flat := Flatten(plan.parts);
    forall x
      ensures Covers(flat, x) <==> Covers(gaps, x)
      ensures Covers(ranges, x) ==> Covers(flat, x)
    {
      FlattenCovers(gaps, plan.parts, x);
      if Covers(ranges, x) {
        var k :| 0 <= k < |ranges| && ranges[k].Contains(x);
        assert flat[k] == ranges[k];
      }
    }
  }

  /** Inserting ordered ranges of unclaimed blocks on one side of the latest block keeps the invariant. */
  lemma InsertKeepsInv(t: Table, ranges: seq<Range>)
    requires Inv(t) && Ordered(ranges) && AllNonEmpty(ranges)
    requires forall k :: 0 <= k < |ranges| ==> ranges[k].end <= t.latest || t.latest <= ranges[k].start
    requires forall k, id :: 0 <= k < |ranges| && ActiveIn(t, id) ==> Disjoint(ranges[k], t.requests[id].range)
    ensures Inv(Inserted(t, ranges))
  {
    var u := Inserted(t, ranges);
    forall id: nat | ActiveIn(u, id)
      ensures if id < t.nextId then ActiveIn(t, id) && u.requests[id] == t.requests[id]
              else u.requests[id].range == ranges[id - t.nextId]
    {
    }
    forall a, b | ActiveIn(u, a) && ActiveIn(u, b) && a != b ensures Disjoint(u.requests[a].range, u.requests[b].range) {
    }
  }

  lemma NewRangesAreUnclaimed(t: Table, h: int, gaps: seq<Range>, ranges: seq<Range>, k: nat, id: nat)
    requires Inv(t) && IsGapList(t, h, gaps)
    requires AllNonEmpty(ranges) && forall x :: Covers(ranges, x) ==> Covers(gaps, x)
    requires k < |ranges| && ActiveIn(t, id)
    ensures Disjoint(ranges[k], t.requests[id].range)
    ensures t.latest <= ranges[k].start
  {
    var r, a := ranges[k], t.requests[id].range;
    assert !r.IsEmpty() && !a.IsEmpty();
    assert r.Contains(r.start);
    assert Covers(ranges, r.start);
    if !Disjoint(r, a) {
      var x := Max(r.start, a.start);
      assert r.Contains(x) && a.Contains(x);
      assert Covers(ranges, x);
    }
  }

  lemma PlanKeepsInv(t: Table, h: int, gaps: seq<Range>, plan: Plan, ranges: seq<Range>)
    requires Inv(t) && IsGapList(t, h, gaps) && IsPlan(plan, gaps, ranges)
    ensures Inv(Inserted(t, ranges))
  {
    PlanCovers(plan, gaps, ranges);
    forall k | 0 <= k < |ranges| ensures t.latest <= ranges[k].start {
      assert !ranges[k].IsEmpty() && ranges[k].Contains(ranges[k].start);
      assert Covers(ranges, ranges[k].start);
    }
    forall k, id | 0 <= k < |ranges| && ActiveIn(t, id) ensures Disjoint(ranges[k], t.requests[id].range) {
      NewRangesAreUnclaimed(t, h, gaps, ranges, k, id);
    }
    InsertKeepsInv(t, ranges);
  }

  lemma StatusKeepsInv(t: Table, id: nat, status: RequestStatus)
    requires Inv(t) && id in t.requests
    requires IsActive(t.requests[id]) || !IsActive(Request(t.requests[id].range, status))
    ensures Inv(WithStatus(t, id, status))
    ensures forall other :: ActiveIn(WithStatus(t, id, status), other) ==>
                              ActiveIn(t, other) && WithStatus(t, id, status).requests[other].range == t.requests[other].range
  {
  }

  /** Splitting replaces a request by two non-empty, near-equal halves of the same blocks. */
  lemma HalvesPartition(r: Range)
    requires r.end - r.start > 1
    ensures Partition(Halves(r), r.start, r.end)
    ensures r.start < Midpoint(r) < r.end
    ensures -1 <= (Midpoint(r) - r.start) - (r.end - Midpoint(r)) <= 1
  {
  }

  lemma SplitKeepsInv(t: Table, id: nat)
    requires Inv(t) && Enabled(t, Split(id)) && HalvesFit(t, id)
    ensures Inv(Apply(t, Split(id)))
  {
    var failed := WithStatus(t, id, Failed);
    var halves := Halves(t.requests[id].range);
    StatusKeepsInv(t, id, Failed);
    HalvesPartition(t.requests[id].range);
    forall k, other | 0 <= k < 2 && ActiveIn(failed, other) ensures Disjoint(halves[k], failed.requests[other].range) {
      assert other != id && ActiveIn(t, other) && halves[k] in halves;
    }
    forall k | 0 <= k < 2 ensures halves[k].end <= t.latest || t.latest <= halves[k].start {
      assert halves[k] in halves;
    }
    InsertKeepsInv(failed, halves);
  }

  /** Nothing else claims the blocks of an active request, so its halves always fit. */
  lemma ActiveHalvesFit(t: Table, id: nat)
    requires Inv(t) && ActiveIn(t, id) && t.requests[id].range.end - t.requests[id].range.start > 1
    ensures HalvesFit(t, id)
  {
    var r := t.requests[id].range;
    HalvesPartition(r);
    forall h | h in Halves(r)
      ensures h.end <= t.latest || t.latest <= h.start
      ensures forall other :: ActiveIn(t, other) && other != id ==> Disjoint(h, t.requests[other].range)
    {
      forall other | ActiveIn(t, other) && other != id ensures Disjoint(h, t.requests[other].range) {
        assert Disjoint(r, t.requests[other].range);
      }
    }
  }

  /** Splitting any request, active or not, keeps the table sound exactly when its halves fit. */
  lemma SplitKeepsInvIff(t: Table, id: nat)
    requires Inv(t) && id in t.requests && t.requests[id].range.end - t.requests[id].range.start > 1
    ensures Inv(Apply(t, Split(id))) <==> HalvesFit(t, id)
  {
    if HalvesFit(t, id) {
      SplitAnyKeepsInv(t, id);
    }
    if Inv(Apply(t, Split(id))) {
      SoundSplitFits(t, id);
    }
  }

  lemma SoundSplitFits(t: Table, id: nat)
    requires Inv(t) && id in t.requests && Inv(Apply(t, Split(id)))
    ensures HalvesFit(t, id)
  {
    var halves := Halves(t.requests[id].range);
    forall h | h in halves
      ensures h.end <= t.latest || t.latest <= h.start
      ensures forall other :: ActiveIn(t, other) && other != id ==> Disjoint(h, t.requests[other].range)
    {
      var k :| 0 <= k < 2 && halves[k] == h;
      SplitLeaves(t, id, k);
    }
  }

  /** After a split both halves are active, and so is every other request that was. */
  lemma SplitLeaves(t: Table, id: nat, k: nat)
    requires Inv(t) && id in t.requests && k < 2
    ensures var u := Apply(t, Split(id));
            && ActiveIn(u, t.nextId + k) && u.requests[t.nextId + k].range == Halves(t.requests[id].range)[k]
            && forall other :: ActiveIn(t, other) && other != id ==>
                                 ActiveIn(u, other) && u.requests[other] == t.requests[other] && other != t.nextId + k
  {
  }

  lemma SplitAnyKeepsInv(t: Table, id: nat)
    requires Inv(t) && id in t.requests && t.requests[id].range.end - t.requests[id].range.start > 1 && HalvesFit(t, id)
    ensures Inv(Apply(t, Split(id)))
  {
    var waiting := WithStatus(t, id, Failed);
    StatusKeepsInv(t, id, Failed);
    assert HalvesFit(waiting, id) by {
      forall other | ActiveIn(waiting, other) ensures ActiveIn(t, other) && other != id {
      }
    }
    SplitKeepsInv(waiting, id);
    assert WithStatus(waiting, id, Failed) == waiting;
  }

  /** A request that failed, was planned again, and is then reported as failed once more: its halves overlap the new one. */
  lemma RepeatedSplitOverlaps()
    ensures var t := Table(map[0 := Request(Range(0, 4), Failed), 1 := Request(Range(0, 4), Unrequested)], 2, 0);
            Inv(t) && !Inv(Apply(t, Split(0)))
  {
    var t := Table(map[0 := Request(Range(0, 4), Failed), 1 := Request(Range(0, 4), Unrequested)], 2, 0);
    SplitKeepsInvIff(t, 0);
    assert Halves(Range(0, 4))[0] in Halves(Range(0, 4)) && ActiveIn(t, 1);
  }

  /** The proposed end is the end of an active request, so no other active request straddles it. */
  lemma ProposeKeepsInv(t: Table, chain: seq<nat>, end: int)
    requires Inv(t) && Enabled(t, Proposed(chain, end))
    ensures Inv(t.(latest := end)) && t.latest < end
  {
    var ranges := Ranges(t, chain);
    var last := chain[|chain| - 1];
    assert ranges[|ranges| - 1] == t.requests[last].range;
    assert ActiveIn(t, last) && t.requests[last].range.end == end;
    PartitionSpan(ranges, t.latest, end, 0, |ranges| - 1);
    assert !ranges[0].IsEmpty() && !ranges[|ranges| - 1].IsEmpty();
    forall id | ActiveIn(t, id) ensures t.requests[id].range.end <= end || end <= t.requests[id].range.start {
      assert id != last ==> Disjoint(t.requests[id].range, t.requests[last].range);
      assert !t.requests[last].range.IsEmpty();
    }
  }

  lemma StepKeepsInv(t: Table, s: TableStep)
    requires Inv(t) && Enabled(t, s) && (s.Split? ==> HalvesFit(t, s.id))
    ensures Inv(Apply(t, s))
  {
    match s {
      case Planned(_, horizon, gaps, plan, ranges) => PlanKeepsInv(t, horizon, gaps, plan, ranges);
      case Advanced(id, status) => StatusKeepsInv(t, id, status);
      case Deactivated(id, status) => StatusKeepsInv(t, id, status);
      case Split(id) => SplitKeepsInv(t, id);
      case Proposed(chain, end) => ProposeKeepsInv(t, chain, end);
    }
  }

  ghost predicate TookAt(tables: seq<Table>, steps: seq<TableStep>, k: nat)
    requires k < |steps| && k + 1 < |tables|
  {
    Enabled(tables[k], steps[k]) && tables[k + 1] == Apply(tables[k], steps[k])
  }

  /** A run of any steps; a request in any status but invalidated may be split. */
  ghost predicate IsTableRun(tables: seq<Table>, steps: seq<TableStep>) {
    && |tables| == |steps| + 1
    && forall k: nat :: k < |steps| ==> TookAt(tables, steps, k)
  }

  /** If step `k` is a split, the halves fit into the table it finds. */
  ghost predicate FitsAt(tables: seq<Table>, steps: seq<TableStep>, k: nat)
    requires k < |steps| && k < |tables|
  {
    steps[k].Split? ==> steps[k].id in tables[k].requests && HalvesFit(tables[k], steps[k].id)
  }

  lemma {:induction false} FittingRunKeepsInv(tables: seq<Table>, steps: seq<TableStep>, k: nat)
    requires IsTableRun(tables, steps) && Inv(tables[0]) && k < |tables|
    requires forall j: nat :: j < k ==> FitsAt(tables, steps, j)
    ensures Inv(tables[k])
  {
    if k > 0 {
      FittingRunKeepsInv(tables, steps, k - 1);
      assert TookAt(tables, steps, k - 1) && FitsAt(tables, steps, k - 1);
      StepKeepsInv(tables[k - 1], steps[k - 1]);
    }
  }

  /** Over every run, the requests stay disjoint throughout exactly when the halves of every split fit. */
  lemma RunIsDisjointIff(tables: seq<Table>, steps: seq<TableStep>)
    requires IsTableRun(tables, steps) && Inv(tables[0])
    ensures (forall k :: 0 <= k < |tables| ==> Inv(tables[k])) <==> forall k: nat :: k < |steps| ==> FitsAt(tables, steps, k)
  {
    if forall k :: 0 <= k < |tables| ==> Inv(tables[k]) {
      forall k: nat | k < |steps| ensures FitsAt(tables, steps, k) {
        assert TookAt(tables, steps, k) && Inv(tables[k]) && Inv(tables[k + 1]);
        if steps[k].Split? {
          SplitKeepsInvIff(tables[k], steps[k].id);
        }
      }
    }
    if forall k: nat :: k < |steps| ==> FitsAt(tables, steps, k) {
      forall k: nat | k < |tables| ensures Inv(tables[k]) {
        FittingRunKeepsInv(tables, steps, k);
      }
    }
  }

  /** If step `k` is a split, it is of a request that is still active. */
  ghost predicate SplitsActiveAt(tables: seq<Table>, steps: seq<TableStep>, k: nat)
    requires k < |steps| && k < |tables|
  {
    steps[k].Split? ==> ActiveIn(tables[k], steps[k].id)
  }

  /** Over every run that only splits active requests, they stay non-empty, disjoint and off the proposed block. */
  lemma {:induction false} RunKeepsRequestsDisjoint(tables: seq<Table>, steps: seq<TableStep>, k: nat)
    requires IsTableRun(tables, steps) && Inv(tables[0]) && k < |tables|
    requires forall j: nat :: j < |steps| ==> SplitsActiveAt(tables, steps, j)
    ensures Inv(tables[k])
  {
    if k > 0 {
      RunKeepsRequestsDisjoint(tables, steps, k - 1);
      assert TookAt(tables, steps, k - 1) && SplitsActiveAt(tables, steps, k - 1);
      if steps[k - 1].Split? {
        ActiveHalvesFit(tables[k - 1], steps[k - 1].id);
      }
      StepKeepsInv(tables[k - 1], steps[k - 1]);
    }
  }

  // ----- planning is a fixed point -----

  /** After an insertion an active block is an old one or one of the inserted ones. */
  lemma InsertedCovers(t: Table, ranges: seq<Range>, x: int)
    requires Inv(t) && forall k :: 0 <= k < |ranges| ==> t.latest <= ranges[k].start
    ensures ActiveCovers(Inserted(t, ranges), x) <==> ActiveCovers(t, x) || Covers(ranges, x)
  {
    var u := Inserted(t, ranges);
    if ActiveCovers(t, x) {
      var id :| ActiveIn(t, id) && t.latest <= t.requests[id].range.start && t.requests[id].range.Contains(x);
      assert ActiveIn(u, id) && u.requests[id] == t.requests[id];
    }
    if Covers(ranges, x) {
      var k :| 0 <= k < |ranges| && ranges[k].Contains(x);
      assert ActiveIn(u, t.nextId + k) && u.requests[t.nextId + k].range == ranges[k];
    }
    if ActiveCovers(u, x) {
      var id: nat :| ActiveIn(u, id) && u.latest <= u.requests[id].range.start && u.requests[id].range.Contains(x);
      if id >= t.nextId {
        assert ranges[id - t.nextId].Contains(x);
      } else {
        assert ActiveIn(t, id);
      }
    }
  }

  lemma InsertedHorizon(t: Table, finalized: int, h: int, ranges: seq<Range>)
    requires Inv(t) && IsHorizon(t, finalized, h)
    requires forall k :: 0 <= k < |ranges| ==> t.latest <= ranges[k].start < h
    ensures forall h' :: IsHorizon(Inserted(t, ranges), finalized, h') ==> h' == h
  {
    var u := Inserted(t, ranges);
    forall h' | IsHorizon(u, finalized, h') ensures h' == h {
      if h != finalized {
        var id :| ActiveIn(t, id) && t.latest <= t.requests[id].range.start == h;
        assert ActiveIn(u, id) && u.requests[id] == t.requests[id];
      }
      if h' != finalized {
        var id: nat :| ActiveIn(u, id) && u.latest <= u.requests[id].range.start == h';
        assert id < t.nextId ==> ActiveIn(t, id);
        assert id >= t.nextId ==> u.requests[id].range == ranges[id - t.nextId];
      }
    }
  }

  /** Common to both modes: what is uncovered after a plan is what the plan left out of the gaps. */
  lemma AfterPlan(t: Table, first: TableStep, second: TableStep)
    requires Inv(t) && first.Planned? && Enabled(t, first)
    requires second.Planned? && second.finalized == first.finalized && Enabled(Apply(t, first), second)
    ensures second.horizon == first.horizon
    ensures forall x :: Covers(second.gaps, x) <==> Covers(first.gaps, x) && !Covers(first.ranges, x)
  {
    PlanCovers(first.plan, first.gaps, first.ranges);
    forall k | 0 <= k < |first.ranges| ensures t.latest <= first.ranges[k].start < first.horizon {
      assert !first.ranges[k].IsEmpty() && first.ranges[k].Contains(first.ranges[k].start);
      assert Covers(first.ranges, first.ranges[k].start);
    }
    InsertedHorizon(t, first.finalized, first.horizon, first.ranges);
    forall x ensures Covers(second.gaps, x) <==> Covers(first.gaps, x) && !Covers(first.ranges, x) {
      InsertedCovers(t, first.ranges, x);
    }
  }

  /** In gas mode nothing stays uncovered, so a second plan finds no gap and adds nothing. */
  lemma GasPlanIsFixedPoint(t: Table, first: TableStep, second: TableStep)
    requires Inv(t) && first.Planned? && first.plan.ByGas? && Enabled(t, first)
    requires second.Planned? && second.finalized == first.finalized && Enabled(Apply(t, first), second)
    ensures second.gaps == [] && second.ranges == []
    ensures forall x :: t.latest <= x < first.horizon ==> ActiveCovers(Apply(t, first), x)
  {
    AfterPlan(t, first, second);
    PlanCovers(first.plan, first.gaps, first.ranges);
    assert second.gaps == [] by {
      if second.gaps != [] {
        assert second.gaps[0].Contains(second.gaps[0].start);
        assert Covers(second.gaps, second.gaps[0].start);
      }
    }
    assert second.plan.parts == [];
    forall x | t.latest <= x < first.horizon ensures ActiveCovers(Apply(t, first), x) {
      assert !Covers(second.gaps, x);
    }
  }

  /** A gap shorter than the interval is one chunk, and that chunk is dropped. */
  lemma ShortGapPlansNothing(interval: int, gap: Range, parts: seq<seq<Range>>, ranges: seq<Range>)
    requires interval > 0 && !gap.IsEmpty() && gap.end - gap.start < interval
    requires IsBlockPlan(interval, [gap], parts, ranges)
    ensures ranges == []
  {
    var segs := parts[0];
    assert Partition(segs, gap.start, gap.end) by {
      assert [gap][0] == gap;
    }
    assert segs != [];
    PartitionSpan(segs, gap.start, gap.end, 0, 0);
    assert |segs| == 1;
    assert parts == [segs];
    FlattenPush([], segs);
    assert [] + [segs] == parts;
    assert Flatten(parts) == segs;
  }

  /** The blocks a block-mode plan leaves out are those of its last chunk, if that is short. */
  lemma BlockPlanLeavesLastChunk(interval: int, gaps: seq<Range>, parts: seq<seq<Range>>, ranges: seq<Range>, x: int)
    requires Canonical(gaps) && IsBlockPlan(interval, gaps, parts, ranges)
    ensures var flat := Flatten(parts);
            Covers(gaps, x) && !Covers(ranges, x) <==>
            ranges != flat && flat[|flat| - 1].Contains(x)
  {
    var flat := Flatten(parts);
    assert Ordered(gaps);
    FlattenCovers(gaps, parts, x);
    FlattenOrdered(gaps, parts);
    if ranges != flat {
      assert flat == ranges + [flat[|flat| - 1]];
      CoversConcat(ranges, [flat[|flat| - 1]], x);
      CoversOne(flat[|flat| - 1], x);
      if Covers(ranges, x) {
        var k :| 0 <= k < |ranges| && ranges[k].Contains(x);
        assert flat[k].end <= flat[|flat| - 1].start;
      }
    }
  }

  /**
   What a block-mode plan covers, in blocks: every gap, except that the end of the last one is left out when
   less than a whole interval is left for its last chunk.
   */
  lemma BlockPlanCoversAllButTheRest(
    interval: int, gaps: seq<Range>, parts: seq<seq<Range>>, ranges: seq<Range>, x: int)
    requires interval > 0 && Canonical(gaps) && gaps != [] && IsBlockPlan(interval, gaps, parts, ranges)
    ensures !gaps[|gaps| - 1].IsEmpty()
    ensures var last := gaps[|gaps| - 1];
            var rest := Rest(last.end - last.start, interval);
            Covers(ranges, x) <==> Covers(gaps, x) && (rest < interval ==> x < last.end - rest)
  {
    var last, part := gaps[|gaps| - 1], parts[|gaps| - 1];
    assert !last.IsEmpty() && Partition(part, last.start, last.end) && Chunked(interval, part);
    LastChunkIsTheRest(interval, part, last.start, last.end);
    var flat := Flatten(parts);
    assert flat[|flat| - 1] == part[|part| - 1];
    BlockPlanLeavesLastChunk(interval, gaps, parts, ranges, x);
    PlanCovers(ByBlocks(interval, parts), gaps, ranges);
    if Covers(gaps, x) {
      GapsEndWithLast(gaps, x);
    }
  }

  lemma GapsEndWithLast(gaps: seq<Range>, x: int)
    requires Canonical(gaps) && Covers(gaps, x)
    ensures x < gaps[|gaps| - 1].end
  {
    var k :| 0 <= k < |gaps| && gaps[k].Contains(x);
    if k < |gaps| - 1 {
      assert gaps[k].end < gaps[|gaps| - 1].start;
      assert !gaps[|gaps| - 1].IsEmpty();
    }
  }

  /** The chunk at the end of the planned ones that a block-mode plan did not insert, if there is one. */
  ghost function DroppedChunk(flat: seq<Range>, ranges: seq<Range>): seq<Range>
    requires ranges != flat ==> flat != []
  {
    if ranges == flat then [] else [flat[|flat| - 1]]
  }

  lemma BlockPlanLeavesDroppedChunk(
    interval: int, gaps: seq<Range>, parts: seq<seq<Range>>, ranges: seq<Range>, later: seq<Range>)
    requires Canonical(gaps) && IsBlockPlan(interval, gaps, parts, ranges) && Canonical(later)
    requires forall x :: Covers(later, x) <==> Covers(gaps, x) && !Covers(ranges, x)
    ensures later == DroppedChunk(Flatten(parts), ranges)
  {
    var flat := Flatten(parts);
    var left := DroppedChunk(flat, ranges);
    FlattenOrdered(gaps, parts) by {
      assert Ordered(gaps);
    }
    assert Canonical(left);
    forall x ensures Covers(later, x) <==> Covers(left, x) {
      BlockPlanLeavesLastChunk(interval, gaps, parts, ranges, x);
      if left != [] {
        CoversOne(flat[|flat| - 1], x);
      }
    }
    CanonicalIsUnique(later, left);
  }

  /** In block mode at most one chunk, shorter than the interval, stays uncovered; replanning adds nothing. */
  lemma BlockPlanIsFixedPoint(t: Table, first: TableStep, second: TableStep)
    requires Inv(t) && first.Planned? && first.plan.ByBlocks? && Enabled(t, first)
    requires second.Planned? && second.finalized == first.finalized && Enabled(Apply(t, first), second)
    requires second.plan.ByBlocks? && second.plan.interval == first.plan.interval
    ensures second.ranges == []
    ensures |second.gaps| <= 1
    ensures second.gaps != [] ==> second.gaps[0].end - second.gaps[0].start < first.plan.interval
  {
    var interval := first.plan.interval;
    AfterPlan(t, first, second);
    BlockPlanLeavesDroppedChunk(interval, first.gaps, first.plan.parts, first.ranges, second.gaps);
    if second.gaps == [] {
      assert second.plan.parts == [];
    } else {
      ShortGapPlansNothing(interval, second.gaps[0], second.plan.parts, second.ranges);
    }
  }

  // ----- the table itself -----

  ghost predicate Listed(t: Table, order: seq<nat>) {
    && (forall k :: 0 <= k < |order| ==> order[k] in t.requests)
    && (forall j, k :: 0 <= j < k < |order| ==> order[j] != order[k])
    && forall j, k :: 0 <= j < k < |order| ==> t.requests[order[j]].range.start <= t.requests[order[k]].range.start
  }

  /** A listed row that starts no later than any other. */
  method PickFirst(t: Table, ids: set<nat>) returns (first: nat)
    requires ids <= t.requests.Keys && ids != {}
    ensures first in ids && forall id :: id in ids ==> t.requests[first].range.start <= t.requests[id].range.start
  {
    first :| first in ids;
    var rest := ids - {first};
    while rest != {}
      invariant rest <= ids && first in ids
      invariant forall id :: id in ids && id !in rest ==> t.requests[first].range.start <= t.requests[id].range.start
      decreases |rest|
    {
      var id :| id in rest;
      rest := rest - {id};
      if t.requests[id].range.start < t.requests[first].range.start {
        first := id;
      }
    }
  }

  /** A query ordered by start block. */
  method SortByStart(t: Table, ids: set<nat>) returns (order: seq<nat>)
    requires ids <= t.requests.Keys
    ensures Listed(t, order)
    ensures forall id :: id in order <==> id in ids
  {
    order := [];
    var rest := ids;
    while rest != {}
      invariant rest <= ids && Listed(t, order)
      invariant forall id :: id in order <==> id in ids && id !in rest
      invariant forall k, id :: 0 <= k < |order| && id in rest ==>
                  t.requests[order[k]].range.start <= t.requests[id].range.start
      decreases |rest|
    {
      var first := PickFirst(t, rest);
      order := order + [first];
      rest := rest - {first};
    }
  }

  /** Rows of the table that are active, start at or after the latest block, and pass a status filter. */
  function Query(t: Table, onlyComplete: bool): set<nat> {
    set id | id in t.requests && ActiveIn(t, id) && t.latest <= t.requests[id].range.start
             && (onlyComplete ==> t.requests[id].status == Complete)
  }

  /** The rows of a query, listed by start, are disjoint non-empty ranges in block order. */
  lemma QueryIsWellPlaced(t: Table, onlyComplete: bool, order: seq<nat>)
    requires Inv(t) && Listed(t, order) && forall id :: id in order <==> id in Query(t, onlyComplete)
    ensures WellPlaced(t.latest, Ranges(t, order)) && SortedByStart(Ranges(t, order))
  {
    var ranges := Ranges(t, order);
    forall k | 0 <= k < |ranges| ensures !ranges[k].IsEmpty() && t.latest <= ranges[k].start {
      assert order[k] in Query(t, onlyComplete);
    }
    forall j, k | 0 <= j < k < |ranges| ensures ranges[j].end <= ranges[k].start {
      assert order[j] in Query(t, onlyComplete) && order[k] in Query(t, onlyComplete);
      assert Disjoint(t.requests[order[j]].range, t.requests[order[k]].range);
      assert !ranges[j].IsEmpty() && !ranges[k].IsEmpty();
    }
  }

  /** The planner's query has exactly the active blocks, and its last start gives the horizon. */
  lemma QueryCoversActive(t: Table, order: seq<nat>, finalized: int)
    requires Listed(t, order) && forall id :: id in order <==> id in Query(t, false)
    ensures forall x :: Covers(Ranges(t, order), x) <==> ActiveCovers(t, x)
    ensures IsHorizon(t, finalized, Horizon(finalized, Ranges(t, order)))
  {
    var ranges := Ranges(t, order);
    forall x ensures Covers(ranges, x) <==> ActiveCovers(t, x) {
      if Covers(ranges, x) {
        var k :| 0 <= k < |ranges| && ranges[k].Contains(x);
        assert order[k] in Query(t, false);
      }
      if ActiveCovers(t, x) {
        var id :| ActiveIn(t, id) && t.latest <= t.requests[id].range.start && t.requests[id].range.Contains(x);
        assert id in order;
        var k :| 0 <= k < |order| && order[k] == id;
        assert ranges[k].Contains(x);
      }
    }
    forall id | ActiveIn(t, id) && t.latest <= t.requests[id].range.start
      ensures t.requests[id].range.start <= Horizon(finalized, ranges)
    {
      assert id in order;
      var k :| 0 <= k < |order| && order[k] == id;
      assert k < |order| - 1 ==> t.requests[order[k]].range.start <= t.requests[order[|order| - 1]].range.start;
    }
    if order != [] {
      assert order[|order| - 1] in Query(t, false);
    }
  }

  lemma ChainCanBeProposed(t: Table, order: seq<nat>, used: nat, end: int)
    requires Listed(t, order) && forall id :: id in order <==> id in Query(t, true)
    requires IsLongestChain(t.latest, Ranges(t, order), used, end) && used > 0
    ensures Enabled(t, Proposed(order[..used], end))
  {
    var chain := order[..used];
    forall k | 0 <= k < |chain| ensures ActiveIn(t, chain[k]) && t.requests[chain[k]].status == Complete {
      assert order[k] in Query(t, true);
    }
    assert Ranges(t, chain) == Ranges(t, order)[..used];
  }

  /** No chain of completed requests goes further than the longest one found. */
  lemma NoLongerChain(t: Table, order: seq<nat>, used: nat, end: int, other: seq<nat>, e: int)
    requires Inv(t) && Listed(t, order) && forall id :: id in order <==> id in Query(t, true)
    requires IsLongestChain(t.latest, Ranges(t, order), used, end)
    requires Enabled(t, Proposed(other, e))
    ensures e <= end && used > 0
  {
    var ranges, others := Ranges(t, order), Ranges(t, other);
    QueryIsWellPlaced(t, true, order);
    ChainEndIsFirstUncovered(t.latest, ranges, used, end);
    PartitionSpan(others, t.latest, e, 0, |others| - 1);
    assert !others[0].IsEmpty();
    forall x | t.latest <= x < e ensures Covers(ranges, x) {
      PartitionCovers(others, t.latest, e, x);
      var k :| 0 <= k < |others| && others[k].Contains(x);
      PartitionSpan(others, t.latest, e, k, k);
      assert other[k] in Query(t, true);
      var j :| 0 <= j < |order| && order[j] == other[k];
      assert ranges[j].Contains(x);
    }
  }

  /** The row has the new status and its old range; every other row, the counter and the proposed block are as before. */
  ghost predicate IsUpdate(t: Table, id: nat, status: RequestStatus, u: Table) {
    && u.requests.Keys == t.requests.Keys && id in t.requests
    && u.requests[id].range == t.requests[id].range && u.requests[id].status == status
    && (forall other :: other in t.requests && other != id ==> u.requests[other] == t.requests[other])
    && u.nextId == t.nextId && u.latest == t.latest
  }

  /**
   The row has failed, two new unrequested rows have its blocks, cut at a block between its ends that leaves
   halves of equal length or one apart, and every other row is as before.
   */
  ghost predicate IsReplacement(t: Table, id: nat, u: Table) {
    && id in t.requests && u.requests.Keys == t.requests.Keys + {t.nextId, t.nextId + 1}
    && u.requests[id].range == t.requests[id].range && u.requests[id].status == Failed
    && (forall other :: other in t.requests && other != id ==> u.requests[other] == t.requests[other])
    && u.nextId == t.nextId + 2 && u.latest == t.latest
    && var r, first, second := t.requests[id].range, u.requests[t.nextId], u.requests[t.nextId + 1];
       && first.status == Unrequested && second.status == Unrequested
       && first.range.start == r.start && first.range.end == second.range.start && second.range.end == r.end
       && -1 <= (first.range.end - first.range.start) - (second.range.end - second.range.start) <= 1
  }

  /** One new unrequested row per range, in order; every old row and the proposed block are as before. */
  ghost predicate IsExtension(t: Table, ranges: seq<Range>, u: Table) {
    && u.nextId == t.nextId + |ranges| && u.latest == t.latest
    && (forall id :: id in u.requests <==> id in t.requests || t.nextId <= id < u.nextId)
    && (forall id :: id in t.requests ==> u.requests[id] == t.requests[id])
    && forall k :: 0 <= k < |ranges| ==>
                     t.nextId + k in u.requests && u.requests[t.nextId + k] == Request(ranges[k], Unrequested)
  }

  lemma StatusIsUpdate(t: Table, id: nat, status: RequestStatus)
    requires id in t.requests
    ensures IsUpdate(t, id, status, WithStatus(t, id, status))
  {
  }

  lemma InsertionIsExtension(t: Table, ranges: seq<Range>)
    requires Inv(t)
    ensures IsExtension(t, ranges, Inserted(t, ranges))
  {
  }

  lemma SplitIsReplacement(t: Table, id: nat)
    requires Inv(t) && id in t.requests && t.requests[id].range.end - t.requests[id].range.start > 1
    ensures IsReplacement(t, id, Apply(t, Split(id)))
  {
    var failed, r := WithStatus(t, id, Failed), t.requests[id].range;
    StatusKeepsInv(t, id, Failed);
    StatusIsUpdate(t, id, Failed);
    InsertionIsExtension(failed, Halves(r));
    HalvesPartition(r);
    ReplacedRow(t, id, failed, Midpoint(r), Inserted(failed, Halves(r)));
  }

  lemma ReplacedRow(t: Table, id: nat, failed: Table, mid: int, u: Table)
    requires id in t.requests && id < t.nextId && IsUpdate(t, id, Failed, failed)
    requires IsExtension(failed, [Range(t.requests[id].range.start, mid), Range(mid, t.requests[id].range.end)], u)
    requires -1 <= (mid - t.requests[id].range.start) - (t.requests[id].range.end - mid) <= 1
    ensures IsReplacement(t, id, u)
  {
    var halves := [Range(t.requests[id].range.start, mid), Range(mid, t.requests[id].range.end)];
    assert t.nextId + 0 in u.requests && u.requests[t.nextId + 0] == Request(halves[0], Unrequested);
    assert t.nextId + 1 in u.requests && u.requests[t.nextId + 1] == Request(halves[1], Unrequested);
    assert u.requests.Keys == t.requests.Keys + {t.nextId, t.nextId + 1};
  }

  /** Blocks that are being worked on or are proved are not planned again; only failed and dropped ones are. */
  lemma PlanAvoidsLiveBlocks(t: Table, step: TableStep, id: nat, k: nat)
    requires Inv(t) && step.Planned? && Enabled(t, step) && k < |step.ranges|
    requires id in t.requests
    requires var status := t.requests[id].status;
             status == Unrequested || status == WitnessGeneration || status == Execution || status == Prove || status == Complete
    ensures step.ranges[k].end <= t.requests[id].range.start || t.requests[id].range.end <= step.ranges[k].start
  {
    PlanCovers(step.plan, step.gaps, step.ranges);
    NewRangesAreUnclaimed(t, step.horizon, step.gaps, step.ranges, k, id);
  }

  /** A request that failed, was cancelled or was invalidated holds no block. */
  lemma DeadRequestsHoldNothing(t: Table, x: int)
    ensures ActiveCovers(t, x) <==>
            exists id :: id in t.requests && t.requests[id].status != Failed && t.requests[id].status != Cancelled
                         && t.requests[id].status != Invalidated && t.latest <= t.requests[id].range.start <= x
                         && x < t.requests[id].range.end
  {
    if ActiveCovers(t, x) {
      var id :| ActiveIn(t, id) && t.latest <= t.requests[id].range.start && t.requests[id].range.Contains(x);
      assert t.requests[id].status != Failed;
    }
    if id :| id in t.requests && t.requests[id].status != Failed && t.requests[id].status != Cancelled
             && t.requests[id].status != Invalidated && t.latest <= t.requests[id].range.start <= x
             && x < t.requests[id].range.end {
      assert ActiveIn(t, id);
    }
  }

  /** Once a request has failed without a split, no active request has any of its blocks. */
  lemma FailedBlocksAreFree(t: Table, id: nat, u: Table)
    requires Inv(t) && ActiveIn(t, id) && IsUpdate(t, id, Failed, u)
    ensures Inv(u) && !ActiveIn(u, id)
    ensures forall other :: ActiveIn(u, other) ==> Disjoint(u.requests[other].range, t.requests[id].range)
  {
    forall other | ActiveIn(u, other) ensures ActiveIn(t, other) && other != id && u.requests[other] == t.requests[other] {
    }
  }

  /**
   And the next gas plan takes them up again: afterwards every block of the failed range from the latest
   proposed one up to the plan's horizon is covered by an active request.
   */
  lemma FailedBlocksAreReplanned(t: Table, id: nat, u: Table, plan: TableStep, x: int)
    requires Inv(t) && ActiveIn(t, id) && IsUpdate(t, id, Failed, u)
    requires plan.Planned? && plan.plan.ByGas? && Enabled(u, plan)
    requires t.requests[id].range.Contains(x) && t.latest <= x < plan.horizon
    ensures !ActiveCovers(u, x) && ActiveCovers(Inserted(u, plan.ranges), x)
  {
    FailedBlocksAreFree(t, id, u);
    PlanCovers(plan.plan, plan.gaps, plan.ranges);
    forall k | 0 <= k < |plan.ranges| ensures u.latest <= plan.ranges[k].start {
      assert !plan.ranges[k].IsEmpty() && plan.ranges[k].Contains(plan.ranges[k].start);
      assert Covers(plan.ranges, plan.ranges[k].start);
    }
    InsertedCovers(u, plan.ranges, x);
  }

  /** Every block a plan would have to cover has a consistent gas record. */
  ghost predicate GasIsKnown(t: Table, infos: Infos, horizon: int) {
    forall x :: t.latest <= x < horizon && !ActiveCovers(t, x) ==> Known(infos, x + 1)
  }

  lemma GapBlocksAreUncovered(t: Table, horizon: int, gaps: seq<Range>, infos: Infos)
    requires IsGapList(t, horizon, gaps)
    ensures GasIsKnown(t, infos, horizon) <==>
            forall k, b :: 0 <= k < |gaps| && gaps[k].start < b <= gaps[k].end ==> Known(infos, b)
  {
    if GasIsKnown(t, infos, horizon) {
      forall k, b | 0 <= k < |gaps| && gaps[k].start < b <= gaps[k].end ensures Known(infos, b) {
        assert gaps[k].Contains(b - 1);
        assert Covers(gaps, b - 1);
        assert Known(infos, b - 1 + 1);
      }
    }
    if forall k, b :: 0 <= k < |gaps| && gaps[k].start < b <= gaps[k].end ==> Known(infos, b) {
      forall x | t.latest <= x < horizon && !ActiveCovers(t, x) ensures Known(infos, x + 1) {
        assert Covers(gaps, x);
        var k :| 0 <= k < |gaps| && gaps[k].Contains(x);
      }
    }
  }

  /** The end of the longest chain of completed requests from the latest block on, if there is one. */
  method LongestChain(t: Table) returns (end: Option<int>, ghost chain: seq<nat>)
    requires Inv(t)
    ensures end.Some? ==> Enabled(t, Proposed(chain, end.value))
    ensures forall other, e :: Enabled(t, Proposed(other, e)) ==> end.Some? && e <= end.value
  {
    var order := SortByStart(t, Query(t, true));
    var completed := Ranges(t, order);
    QueryIsWellPlaced(t, true, order);
    ghost var used, last;
    var found;
    found, used, last := HighestContiguousEnd(t.latest, completed);
    WellPlacedNeverBreaks(t.latest, completed, used, last);
    forall other, e | Enabled(t, Proposed(other, e)) ensures e <= last && used > 0 {
      NoLongerChain(t, order, used, last, other, e);
    }
    chain := order[..used];
    if used > 0 {
      ChainCanBeProposed(t, order, used, last);
    }
    end := found.value;
  }

  class RequestBook {
    var requests: map<nat, Request>
    var nextId: nat
    var latest: int

    ghost function View(): Table
      reads this
    {
      Table(requests, nextId, latest)
    }

    ghost predicate Valid()
      reads this
    {
      Inv(View())
    }

    constructor (proposed: int)
      ensures Valid() && View() == Table(map[], 0, proposed)
    {
      requests, nextId, latest := map[], 0, proposed;
    }

    method InsertRequests(ranges: seq<Range>)
      modifies this`requests, this`nextId
      ensures View() == Inserted(old(View()), ranges)
    {
      var t := Table(requests, nextId, latest);
      requests := Inserted(t, ranges).requests;
      nextId := nextId + |ranges|;
    }

    /** `add_new_ranges`: gas mode when the gas limit is positive, block mode otherwise. */
    method AddNewRanges(finalized: int, gasLimit: nat, interval: int, infos: Infos)
      returns (ok: bool, ghost step: TableStep)
      requires Valid()
      requires gasLimit > 0 || interval > 0
      modifies this`requests, this`nextId
      ensures Valid()
      ensures step.Planned? && step.finalized == finalized && IsHorizon(old(View()), finalized, step.horizon)
      ensures ok <==> gasLimit == 0 || GasIsKnown(old(View()), infos, step.horizon)
      ensures if ok then Enabled(old(View()), step) && View() == Apply(old(View()), step)
                         && (step.plan.ByGas? <==> gasLimit > 0) && IsExtension(old(View()), step.ranges, View())
              else View() == old(View())
    {
      var t := Table(requests, nextId, latest);
      var order := SortByStart(t, Query(t, false));
      var active := Ranges(t, order);
      QueryIsWellPlaced(t, false, order);
      QueryCoversActive(t, order, finalized);
      var gaps := FindGaps(latest, finalized, active);
      ghost var horizon, plan := Horizon(finalized, active), ByBlocks(interval, []);
      var ranges: seq<Range>;
      if gasLimit > 0 {
        ghost var parts;
        var planned;
        planned, parts := RangesByGas(gaps, gasLimit, interval, infos);
        plan := ByGas(gasLimit, interval, infos, parts);
        step := Planned(finalized, horizon, gaps, plan, []);
        GapBlocksAreUncovered(t, horizon, gaps, infos);
        if planned.Err? {
          return false, step;
        }
        ranges := planned.value;
      } else {
        ghost var parts;
        ranges, parts := RangesByBlocks(gaps, interval);
        plan := ByBlocks(interval, parts);
      }
      step := Planned(finalized, horizon, gaps, plan, ranges);
      StepKeepsInv(t, step);
      InsertionIsExtension(t, ranges);
      InsertRequests(ranges);
      ok := true;
    }

    /** A request moves on to another active status, `Complete` included. */
    method AdvanceRequest(id: nat, status: RequestStatus)
      requires Valid() && Enabled(View(), Advanced(id, status))
      modifies this`requests
      ensures Valid() && View() == Apply(old(View()), Advanced(id, status))
      ensures IsUpdate(old(View()), id, status, View())
    {
      StepKeepsInv(View(), Advanced(id, status));
      StatusIsUpdate(View(), id, status);
      requests := requests[id := requests[id].(status := status)];
    }

    /** Cancellation, invalidation, or an orphaned task set to failed. */
    method DeactivateRequest(id: nat, status: RequestStatus)
      requires Valid() && Enabled(View(), Deactivated(id, status))
      modifies this`requests
      ensures Valid() && View() == Apply(old(View()), Deactivated(id, status))
      ensures IsUpdate(old(View()), id, status, View()) && !IsActive(requests[id])
    {
      StepKeepsInv(View(), Deactivated(id, status));
      StatusIsUpdate(View(), id, status);
      requests := requests[id := requests[id].(status := status)];
    }

    /**
     `handle_failed_request`, on a row in any status. An invalidated request is left alone; otherwise it
     fails, and a range of more than one block that failed too often or cannot be executed comes back as
     two halves, unless they could not be `created`. The table stays sound exactly when the halves fit,
     which they do for every active request.
     */
    method HandleFailedRequest(id: nat, failures: nat, unexecutable: bool, created: bool)
      returns (ghost step: Option<TableStep>)
      requires Valid() && id in requests
      modifies this`requests, this`nextId
      ensures step == if old(requests[id].status) == Invalidated then None
                      else if old(requests[id].range.end - requests[id].range.start) > 1
                              && (failures > 2 || unexecutable) && created
                      then Some(Split(id)) else Some(Deactivated(id, Failed))
      ensures View() == if step.Some? then Apply(old(View()), step.value) else old(View())
      ensures old(requests[id].status) == Invalidated ==> View() == old(View())
      ensures step == Some(Deactivated(id, Failed)) ==> IsUpdate(old(View()), id, Failed, View())
      ensures step == Some(Split(id)) ==> IsReplacement(old(View()), id, View())
      ensures Valid() <==> (step == Some(Split(id)) ==> HalvesFit(old(View()), id))
      ensures old(IsActive(requests[id])) ==> Valid() && Enabled(old(View()), step.value)
    {
      step := None;
      if requests[id].status == Invalidated {
        return;
      }
      var range := requests[id].range;
      if range.end - range.start > 1 && (failures > 2 || unexecutable) && created {
        step := Some(Split(id));
        SplitRequest(id);
      } else {
        step := Some(Deactivated(id, Failed));
        DeactivateRequest(id, Failed);
      }
    }

    /** The request fails and comes back as two halves. */
    method SplitRequest(id: nat)
      requires Valid() && id in requests && requests[id].range.end - requests[id].range.start > 1
      modifies this`requests, this`nextId
      ensures View() == Apply(old(View()), Split(id)) && IsReplacement(old(View()), id, View())
      ensures Valid() <==> HalvesFit(old(View()), id)
      ensures old(IsActive(requests[id])) ==> Valid()
    {
      SplitKeepsInvIff(View(), id);
      SplitIsReplacement(View(), id);
      if IsActive(requests[id]) {
        ActiveHalvesFit(View(), id);
      }
      var range := requests[id].range;
      var mid := Midpoint(range);
      requests := requests[id := requests[id].(status := Failed)];
      InsertRequests([Range(range.start, mid), Range(mid, range.end)]);
    }

    /**
     Proposes the longest chain of completed ranges once it is long enough. In a valid table the chain
     search cannot fail.
     */
    method Propose(submissionInterval: nat) returns (advanced: bool, ghost chain: seq<nat>)
      requires Valid()
      modifies this`latest
      ensures Valid()
      ensures if advanced then Enabled(old(View()), Proposed(chain, latest))
                               && View() == Apply(old(View()), Proposed(chain, latest))
                               && latest - old(latest) >= submissionInterval
              else View() == old(View())
      ensures forall other, end :: Enabled(old(View()), Proposed(other, end)) ==>
                if advanced then end <= latest else end - latest < submissionInterval
    {
      var t := Table(requests, nextId, latest);
      var end;
      end, chain := LongestChain(t);
      advanced := end.Some? && end.value - latest >= submissionInterval;
      if advanced {
        StepKeepsInv(t, Proposed(chain, end.value));
        latest := end.value;
      }
    }
  }
}

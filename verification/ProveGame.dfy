/** Split a range, prove the pieces in any order, reassemble by index, and aggregate. */
module ProveGame {
  import opened Prelude
  import opened RangeGaps
  import opened Planners
  import opened RangeSplit
  import opened Aggregation

  /** What the chain fixes for one game: the output root of each L2 block, the L1 head, the config. */
  datatype Chain = Chain(root: nat -> Root, l1Header: Header, rollupConfigHash: Hash)

  /** The public values of an honest range proof for the blocks (start, end]. */
  function Boot(chain: Chain, hash: HashFn, start: nat, end: nat): BootInfo {
    BootInfo(hash(chain.l1Header), chain.root(start), chain.root(end), end, chain.rollupConfigHash)
  }

  ghost predicate Blocks(ranges: seq<Range>) {
    forall k :: 0 <= k < |ranges| ==> 0 <= ranges[k].start && 0 <= ranges[k].end
  }

  /** The boot infos of the pieces, in split order. */
  function Boots(chain: Chain, hash: HashFn, ranges: seq<Range>): seq<BootInfo>
    requires Blocks(ranges)
  {
    seq(|ranges|, k requires 0 <= k < |ranges| => Boot(chain, hash, ranges[k].start, ranges[k].end))
  }

  function Tagged(boots: seq<BootInfo>): seq<(nat, BootInfo)> {
    seq(|boots|, k requires 0 <= k < |boots| => (k, boots[k]))
  }

  /** `buffer_unordered`: the same results in some completion order. */
  method CompleteInSomeOrder(tasks: seq<(nat, BootInfo)>) returns (results: seq<(nat, BootInfo)>)
    ensures multiset(results) == multiset(tasks)
  {
    results := [];
    var rest := tasks;
    while rest != []
      invariant multiset(results) + multiset(rest) == multiset(tasks)
      decreases |rest|
    {
      var i :| 0 <= i < |rest|;
      assert rest == rest[..i] + [rest[i]] + rest[i + 1..];
      results := results + [rest[i]];
      rest := rest[..i] + rest[i + 1..];
    }
  }

  ghost predicate Missing(results: seq<(nat, BootInfo)>, i: nat) {
    forall k :: 0 <= k < |results| ==> results[k].0 != i
  }

  /** The slot filling in `prove_game`; an index without a result is an error. */
  method Reassemble(results: seq<(nat, BootInfo)>, n: nat) returns (r: Result<seq<BootInfo>>)
    requires forall k :: 0 <= k < |results| ==> results[k].0 < n
    ensures r.Ok? ==> |r.value| == n && forall i :: 0 <= i < n ==> (i, r.value[i]) in results
    ensures r.Err? <==> exists i :: 0 <= i < n && Missing(results, i)
  {
    var slots := new Option<BootInfo>[n](_ => None);
    for k := 0 to |results|
      invariant forall i :: 0 <= i < n ==>
                  match slots[i]
                  case None => forall j :: 0 <= j < k ==> results[j].0 != i
                  case Some(b) => (i, b) in results
    {
      slots[results[k].0] := Some(results[k].1);
    }
    var boots: seq<BootInfo> := [];
    for i := 0 to n
      invariant |boots| == i && forall j :: 0 <= j < i ==> (j, boots[j]) in results
    {
      if slots[i].None? {
        assert Missing(results, i);
        return Err;
      }
      boots := boots + [slots[i].value];
    }
    forall i | 0 <= i < n ensures !Missing(results, i) {
      var k :| 0 <= k < |results| && results[k] == (i, boots[i]);
    }
    r := Ok(boots);
  }

  /** Whatever the completion order, the slots end up in split order. */
  lemma ReassemblyRestoresOrder(boots: seq<BootInfo>, results: seq<(nat, BootInfo)>)
    requires multiset(results) == multiset(Tagged(boots))
    ensures forall k :: 0 <= k < |results| ==> results[k].0 < |boots| && results[k].1 == boots[results[k].0]
    ensures forall i :: 0 <= i < |boots| ==> (i, boots[i]) in results
  {
    var tagged := Tagged(boots);
    forall k | 0 <= k < |results| ensures results[k].0 < |boots| && results[k].1 == boots[results[k].0] {
      assert results[k] in multiset(tagged);
      var j :| 0 <= j < |tagged| && tagged[j] == results[k];
    }
    forall i | 0 <= i < |boots| ensures (i, boots[i]) in results {
      assert tagged[i] in multiset(results);
    }
  }

  /** The boot infos of a partition chain up, so an honest prover is always accepted. */
  lemma HonestPiecesAreAccepted(
    chain: Chain, hash: HashFn, verify: Verifier, vkey: nat, prover: nat, ranges: seq<Range>, start: nat, end: nat)
    requires Partition(ranges, start, end) && ranges != [] && Blocks(ranges)
    requires forall s: nat, e: nat :: verify(vkey, Boot(chain, hash, s, e))
    ensures Accepts(hash, verify, Inputs(Boots(chain, hash, ranges), hash(chain.l1Header), vkey, prover), [chain.l1Header])
  {
    var boots := Boots(chain, hash, ranges);
    var headers := [chain.l1Header];
    forall b | b in boots ensures verify(vkey, b) && HeadFound(hash, headers, b.l1Head) {
      var k :| 0 <= k < |boots| && boots[k] == b;
      assert hash(headers[0]) == b.l1Head;
    }
    forall k | 0 <= k < |boots| - 1 ensures boots[k].l2PostRoot == boots[k + 1].l2PreRoot {
      assert ranges[k].end == ranges[k + 1].start;
    }
  }

  /** Proves all pieces concurrently and puts the results back in split order. */
  method ProveAll(boots: seq<BootInfo>) returns (gathered: seq<BootInfo>)
    ensures gathered == boots
  {
    var results := CompleteInSomeOrder(Tagged(boots));
    ReassemblyRestoresOrder(boots, results);
    var slots := Reassemble(results, |boots|);
    forall i | 0 <= i < |boots| ensures !Missing(results, i) {
      var k :| 0 <= k < |results| && results[k] == (i, boots[i]);
    }
    gathered := slots.value;
    forall i | 0 <= i < |boots| ensures gathered[i] == boots[i] {
      var k :| 0 <= k < |results| && results[k] == (i, gathered[i]);
    }
  }

  ghost predicate SomePieceFails(ranges: seq<Range>, fails: Range -> bool) {
    exists k :: 0 <= k < |ranges| && fails(ranges[k])
  }

  /** The range proofs themselves: all of them, or an error as soon as one fails. */
  method ProvePieces(chain: Chain, hash: HashFn, ranges: seq<Range>, fails: Range -> bool) returns (r: Result<seq<BootInfo>>)
    requires Blocks(ranges)
    ensures r.Err? <==> SomePieceFails(ranges, fails)
    ensures r.Ok? ==> r.value == Boots(chain, hash, ranges)
  {
    var boots: seq<BootInfo> := [];
    for k := 0 to |ranges|
      invariant forall j :: 0 <= j < k ==> !fails(ranges[j])
      invariant boots == Boots(chain, hash, ranges)[..k]
    {
      if fails(ranges[k]) {
        return Err;
      }
      boots := boots + [Boot(chain, hash, ranges[k].start, ranges[k].end)];
    }
    r := Ok(boots);
  }

  /**
   `prove_game` with an honest prover, for every range, split count, completion order and choice of
   pieces that fail. If no piece of the split fails, the guest accepts, and the claim is the one a single
   proof of (start, end] would make.
   */
  method Prove(
    chain: Chain, hash: HashFn, verify: Verifier, vkey: nat, prover: nat, count: SplitCount, start: u64, end: u64,
    fails: Range -> bool)
    returns (r: Result<Outputs>)
    requires forall s: nat, e: nat :: verify(vkey, Boot(chain, hash, s, e))
    ensures r.Err? <==> end <= start || SomePieceFails(SplitOf(count, start, end), fails)
    ensures r.Ok? ==>
              r.value == Consolidated(Inputs([Boot(chain, hash, start, end)], hash(chain.l1Header), vkey, prover))
    ensures r.Ok? ==>
              && r.value.l2PreRoot == chain.root(start) && r.value.l2PostRoot == chain.root(end)
              && r.value.l2BlockNumber == end && r.value.rollupConfigHash == chain.rollupConfigHash
              && r.value.l1Head == hash(chain.l1Header) && r.value.vkey == vkey && r.value.prover == prover
  {
    var split := Split(count, start, end);
    if split.Err? {
      return Err;
    }
    var ranges := split.value;
    forall k | 0 <= k < |ranges| ensures 0 <= ranges[k].start && 0 <= ranges[k].end {
      PartitionSpan(ranges, start, end, k, k);
      assert !ranges[k].IsEmpty();
    }
    var boots := ProvePieces(chain, hash, ranges, fails);
    if boots.Err? {
      return Err;
    }
    var gathered := ProveAll(boots.value);
    var latestHead := gathered[|gathered| - 1].l1Head;
    HonestPiecesAreAccepted(chain, hash, verify, vkey, prover, ranges, start, end);
    var out := Guest(hash, verify, Inputs(gathered, latestHead, vkey, prover), [chain.l1Header]);
    r := Ok(out.value);
  }
}

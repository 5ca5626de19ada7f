/** The aggregation guest: chaining boot infos, checking L1 heads, and consolidating the claim. */
module Aggregation {
  import opened Prelude

  type Hash = nat
  type Root = nat

  datatype BootInfo = BootInfo(l1Head: Hash, l2PreRoot: Root, l2PostRoot: Root, l2BlockNumber: nat, rollupConfigHash: Hash)

  /** An L1 header: its parent link, and everything else it commits to. */
  datatype Header = Header(parentHash: Hash, rest: nat)

  datatype Inputs = Inputs(bootInfos: seq<BootInfo>, checkpoint: Hash, vkey: nat, prover: nat)

  datatype Outputs = Outputs(
    l1Head: Hash, l2PreRoot: Root, l2PostRoot: Root, l2BlockNumber: nat, rollupConfigHash: Hash, vkey: nat, prover: nat)

  /** The header hash and the proof verifier are library code: any functions. */
  type HashFn = Header -> Hash
  type Verifier = (nat, BootInfo) -> bool

  ghost predicate Sequential(boots: seq<BootInfo>) {
    forall k :: 0 <= k < |boots| - 1 ==>
                  && boots[k].l2PostRoot == boots[k + 1].l2PreRoot
                  && boots[k].rollupConfigHash == boots[k + 1].rollupConfigHash
  }

  /** The hash that header `k` must have: its child's parent hash, or the checkpoint for the last. */
  function Required(headers: seq<Header>, k: nat, checkpoint: Hash): Hash
    requires k < |headers|
  {
    if k == |headers| - 1 then checkpoint else headers[k + 1].parentHash
  }

  /** Headers in ascending order, linked by parent hash up to the checkpoint. */
  ghost predicate LinkedTo(hash: HashFn, headers: seq<Header>, checkpoint: Hash) {
    forall k {:trigger Required(headers, k, checkpoint)} :: 0 <= k < |headers| ==> hash(headers[k]) == Required(headers, k, checkpoint)
  }

  ghost predicate HeadFound(hash: HashFn, headers: seq<Header>, l1Head: Hash) {
    exists k :: 0 <= k < |headers| && hash(headers[k]) == l1Head
  }

  ghost predicate Accepts(hash: HashFn, verify: Verifier, inputs: Inputs, headers: seq<Header>) {
    && inputs.bootInfos != []
    && Sequential(inputs.bootInfos)
    && (forall b :: b in inputs.bootInfos ==> verify(inputs.vkey, b))
    && LinkedTo(hash, headers, inputs.checkpoint)
    && forall b :: b in inputs.bootInfos ==> HeadFound(hash, headers, b.l1Head)
  }

  function Consolidated(inputs: Inputs): Outputs
    requires inputs.bootInfos != []
  {
    var first, last := inputs.bootInfos[0], inputs.bootInfos[|inputs.bootInfos| - 1];
    Outputs(inputs.checkpoint, first.l2PreRoot, last.l2PostRoot, last.l2BlockNumber, last.rollupConfigHash,
            inputs.vkey, inputs.prover)
  }

  /** The reverse walk over the headers: None when a link is broken, else every head it marked. */
  method WalkHeaders(hash: HashFn, headers: seq<Header>, checkpoint: Hash, heads: set<Hash>)
    returns (r: Option<map<Hash, bool>>)
    ensures r.Some? <==> LinkedTo(hash, headers, checkpoint)
    ensures r.Some? ==> r.value.Keys == heads
    ensures r.Some? ==> forall h :: h in heads ==> (r.value[h] <==> HeadFound(hash, headers, h))
  {
    var found := map h | h in heads :: false;
    var current := checkpoint;
    var n := |headers|;
    while n > 0
      invariant 0 <= n <= |headers|
      invariant current == if n == |headers| then checkpoint else headers[n].parentHash
      invariant forall k {:trigger Required(headers, k, checkpoint)} ::
                  n <= k < |headers| ==> hash(headers[k]) == Required(headers, k, checkpoint)
      invariant found.Keys == heads
      invariant forall h :: h in heads ==>
                  (found[h] <==> exists k :: n <= k < |headers| && hash(headers[k]) == h)
    {
      var header := headers[n - 1];
      assert current == Required(headers, n - 1, checkpoint);
      if current != hash(header) {
        assert !LinkedTo(hash, headers, checkpoint);
        return None;
      }
      ghost var before := found;
      if current in found {
        found := found[current := true];
      }
      forall h | h in heads
        ensures found[h] <==> exists k :: n - 1 <= k < |headers| && hash(headers[k]) == h
      {
        if h == current {
          assert hash(headers[n - 1]) == h;
        } else if found[h] {
          var k :| n <= k < |headers| && hash(headers[k]) == h;
        }
      }
      current := header.parentHash;
      n := n - 1;
    }
    r := Some(found);
  }

  /** The guest program. A failed assertion aborts it: None. */
  method Guest(hash: HashFn, verify: Verifier, inputs: Inputs, headers: seq<Header>) returns (r: Option<Outputs>)
    ensures r.Some? <==> Accepts(hash, verify, inputs, headers)
    ensures r.Some? ==> r.value == Consolidated(inputs)
    ensures r.Some? ==> r.value.vkey == inputs.vkey && r.value.prover == inputs.prover
  {
    var boots := inputs.bootInfos;
    if boots == [] {
      return None;
    }
    for k := 1 to |boots|
      invariant forall j :: 0 <= j < k - 1 ==>
                  && boots[j].l2PostRoot == boots[j + 1].l2PreRoot
                  && boots[j].rollupConfigHash == boots[j + 1].rollupConfigHash
    {
      if boots[k - 1].l2PostRoot != boots[k].l2PreRoot || boots[k - 1].rollupConfigHash != boots[k].rollupConfigHash {
        assert boots[k] == boots[k - 1 + 1];
        return None;
      }
    }
    for k := 0 to |boots|
      invariant forall j :: 0 <= j < k ==> verify(inputs.vkey, boots[j])
    {
      if !verify(inputs.vkey, boots[k]) {
        return None;
      }
    }
    var heads := set b | b in boots :: b.l1Head;
    var walked := WalkHeaders(hash, headers, inputs.checkpoint, heads);
    if walked.None? {
      return None;
    }
    var missing := set h | h in heads && !walked.value[h];
    if missing != {} {
      ghost var h :| h in missing;
      ghost var b :| b in boots && b.l1Head == h;
      assert !HeadFound(hash, headers, b.l1Head);
      return None;
    }
    forall b | b in boots ensures HeadFound(hash, headers, b.l1Head) {
      assert b.l1Head in heads && b.l1Head !in missing;
    }
    r := Some(Consolidated(inputs));
  }

  // ----- soundness -----

  /** `h` is `c` or is reached from it by parent links. */
  ghost predicate IsAncestor(hash: HashFn, h: Hash, c: Hash) {
    exists path: seq<Header> :: IsDescent(hash, path, c) && path != [] && hash(path[|path| - 1]) == h
  }

  function Expected(path: seq<Header>, k: nat, c: Hash): Hash
    requires k < |path|
  {
    if k == 0 then c else path[k - 1].parentHash
  }

  /** A walk down from `c` by parent hashes. */
  ghost predicate IsDescent(hash: HashFn, path: seq<Header>, c: Hash) {
    forall k {:trigger Expected(path, k, c)} :: 0 <= k < |path| ==> hash(path[k]) == Expected(path, k, c)
  }

  lemma {:induction false} LinkedHeaderIsAncestor(hash: HashFn, headers: seq<Header>, checkpoint: Hash, k: nat)
    returns (path: seq<Header>)
    requires LinkedTo(hash, headers, checkpoint) && k < |headers|
    ensures IsDescent(hash, path, checkpoint) && path != [] && path[|path| - 1] == headers[k]
    decreases |headers| - k
  {
    if k == |headers| - 1 {
      path := [headers[k]];
    } else {
      var above := LinkedHeaderIsAncestor(hash, headers, checkpoint, k + 1);
      path := above + [headers[k]];
      forall j | 0 <= j < |path| ensures hash(path[j]) == Expected(path, j, checkpoint) {
        if j < |above| {
          assert hash(above[j]) == Expected(above, j, checkpoint);
        } else {
          assert hash(headers[k]) == Required(headers, k, checkpoint);
        }
      }
    }
  }

  /** What a range proof stands for: a valid L2 transition derived from an L1 head. */
  type Transition = BootInfo -> bool

  ghost predicate SoundVerifier(verify: Verifier, vkey: nat, valid: Transition) {
    forall b :: verify(vkey, b) ==> valid(b)
  }

  /** Roots joined step by step by valid transitions under one config, each from a head below `c`. */
  ghost predicate JoinedBy(
    hash: HashFn, valid: Transition, roots: seq<Root>, steps: seq<BootInfo>, config: Hash, c: Hash)
  {
    && |roots| == |steps| + 1
    && forall k :: 0 <= k < |steps| ==>
         && valid(steps[k])
         && steps[k].l2PreRoot == roots[k] && steps[k].l2PostRoot == roots[k + 1]
         && steps[k].rollupConfigHash == config
         && IsAncestor(hash, steps[k].l1Head, c)
  }

  lemma {:induction false} OneConfig(boots: seq<BootInfo>, k: nat)
    requires Sequential(boots) && k < |boots|
    ensures boots[k].rollupConfigHash == boots[|boots| - 1].rollupConfigHash
    decreases |boots| - k
  {
    if k == |boots| - 1 {
    } else {
      OneConfig(boots, k + 1);
    }
  }

  lemma AcceptedAt(hash: HashFn, verify: Verifier, inputs: Inputs, headers: seq<Header>, k: nat)
    requires Accepts(hash, verify, inputs, headers) && k < |inputs.bootInfos|
    ensures verify(inputs.vkey, inputs.bootInfos[k])
    ensures IsAncestor(hash, inputs.bootInfos[k].l1Head, inputs.checkpoint)
  {
    var head := inputs.bootInfos[k].l1Head;
    assert inputs.bootInfos[k] in inputs.bootInfos;
    assert HeadFound(hash, headers, head);
    var j :| 0 <= j < |headers| && hash(headers[j]) == head;
    var path := LinkedHeaderIsAncestor(hash, headers, inputs.checkpoint, j);
  }

  /**
   If the guest accepts and the range verifier is sound, the committed pre-root and post-root are the
   ends of a chain of valid transitions under the committed config, each derived from an L1 head that
   is the committed checkpoint or one of its ancestors.
   */
  lemma AggregationIsSound(hash: HashFn, verify: Verifier, inputs: Inputs, headers: seq<Header>, valid: Transition)
    returns (roots: seq<Root>)
    requires Accepts(hash, verify, inputs, headers)
    requires SoundVerifier(verify, inputs.vkey, valid)
    ensures var out := Consolidated(inputs);
            && JoinedBy(hash, valid, roots, inputs.bootInfos, out.rollupConfigHash, out.l1Head)
            && roots[0] == out.l2PreRoot && roots[|roots| - 1] == out.l2PostRoot
            && inputs.bootInfos[|inputs.bootInfos| - 1].l2BlockNumber == out.l2BlockNumber
            && out.l1Head == inputs.checkpoint && out.prover == inputs.prover
            && forall b :: b in inputs.bootInfos ==> verify(out.vkey, b)
  {
    var boots := inputs.bootInfos;
    roots := seq(|boots| + 1, k requires 0 <= k <= |boots| => if k == 0 then boots[0].l2PreRoot else boots[k - 1].l2PostRoot);
    forall k | 0 <= k < |boots|
      ensures valid(boots[k]) && boots[k].l2PreRoot == roots[k] && IsAncestor(hash, boots[k].l1Head, inputs.checkpoint)
      ensures boots[k].rollupConfigHash == boots[|boots| - 1].rollupConfigHash
    {
      AcceptedAt(hash, verify, inputs, headers, k);
      OneConfig(boots, k);
      if k > 0 {
        assert boots[k - 1].l2PostRoot == boots[k - 1 + 1].l2PreRoot;
      }
    }
  }

  ghost predicate Injective(hash: HashFn) {
    forall a, b :: hash(a) == hash(b) ==> a == b
  }

  lemma {:induction false} HeadersAgreeFromTheTop(
    hash: HashFn, a: seq<Header>, b: seq<Header>, checkpoint: Hash, j: nat)
    requires Injective(hash) && LinkedTo(hash, a, checkpoint) && LinkedTo(hash, b, checkpoint)
    requires j < |a| && j < |b|
    ensures a[|a| - 1 - j] == b[|b| - 1 - j]
  {
    if j > 0 {
      HeadersAgreeFromTheTop(hash, a, b, checkpoint, j - 1);
    }
    assert hash(a[|a| - 1 - j]) == Required(a, |a| - 1 - j, checkpoint);
    assert hash(b[|b| - 1 - j]) == Required(b, |b| - 1 - j, checkpoint);
  }

  /** With a collision-free hash, the checkpoint and the length leave no choice of headers. */
  lemma HeadersAreDetermined(hash: HashFn, a: seq<Header>, b: seq<Header>, checkpoint: Hash)
    requires Injective(hash) && LinkedTo(hash, a, checkpoint) && LinkedTo(hash, b, checkpoint)
    requires |a| <= |b|
    ensures a == b[|b| - |a|..]
    ensures |a| == |b| ==> a == b
  {
    forall i | 0 <= i < |a| ensures a[i] == b[|b| - |a| + i] {
      HeadersAgreeFromTheTop(hash, a, b, checkpoint, |a| - 1 - i);
    }
    if |a| == |b| {
      assert a == b;
    }
  }

  /**
   Aggregating a concatenation is aggregating the two parts: it is accepted exactly when both are and
   they meet, and its claim runs from the first part's pre-root to the second part's post-root.
   */
  lemma ConcatenationAggregates(
    hash: HashFn, verify: Verifier, a: Inputs, b: Inputs, headers: seq<Header>)
    requires a.bootInfos != [] && b.bootInfos != []
    requires b.checkpoint == a.checkpoint && b.vkey == a.vkey && b.prover == a.prover
    ensures var whole := a.(bootInfos := a.bootInfos + b.bootInfos);
            var (left, right) := (Consolidated(a), Consolidated(b));
            && (Accepts(hash, verify, whole, headers) <==>
                && Accepts(hash, verify, a, headers) && Accepts(hash, verify, b, headers)
                && left.l2PostRoot == right.l2PreRoot && left.rollupConfigHash == b.bootInfos[0].rollupConfigHash)
            && Consolidated(whole) == right.(l2PreRoot := left.l2PreRoot)
  {
    var boots := a.bootInfos + b.bootInfos;
    var m := |a.bootInfos|;
    assert Sequential(boots) <==>
           && Sequential(a.bootInfos) && Sequential(b.bootInfos)
           && a.bootInfos[m - 1].l2PostRoot == b.bootInfos[0].l2PreRoot
           && a.bootInfos[m - 1].rollupConfigHash == b.bootInfos[0].rollupConfigHash by {
      SequentialConcat(a.bootInfos, b.bootInfos);
    }
  }

  lemma SequentialConcat(a: seq<BootInfo>, b: seq<BootInfo>)
    requires a != [] && b != []
    ensures Sequential(a + b) <==>
            && Sequential(a) && Sequential(b)
            && a[|a| - 1].l2PostRoot == b[0].l2PreRoot && a[|a| - 1].rollupConfigHash == b[0].rollupConfigHash
  {
    var boots := a + b;
    if Sequential(boots) {
      forall k | 0 <= k < |a| - 1
        ensures a[k].l2PostRoot == a[k + 1].l2PreRoot && a[k].rollupConfigHash == a[k + 1].rollupConfigHash
      {
        assert boots[k] == a[k] && boots[k + 1] == a[k + 1];
      }
      forall k | 0 <= k < |b| - 1
        ensures b[k].l2PostRoot == b[k + 1].l2PreRoot && b[k].rollupConfigHash == b[k + 1].rollupConfigHash
      {
        assert boots[|a| + k] == b[k] && boots[|a| + k + 1] == b[k + 1];
      }
      assert boots[|a| - 1] == a[|a| - 1] && boots[|a| - 1 + 1] == b[0];
    }
  }
}

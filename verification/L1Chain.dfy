/**
 L1 as the tree of every block that ever exists on any fork. A reorg is a move of the head to
 another branch, so one fixed tree serves a whole run.
 */
module L1Chain {
  import opened Prelude

  type Hash = nat

  datatype Header = Header(number: nat, hash: Hash, parentHash: Hash, timestamp: nat)

  datatype BlockNumHash = BlockNumHash(number: nat, hash: Hash)

  type BlockTree = map<Hash, Header>

  /** A block is stored under its own hash, on a parent one number below. */
  ghost predicate GoodHeader(tree: BlockTree, h: Hash) {
    h in tree ==>
      && tree[h].hash == h
      && (tree[h].number > 0 ==>
            && tree[h].parentHash in tree
            && tree[tree[h].parentHash].number + 1 == tree[h].number)
  }

  /** A hash names one header, and parent links go down one block number at a time. */
  ghost predicate WellFormed(tree: BlockTree) {
    forall h :: GoodHeader(tree, h)
  }

  ghost predicate InTree(tree: BlockTree, header: Header) {
    header.hash in tree && tree[header.hash] == header
  }

  /** The block at height `n` below `h`, by parent links. */
  ghost function AncestorAt(tree: BlockTree, h: Hash, n: nat): (a: Hash)
    requires WellFormed(tree) && h in tree && n <= tree[h].number
    ensures a in tree && tree[a].number == n
    decreases tree[h].number
  {
    assert GoodHeader(tree, h);
    if tree[h].number == n then h else AncestorAt(tree, tree[h].parentHash, n)
  }

  /** `block` is `h` itself or lies below it. */
  ghost predicate OnChainOf(tree: BlockTree, h: Hash, block: BlockNumHash)
    requires WellFormed(tree) && h in tree
  {
    block.number <= tree[h].number && AncestorAt(tree, h, block.number) == block.hash
  }

  lemma {:induction false} AncestorOfAncestor(tree: BlockTree, h: Hash, m: nat, n: nat)
    requires WellFormed(tree) && h in tree && n <= m <= tree[h].number
    ensures AncestorAt(tree, AncestorAt(tree, h, m), n) == AncestorAt(tree, h, n)
    decreases tree[h].number
  {
    assert GoodHeader(tree, h);
    if tree[h].number == m {
    } else {
      AncestorOfAncestor(tree, tree[h].parentHash, m, n);
    }
  }

  /**
   `get_block_by_hash`: may fail, and may answer with any real header. Here and below, `healthy` says
   that every read is answered, and answered to the point.
   */
  method GetBlockByHash(tree: BlockTree, hash: Hash, healthy: bool) returns (r: Result<Header>)
    requires WellFormed(tree)
    ensures r.Ok? ==> InTree(tree, r.value)
    ensures healthy && hash in tree ==> r == Ok(tree[hash])
  {
    var answered: Hash := *;
    assert GoodHeader(tree, hash) && GoodHeader(tree, answered);
    if healthy {
      answered := hash;
    }
    r := if answered in tree then Ok(tree[answered]) else Err;
  }

  /** Follows parent hashes down to a height; every step is checked against its child. */
  method L1Ancestor(tree: BlockTree, header: Header, number: nat, healthy: bool) returns (r: Result<Header>)
    requires WellFormed(tree) && InTree(tree, header)
    ensures r.Ok? ==>
              && number <= header.number
              && InTree(tree, r.value)
              && r.value.hash == AncestorAt(tree, header.hash, number)
    ensures healthy && number <= header.number ==> r.Ok?
  {
    if number > header.number {
      return Err;
    }
    var current := header;
    while current.number > number
      invariant InTree(tree, current) && number <= current.number
      invariant AncestorAt(tree, current.hash, number) == AncestorAt(tree, header.hash, number)
      decreases current.number
    {
      assert GoodHeader(tree, current.hash) && GoodHeader(tree, current.parentHash);
      var answer := GetBlockByHash(tree, current.parentHash, healthy);
      if answer.Err? {
        return Err;
      }
      var parent := answer.value;
      if parent.hash != current.parentHash || parent.number + 1 != current.number {
        return Err;
      }
      current := parent;
    }
    r := Ok(current);
  }
}

/** `prune_finalized_removals`: releasing rollback records once their block is final. */
module FinalizedRemovals {
  import opened Prelude
  import opened L1Chain

  type Removals = map<nat, BlockNumHash>

  ghost function Lower(a: Header, b: Header): Header {
    if b.number <= a.number then b else a
  }

  ghost predicate SameChain(tree: BlockTree, a: Header, b: Header)
    requires WellFormed(tree) && InTree(tree, a) && InTree(tree, b)
  {
    if b.number <= a.number then AncestorAt(tree, a.hash, b.number) == b.hash
    else AncestorAt(tree, b.hash, a.number) == a.hash
  }

  /** The removals that a separate ancestor walk from `low` confirms, one walk per removal. */
  ghost function Confirmed(tree: BlockTree, removals: Removals, low: Hash): set<nat>
    requires WellFormed(tree) && low in tree
  {
    set i | i in removals && OnChainOf(tree, low, removals[i])
  }

  /** On one chain, being confirmed from the lower head is being below both heads. */
  lemma ConfirmedMeansFinalOnBothHeads(
    tree: BlockTree, removals: Removals, selected: Header, finalized: Header, i: nat)
    requires WellFormed(tree) && InTree(tree, selected) && InTree(tree, finalized)
    requires SameChain(tree, selected, finalized) && i in removals
    ensures i in Confirmed(tree, removals, Lower(selected, finalized).hash) <==>
            OnChainOf(tree, selected.hash, removals[i]) && OnChainOf(tree, finalized.hash, removals[i])
  {
    var low := Lower(selected, finalized);
    if removals[i].number <= low.number {
      AncestorOfAncestor(tree, selected.hash, low.number, removals[i].number);
      AncestorOfAncestor(tree, finalized.hash, low.number, removals[i].number);
    }
  }

  ghost predicate Descending(removals: Removals, order: seq<nat>) {
    && (forall k :: 0 <= k < |order| ==> order[k] in removals)
    && forall j, k :: 0 <= j < k < |order| ==> removals[order[k]].number <= removals[order[j]].number
  }

  /** A candidate that no other one exceeds. */
  method PickHighest(removals: Removals, candidates: set<nat>) returns (best: nat)
    requires candidates <= removals.Keys && candidates != {}
    ensures best in candidates && forall i :: i in candidates ==> removals[i].number <= removals[best].number
  {
    best :| best in candidates;
    var rest := candidates - {best};
    while rest != {}
      invariant rest <= candidates && best in candidates
      invariant forall i :: i in candidates && i !in rest ==> removals[i].number <= removals[best].number
      decreases |rest|
    {
      var i :| i in rest;
      rest := rest - {i};
      if removals[best].number < removals[i].number {
        best := i;
      }
    }
  }

  /** `sort_unstable_by_key` with the block numbers reversed. */
  method SortDescending(removals: Removals, candidates: set<nat>) returns (order: seq<nat>)
    requires candidates <= removals.Keys
    ensures Descending(removals, order)
    ensures forall i :: i in order <==> i in candidates
  {
    order := [];
    var rest := candidates;
    while rest != {}
      invariant rest <= candidates && Descending(removals, order)
      invariant forall i :: i in order <==> i in candidates && i !in rest
      invariant forall k, i :: 0 <= k < |order| && i in rest ==> removals[i].number <= removals[order[k]].number
      decreases |rest|
    {
      var best := PickHighest(removals, rest);
      order := order + [best];
      rest := rest - {best};
    }
  }

  /** The walk itself: one pass down from `low`, stopping at each candidate's height in turn. */
  method WalkDown(tree: BlockTree, removals: Removals, low: Header, order: seq<nat>, healthy: bool)
    returns (r: Result<set<nat>>)
    requires WellFormed(tree) && InTree(tree, low) && Descending(removals, order)
    requires forall k :: 0 <= k < |order| ==> removals[order[k]].number <= low.number
    ensures r.Ok? ==> forall i :: i in r.value <==> i in order && OnChainOf(tree, low.hash, removals[i])
    ensures healthy ==> r.Ok?
  {
    var ancestor := low;
    var found: set<nat> := {};
    for k := 0 to |order|
      invariant InTree(tree, ancestor) && ancestor.number <= low.number
      invariant forall j :: k <= j < |order| ==> removals[order[j]].number <= ancestor.number
      invariant AncestorAt(tree, low.hash, ancestor.number) == ancestor.hash
      invariant forall i :: i in found <==> i in order[..k] && OnChainOf(tree, low.hash, removals[i])
    {
      var block := removals[order[k]];
      AncestorOfAncestor(tree, low.hash, ancestor.number, block.number);
      var walked := L1Ancestor(tree, ancestor, block.number, healthy);
      if walked.Err? {
        return Err;
      }
      ancestor := walked.value;
      if ancestor.hash == block.hash {
        found := found + {order[k]};
      }
      assert order[..k + 1] == order[..k] + [order[k]];
    }
    assert order[..|order|] == order;
    r := Ok(found);
  }

  /** The answer to a block query: none, or a block of the tree. */
  ghost predicate IsRealAnswer(tree: BlockTree, answer: Option<Header>) {
    answer.Some? ==> InTree(tree, answer.value)
  }

  /** Nothing to release, nothing old enough, or a finality answer on the selected block's own chain. */
  ghost predicate CanRelease(tree: BlockTree, removals: Removals, selected: Header, finality: Option<Header>)
    requires WellFormed(tree) && InTree(tree, selected) && IsRealAnswer(tree, finality)
  {
    || removals == map[]
    || (&& finality.Some?
        && (|| SameChain(tree, selected, finality.value)
            || forall i :: i in removals ==> Lower(selected, finality.value).number < removals[i].number))
  }

  /** What independent walks from the lower of the two heads confirm. */
  ghost function ToRelease(tree: BlockTree, removals: Removals, selected: Header, finality: Option<Header>): set<nat>
    requires WellFormed(tree) && InTree(tree, selected) && IsRealAnswer(tree, finality)
  {
    if finality.None? then {} else Confirmed(tree, removals, Lower(selected, finality.value).hash)
  }

  /** A record is released exactly when its block lies below both the selected and the finalized head. */
  lemma ReleasedMeansFinal(tree: BlockTree, removals: Removals, selected: Header, finality: Option<Header>, i: nat)
    requires WellFormed(tree) && InTree(tree, selected) && IsRealAnswer(tree, finality)
    requires CanRelease(tree, removals, selected, finality)
    ensures i in ToRelease(tree, removals, selected, finality) <==>
            && i in removals && finality.Some?
            && OnChainOf(tree, selected.hash, removals[i]) && OnChainOf(tree, finality.value.hash, removals[i])
  {
    if i in removals && finality.Some? && SameChain(tree, selected, finality.value) {
      ConfirmedMeansFinalOnBothHeads(tree, removals, selected, finality.value, i);
    }
  }

  /**
   One descending walk over all candidates. It releases exactly what independent walks would, and
   releases nothing at all when a read fails or when the two heads are on different forks. `finality`
   is what the backend answers for the finalized block.
   */
  method FindFinalized(tree: BlockTree, removals: Removals, selected: Header, finality: Option<Header>, healthy: bool)
    returns (r: Result<set<nat>>)
    requires WellFormed(tree) && InTree(tree, selected) && IsRealAnswer(tree, finality)
    ensures r.Ok? ==>
              CanRelease(tree, removals, selected, finality)
              && r.value == ToRelease(tree, removals, selected, finality)
    ensures healthy && CanRelease(tree, removals, selected, finality) ==> r.Ok?
  {
    if removals == map[] {
      return Ok({});
    }
    if finality.None? {
      return Err;
    }
    var finalized := finality.value;
    var limit := Min(selected.number, finalized.number);
    var candidates := set i | i in removals && removals[i].number <= limit;
    if candidates == {} {
      forall i | i in removals ensures removals[i].number > limit {
        assert i !in candidates;
      }
      return Ok({});
    }
    var start := if finalized.number <= selected.number then selected else finalized;
    var low := if finalized.number <= selected.number then finalized else selected;
    var walked := L1Ancestor(tree, start, low.number, healthy);
    if walked.Err? || walked.value.hash != low.hash {
      assert exists i :: i in candidates;
      return Err;
    }
    var order := SortDescending(removals, candidates);
    forall k | 0 <= k < |order| ensures removals[order[k]].number <= low.number {
      assert order[k] in candidates;
    }
    r := WalkDown(tree, removals, low, order, healthy);
  }
}

/**
 The proposer's cache of dispute games seen as a graph: parent links, the subtree walk, and the
 choice of the canonical head.
 */
module GameGraph {
  import opened Prelude

  type Address = nat
  const ZERO_ADDRESS: Address := 0

  /** `u32::MAX`: the parent index of a game that builds on the anchor state itself. */
  const NO_PARENT: nat := 0xFFFF_FFFF

  datatype GameStatus = InProgress | ChallengerWins | DefenderWins

  datatype ProposalStatus =
    | Unchallenged
    | Challenged
    | UnchallengedAndProven
    | ChallengedAndProven
    | Resolved

  /** The three identity parameters that decide whether the proposer can prove a game. */
  datatype Keys = Keys(aggregationVkey: nat, rangeVkey: nat, rollupConfigHash: nat)

  /** The action flags a sync pass derives for a game. */
  datatype Flags = Flags(resolve: bool, close: bool, claim: bool)

  const NO_FLAGS := Flags(false, false, false)

  datatype Game = Game(
    index: nat,
    address: Address,
    parentIndex: nat,
    l2Block: nat,
    status: GameStatus,
    proposalStatus: ProposalStatus,
    deadline: nat,
    flags: Flags,
    keys: Keys)

  type Cache = map<nat, Game>

  /** Every cache entry is stored under its own factory index. */
  ghost predicate Indexed(games: Cache) {
    forall i :: i in games ==> games[i].index == i
  }

  predicate IsChild(games: Cache, parent: nat, child: nat) {
    child in games && games[child].parentIndex == parent
  }

  /** The path steps down one child edge to its element `k`. */
  ghost predicate StepsDown(games: Cache, path: seq<nat>, k: nat)
    requires 0 < k < |path|
  {
    IsChild(games, path[k - 1], path[k])
  }

  /** A walk down cached child edges. Only the first element may lie outside the cache. */
  ghost predicate IsPath(games: Cache, root: nat, path: seq<nat>) {
    && |path| > 0
    && path[0] == root
    && forall k :: 0 < k < |path| ==> StepsDown(games, path, k)
  }

  ghost predicate Reaches(games: Cache, root: nat, i: nat) {
    exists path :: IsPath(games, root, path) && path[|path| - 1] == i
  }

  /** Everything reachable from `root`, the root included: the reference for the stack walk. */
  ghost function Descendants(games: Cache, root: nat): set<nat> {
    set i | i in games.Keys + {root} && Reaches(games, root, i)
  }

  ghost predicate Closed(games: Cache, within: set<nat>) {
    forall p, c :: p in within && IsChild(games, p, c) ==> c in within
  }

  lemma RootReachesItself(games: Cache, root: nat)
    ensures Reaches(games, root, root)
  {
    assert IsPath(games, root, [root]);
  }

  lemma ReachesStep(games: Cache, root: nat, p: nat, c: nat)
    requires Reaches(games, root, p) && IsChild(games, p, c)
    ensures Reaches(games, root, c)
  {
    var path :| IsPath(games, root, path) && path[|path| - 1] == p;
    var longer := path + [c];
    forall k | 0 < k < |longer| ensures StepsDown(games, longer, k) {
      assert k < |path| ==> StepsDown(games, path, k);
    }
    assert IsPath(games, root, longer) && longer[|longer| - 1] == c;
  }

  lemma {:induction false} PathStaysInside(games: Cache, root: nat, path: seq<nat>, within: set<nat>)
    requires root in within && Closed(games, within) && IsPath(games, root, path)
    ensures path[|path| - 1] in within
    decreases |path|
  {
    if |path| == 1 {
    } else {
      var shorter := path[..|path| - 1];
      assert IsPath(games, root, shorter) by {
        forall k | 0 < k < |shorter| ensures StepsDown(games, shorter, k) {
          assert StepsDown(games, path, k);
        }
      }
      PathStaysInside(games, root, shorter, within);
      assert StepsDown(games, path, |path| - 1);
    }
  }

  /** The subtree is the least set that contains the root and is closed under child edges. */
  lemma DescendantsAreLeastClosedSet(games: Cache, root: nat)
    ensures root in Descendants(games, root)
    ensures Closed(games, Descendants(games, root))
    ensures forall within: set<nat> ::
              root in within && Closed(games, within) ==> Descendants(games, root) <= within
  {
    RootReachesItself(games, root);
    forall p, c | p in Descendants(games, root) && IsChild(games, p, c)
      ensures c in Descendants(games, root)
    {
      ReachesStep(games, root, p, c);
    }
    forall within: set<nat> | root in within && Closed(games, within)
      ensures Descendants(games, root) <= within
    {
      forall i | i in Descendants(games, root) ensures i in within {
        var path :| IsPath(games, root, path) && path[|path| - 1] == i;
        PathStaysInside(games, root, path, within);
      }
    }
  }

  /** Removing games from the cache can only shrink a subtree. */
  lemma DescendantsShrink(games: Cache, fewer: Cache, root: nat)
    requires forall i :: i in fewer ==> i in games && fewer[i].parentIndex == games[i].parentIndex
    ensures Descendants(fewer, root) <= Descendants(games, root)
  {
    DescendantsAreLeastClosedSet(games, root);
    DescendantsAreLeastClosedSet(fewer, root);
    assert Closed(fewer, Descendants(games, root)) by {
      forall p, c | p in Descendants(games, root) && IsChild(fewer, p, c)
        ensures c in Descendants(games, root)
      {
        assert IsChild(games, p, c);
      }
    }
  }

  /**
   Dropping a subtree leaves no cached game reachable from its root, and the games that stay keep
   their own subtrees, less what was dropped.
   */
  lemma DroppedSubtreeIsGone(games: Cache, root: nat)
    ensures Descendants(games - Descendants(games, root), root) == {root}
    ensures root !in (games - Descendants(games, root)).Keys
  {
    var rest := games - Descendants(games, root);
    DescendantsAreLeastClosedSet(games, root);
    DescendantsAreLeastClosedSet(rest, root);
    assert Closed(rest, {root}) by {
      forall c | IsChild(rest, root, c) ensures false {
        assert IsChild(games, root, c);
      }
    }
  }

  /** After a closed set of games is gone, a subtree has lost exactly the games in that set. */
  lemma SubtreeAfterClosedRemoval(games: Cache, gone: set<nat>, root: nat)
    requires Closed(games, gone)
    ensures Descendants(games - gone, root) <= Descendants(games, root)
    ensures Descendants(games, root) <= Descendants(games - gone, root) + gone
  {
    var rest := games - gone;
    DescendantsShrink(games, rest, root);
    DescendantsAreLeastClosedSet(games, root);
    DescendantsAreLeastClosedSet(rest, root);
    assert Closed(games, Descendants(rest, root) + gone) by {
      forall p, c | p in Descendants(rest, root) + gone && IsChild(games, p, c)
        ensures c in Descendants(rest, root) + gone
      {
        assert c !in gone && p in Descendants(rest, root) ==> IsChild(rest, p, c);
      }
    }
  }

  /** Everything cached below any of the listed roots. */
  ghost function AllSubtrees(games: Cache, roots: seq<nat>): set<nat> {
    set i | i in games && exists k :: 0 <= k < |roots| && i in Descendants(games, roots[k])
  }

  lemma AllSubtreesOneMore(games: Cache, roots: seq<nat>, root: nat)
    ensures Closed(games, AllSubtrees(games, roots))
    ensures AllSubtrees(games, roots + [root]) == AllSubtrees(games, roots) + Descendants(games, root) * games.Keys
  {
    forall p, c | p in AllSubtrees(games, roots) && IsChild(games, p, c) ensures c in AllSubtrees(games, roots) {
      var k :| 0 <= k < |roots| && p in Descendants(games, roots[k]);
      DescendantsAreLeastClosedSet(games, roots[k]);
    }
    var more := roots + [root];
    forall i | i in games
      ensures i in AllSubtrees(games, more) <==> i in AllSubtrees(games, roots) || i in Descendants(games, root)
    {
      if i in AllSubtrees(games, roots) {
        var k :| 0 <= k < |roots| && i in Descendants(games, roots[k]);
        assert more[k] == roots[k];
      }
      if i in Descendants(games, root) {
        assert more[|roots|] == root;
      }
    }
  }

  /** Where the stack walk stands: what it holds is reachable, and no child of a visited game is missed. */
  ghost predicate Walking(games: Cache, root: nat, stack: seq<nat>, visited: set<nat>) {
    && (forall x :: x in stack || x in visited ==> x in games.Keys + {root} && Reaches(games, root, x))
    && (root in stack || root in visited)
    && forall p, c :: p in visited && IsChild(games, p, c) ==> c in visited || c in stack
  }

  lemma WalkSkips(games: Cache, root: nat, stack: seq<nat>, index: nat, visited: set<nat>)
    requires Walking(games, root, stack + [index], visited) && index in visited
    ensures Walking(games, root, stack, visited)
  {
    assert forall x :: x in stack + [index] <==> x in stack || x == index;
  }

  lemma WalkVisits(games: Cache, root: nat, stack: seq<nat>, index: nat, visited: set<nat>, children: seq<nat>)
    requires Walking(games, root, stack + [index], visited)
    requires forall c :: c in children <==> IsChild(games, index, c)
    ensures Walking(games, root, stack + children, visited + {index})
  {
    assert forall x :: x in stack + [index] <==> x in stack || x == index;
    assert forall x :: x in stack + children <==> x in stack || x in children;
    forall c | c in children ensures Reaches(games, root, c) {
      ReachesStep(games, root, index, c);
    }
  }

  lemma WalkEnds(games: Cache, root: nat, visited: set<nat>)
    requires Walking(games, root, [], visited)
    ensures visited == Descendants(games, root)
  {
    DescendantsAreLeastClosedSet(games, root);
    assert Closed(games, visited);
  }

  /** The stack walk. It terminates on every parent map, cyclic ones included. */
  method DescendantsOf(games: Cache, root: nat) returns (reachable: set<nat>)
    requires Indexed(games)
    ensures reachable == Descendants(games, root)
  {
    ghost var universe := games.Keys + {root};
    reachable := {};
    var stack := [root];
    RootReachesItself(games, root);
    while stack != []
      invariant Walking(games, root, stack, reachable)
      decreases |universe - reachable|, |stack|
    {
      var index, rest := stack[|stack| - 1], stack[..|stack| - 1];
      assert stack == rest + [index];
      assert index in stack;
      if index in reachable {
        WalkSkips(games, root, rest, index, reachable);
        stack := rest;
      } else {
        SubsetSize(universe - (reachable + {index}), universe - reachable) by {
          assert index in universe - reachable;
        }
        var children := Enumerate(set c | c in games && games[c].parentIndex == index :: games[c].index);
        WalkVisits(games, root, rest, index, reachable, children);
        reachable := reachable + {index};
        stack := rest + children;
      }
    }
    WalkEnds(games, root, reachable);
  }

  lemma SubsetSize(a: set<nat>, b: set<nat>)
    requires a < b
    ensures |a| < |b|
  {
    assert b == a + (b - a);
    assert |b| == |a| + |b - a|;
    assert b - a != {};
  }

  /** `best` is a cached game of `within` that no other one there exceeds, or none is cached. */
  ghost predicate IsHighest(games: Cache, within: set<nat>, best: Option<nat>) {
    match best
    case None => forall i :: i in within ==> i !in games
    case Some(b) =>
      && b in within && b in games
      && forall i :: i in within && i in games ==> games[i].l2Block <= games[b].l2Block
  }

  /** `max_by_key` over a hash map: which of several equally high games wins is unspecified. */
  method MaxByL2Block(games: Cache, within: set<nat>) returns (best: Option<nat>)
    ensures IsHighest(games, within, best)
  {
    best := None;
    var order := Enumerate(games.Keys * within);
    for k := 0 to |order|
      invariant forall i :: i in order ==> i in games && i in within
      invariant best.None? <==> k == 0
      invariant best.Some? ==> best.value in order
      invariant best.Some? ==> forall j :: 0 <= j < k ==> games[order[j]].l2Block <= games[best.value].l2Block
    {
      assert order[k] in games.Keys * within;
      if best.None? || games[best.value].l2Block <= games[order[k]].l2Block {
        best := Some(order[k]);
      }
    }
    forall i | i in within && i in games ensures i in order { }
  }

  /** Games outside the anchor's subtree that start a higher chain branching off earlier. */
  function OverrideRoots(games: Cache, reachable: set<nat>, anchorHead: nat): set<nat>
    requires anchorHead in games
  {
    set r | r in games && r !in reachable
            && games[r].l2Block > games[anchorHead].l2Block
            && (games[r].parentIndex == NO_PARENT || games[r].parentIndex < games[anchorHead].parentIndex)
  }

  ghost function SubtreesOf(games: Cache, roots: set<nat>): set<nat>
    requires roots <= games.Keys
  {
    set i | i in games && exists r :: r in roots && i in Descendants(games, r)
  }

  /** What `select_canonical_head` may return for a cache and an anchor index. */
  ghost predicate IsCanonicalHead(games: Cache, anchor: Option<nat>, head: Option<nat>) {
    if anchor.None? then
      IsHighest(games, games.Keys, head)
    else
      var reachable := Descendants(games, anchor.value);
      exists anchorHead ::
        && IsHighest(games, reachable, anchorHead)
        && (if anchorHead.None? then
              head.None?
            else
              var overridden := SubtreesOf(games, OverrideRoots(games, reachable, anchorHead.value));
              if overridden == {} then head == anchorHead else IsHighest(games, overridden, head))
  }

  /**
   A cached game outside the anchor's subtree that starts a higher chain: above the best anchor descendant, and
   without a parent or on a parent that comes before that of the best one.
   */
  ghost predicate StartsCatchUp(games: Cache, anchor: nat, best: nat, r: nat)
    requires best in games
  {
    && r in games && r !in Descendants(games, anchor)
    && games[best].l2Block < games[r].l2Block
    && (games[r].parentIndex == 0xFFFF_FFFF || games[r].parentIndex < games[best].parentIndex)
  }

  /**
   With a cached anchor whose highest descendant is `best`: if a higher chain starts elsewhere, the head is the
   highest game of all such chains; otherwise it is as high as `best`, below the anchor.
   */
  ghost predicate FollowsBest(games: Cache, anchor: nat, best: nat, head: nat)
    requires best in games
  {
    && head in games
    && (forall r, x :: StartsCatchUp(games, anchor, best, r) && x in games && x in Descendants(games, r) ==>
                         games[x].l2Block <= games[head].l2Block)
    && (if exists r :: StartsCatchUp(games, anchor, best, r)
        then exists r :: StartsCatchUp(games, anchor, best, r) && head in Descendants(games, r)
        else head in Descendants(games, anchor) && games[head].l2Block == games[best].l2Block)
  }

  /** The head in terms of parent indices and L2 blocks. */
  ghost predicate FollowsAnchor(games: Cache, anchor: nat, head: nat) {
    exists best ::
      && best in games && best in Descendants(games, anchor)
      && (forall x :: x in games && x in Descendants(games, anchor) ==> games[x].l2Block <= games[best].l2Block)
      && FollowsBest(games, anchor, best, head)
  }

  lemma HeadFollowsBest(games: Cache, anchor: nat, best: nat, head: Option<nat>)
    requires best in games
    requires var overridden := SubtreesOf(games, OverrideRoots(games, Descendants(games, anchor), best));
             if overridden == {} then head == Some(best) && best in Descendants(games, anchor)
             else IsHighest(games, overridden, head)
    ensures head.Some? && FollowsBest(games, anchor, best, head.value)
  {
    var roots := OverrideRoots(games, Descendants(games, anchor), best);
    var overridden := SubtreesOf(games, roots);
    forall r ensures r in roots <==> StartsCatchUp(games, anchor, best, r) {
    }
    forall r, x | StartsCatchUp(games, anchor, best, r) && x in games && x in Descendants(games, r)
      ensures x in overridden
    {
      assert r in roots;
    }
    if overridden == {} {
      forall r ensures !StartsCatchUp(games, anchor, best, r) {
        if StartsCatchUp(games, anchor, best, r) {
          DescendantsAreLeastClosedSet(games, r);
        }
      }
    } else {
      assert head.Some? by {
        var x :| x in overridden;
        assert x in games;
      }
      var r :| r in roots && head.value in Descendants(games, r);
      assert StartsCatchUp(games, anchor, best, r);
    }
  }

  /** What the selection means: the highest game without an anchor, else the anchor's chain or a higher catch-up chain. */
  lemma CanonicalHeadIsExact(games: Cache, anchor: Option<nat>, head: Option<nat>)
    requires IsCanonicalHead(games, anchor, head) && (anchor.Some? ==> anchor.value in games)
    ensures anchor.Some? ==> head.Some? && FollowsAnchor(games, anchor.value, head.value)
    ensures anchor.None? ==> (head.None? <==> games == map[])
    ensures anchor.None? && head.Some? ==>
              head.value in games && forall x :: x in games ==> games[x].l2Block <= games[head.value].l2Block
  {
    if anchor.Some? {
      var reachable := Descendants(games, anchor.value);
      DescendantsAreLeastClosedSet(games, anchor.value);
      var anchorHead :|
        && IsHighest(games, reachable, anchorHead)
        && (if anchorHead.None? then head.None?
            else
              var overridden := SubtreesOf(games, OverrideRoots(games, reachable, anchorHead.value));
              if overridden == {} then head == anchorHead else IsHighest(games, overridden, head));
      assert anchorHead.Some?;
      HeadFollowsBest(games, anchor.value, anchorHead.value, head);
    } else if head.None? {
      assert games.Keys == {};
    }
  }

  method SelectCanonicalHead(games: Cache, anchor: Option<nat>) returns (head: Option<nat>)
    requires Indexed(games)
    ensures IsCanonicalHead(games, anchor, head)
    ensures anchor.Some? && anchor.value in games ==> head.Some? && FollowsAnchor(games, anchor.value, head.value)
    ensures anchor.None? && head.Some? ==>
              head.value in games && forall x :: x in games ==> games[x].l2Block <= games[head.value].l2Block
  {
    head := FindCanonicalHead(games, anchor);
    if anchor.None? || anchor.value in games {
      CanonicalHeadIsExact(games, anchor, head);
    }
  }

  method FindCanonicalHead(games: Cache, anchor: Option<nat>) returns (head: Option<nat>)
    requires Indexed(games)
    ensures IsCanonicalHead(games, anchor, head)
  {
    if anchor.None? {
      head := MaxByL2Block(games, games.Keys);
      return;
    }
    var reachable := DescendantsOf(games, anchor.value);
    var anchorHead := MaxByL2Block(games, reachable);
    if anchorHead.None? {
      head := None;
      return;
    }
    var roots := OverrideRoots(games, reachable, anchorHead.value);
    var order := Enumerate(roots);
    var overridden: set<nat> := {};
    for k := 0 to |order|
      invariant overridden <= games.Keys
      invariant forall i :: i in overridden <==>
                  i in games && exists j :: 0 <= j < k && i in Descendants(games, order[j])
    {
      var subtree := DescendantsOf(games, order[k]);
      overridden := overridden + (subtree * games.Keys);
    }
    assert overridden == SubtreesOf(games, roots) by {
      forall i | i in games
        ensures i in overridden <==> exists r :: r in roots && i in Descendants(games, r)
      {
        if i in overridden {
          var j :| 0 <= j < |order| && i in Descendants(games, order[j]);
          assert order[j] in roots;
        }
        if r :| r in roots && i in Descendants(games, r) {
          assert r in order;
        }
      }
    }
    var overrideHead := MaxByL2Block(games, overridden);
    head := if overrideHead.Some? then overrideHead else anchorHead;
  }

  /** Every cached child sits at a higher L2 block than its cached parent. */
  ghost predicate Ascending(games: Cache) {
    forall c :: c in games && games[c].parentIndex in games ==>
                  games[games[c].parentIndex].l2Block < games[c].l2Block
  }

  ghost predicate IsTip(games: Cache, head: nat) {
    forall c :: !IsChild(games, head, c)
  }

  lemma HighestOfClosedSetIsTip(games: Cache, within: set<nat>, head: nat)
    requires Ascending(games)
    requires forall p, c :: p in within && IsChild(games, p, c) ==> c in within
    requires IsHighest(games, within, Some(head))
    ensures IsTip(games, head)
  {
  }

  lemma SubtreesAreClosed(games: Cache, roots: set<nat>, p: nat, c: nat)
    requires roots <= games.Keys
    requires p in SubtreesOf(games, roots) && IsChild(games, p, c)
    ensures c in SubtreesOf(games, roots)
  {
    var r :| r in roots && p in Descendants(games, r);
    DescendantsAreLeastClosedSet(games, r);
  }

  /** No lower than the anchor, and below it or below a root that is above the anchor's best descendant. */
  ghost predicate PlacedByAnchor(games: Cache, anchor: nat, head: nat)
    requires anchor in games && head in games
  {
    && games[anchor].l2Block <= games[head].l2Block
    && (|| head in Descendants(games, anchor)
        || exists best, root ::
             && IsHighest(games, Descendants(games, anchor), Some(best))
             && root in games && root !in Descendants(games, anchor)
             && games[best].l2Block < games[root].l2Block
             && head in Descendants(games, root))
  }

  /**
   The selected head is always the end of a chain: no cached game builds on it, it is no lower than
   the anchor, and it lies either under the anchor or under a root that beats the anchor's best
   descendant.
   */
  lemma CanonicalHeadIsTip(games: Cache, anchor: Option<nat>, head: Option<nat>)
    requires Ascending(games)
    requires anchor.Some? ==> anchor.value in games
    requires IsCanonicalHead(games, anchor, head)
    ensures head.None? <==> games == map[]
    ensures head.Some? ==> head.value in games && IsTip(games, head.value)
    ensures head.Some? && anchor.Some? ==> PlacedByAnchor(games, anchor.value, head.value)
  {
    if anchor.None? {
      if head.None? {
        assert games.Keys == {};
      } else {
        HighestOfClosedSetIsTip(games, games.Keys, head.value);
      }
    } else {
      var reachable := Descendants(games, anchor.value);
      DescendantsAreLeastClosedSet(games, anchor.value);
      var anchorHead :|
        && IsHighest(games, reachable, anchorHead)
        && (if anchorHead.None? then head.None?
            else
              var overridden := SubtreesOf(games, OverrideRoots(games, reachable, anchorHead.value));
              if overridden == {} then head == anchorHead else IsHighest(games, overridden, head));
      assert anchorHead.Some?;
      var roots := OverrideRoots(games, reachable, anchorHead.value);
      var overridden := SubtreesOf(games, roots);
      if overridden == {} {
        HighestOfClosedSetIsTip(games, reachable, head.value);
      } else {
        assert head.Some? by {
          var some :| some in overridden;
          assert some in games;
        }
        forall p, c | p in overridden && IsChild(games, p, c) ensures c in overridden {
          SubtreesAreClosed(games, roots, p, c);
        }
        HighestOfClosedSetIsTip(games, overridden, head.value);
        var root :| root in roots && head.value in Descendants(games, root);
        DescendantsAreLeastClosedSet(games, root);
        assert root in overridden;
      }
    }
  }
}

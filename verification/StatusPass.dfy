/** The status pass of `sync_games`: one action per cached game, applied in some order, and exactly what they remove. */
module StatusPass {
  import opened Prelude
  import opened GameGraph
  import opened Factory

  /** Each action is the one the chain state calls for. */
  ghost predicate Decided(
    cfg: Config, snap: Snapshot, now: nat, head: Option<nat>, games: Cache, actions: seq<SyncAction>)
  {
    forall k :: 0 <= k < |actions| ==>
      && actions[k].index in games && actions[k].index < |snap.games|
      && actions[k] == Decide(cfg, snap, now, head, actions[k].index)
  }

  /** One such action per cached game, in any order. */
  ghost predicate ActionsFor(
    cfg: Config, snap: Snapshot, now: nat, head: Option<nat>, games: Cache, actions: seq<SyncAction>)
  {
    && Decided(cfg, snap, now, head, games, actions)
    && (forall j, k :: 0 <= j < k < |actions| ==> actions[j].index != actions[k].index)
    && forall i :: i in games ==> exists k :: 0 <= k < |actions| && actions[k].index == i
  }

  /** The in-place refresh of one cached game, if it is still cached. */
  function Updated(games: Cache, action: SyncAction): Cache
    requires action.Update?
  {
    if action.index in games then
      games[action.index := games[action.index].(status := action.status, proposalStatus := action.proposalStatus,
                                                 deadline := action.deadline, flags := action.flags)]
    else games
  }

  /** What leaves the cache with one action. */
  ghost function GoneWith(games: Cache, action: SyncAction): set<nat> {
    match action
    case Update(_, _, _, _, _) => {}
    case Remove(index) => {index}
    case RemoveSubtree(index) => Descendants(games, index)
  }

  ghost function AfterAction(games: Cache, action: SyncAction): Cache {
    if action.Update? then Updated(games, action) else games - GoneWith(games, action)
  }

  ghost function AfterActions(games: Cache, actions: seq<SyncAction>, k: nat): Cache
    requires k <= |actions|
  {
    if k == 0 then games else AfterAction(AfterActions(games, actions, k - 1), actions[k - 1])
  }

  /** Only the refreshed fields of a cached game may differ. */
  ghost predicate SameFacts(a: Game, b: Game) {
    && a.index == b.index && a.address == b.address && a.parentIndex == b.parentIndex
    && a.l2Block == b.l2Block && a.keys == b.keys
  }

  /** `i` hangs below a cached game that lost. */
  ghost predicate UnderLost(snap: Snapshot, games: Cache, i: nat) {
    exists root :: root in games && IsLost(snap, root) && i in Descendants(games, root)
  }

  /** The two ways to leave: the game's own action evicts it, or a game above it lost. */
  ghost predicate Dropped(cfg: Config, snap: Snapshot, now: nat, head: Option<nat>, games: Cache, i: nat) {
    (i < |snap.games| && Decide(cfg, snap, now, head, i).Remove?) || UnderLost(snap, games, i)
  }

  /** Where a status pass stands after some of its actions. */
  ghost predicate PartlyApplied(
    cfg: Config, snap: Snapshot, now: nat, head: Option<nat>, before: Cache, actions: seq<SyncAction>, done: nat,
    games: Cache)
    requires done <= |actions|
  {
    && (forall i :: i in games ==> i in before && SameFacts(games[i], before[i]))
    && (forall k :: 0 <= k < done && actions[k].index in games ==>
                      actions[k].Update? && Fresh(cfg, snap, now, actions[k].index, games[actions[k].index]))
    && forall i :: i in before && i !in games ==> Dropped(cfg, snap, now, head, before, i)
  }

  lemma FewerGamesStayApplied(
    cfg: Config, snap: Snapshot, now: nat, head: Option<nat>, before: Cache, actions: seq<SyncAction>, done: nat,
    games: Cache, gone: set<nat>)
    requires done < |actions| && PartlyApplied(cfg, snap, now, head, before, actions, done, games)
    requires actions[done].index in gone
    requires forall i :: i in gone && i in games ==> Dropped(cfg, snap, now, head, before, i)
    ensures PartlyApplied(cfg, snap, now, head, before, actions, done + 1, games - gone)
  {
  }

  lemma UpdateIsFresh(cfg: Config, snap: Snapshot, now: nat, head: Option<nat>, i: nat, before: Game, g: Game)
    requires MatchesFacts(snap, i, before) && SameFacts(g, before)
    requires Decide(cfg, snap, now, head, i).Update?
    ensures var a := Decide(cfg, snap, now, head, i);
            Fresh(cfg, snap, now, i, g.(status := a.status, proposalStatus := a.proposalStatus,
                                        deadline := a.deadline, flags := a.flags))
  {
  }

  lemma OneFreshMore(
    cfg: Config, snap: Snapshot, now: nat, head: Option<nat>, before: Cache, actions: seq<SyncAction>, k: nat,
    games: Cache, after: Cache)
    requires k < |actions| && actions[k].Update? && PartlyApplied(cfg, snap, now, head, before, actions, k, games)
    requires after.Keys == games.Keys
    requires forall i :: i in games && i != actions[k].index ==> after[i] == games[i]
    requires actions[k].index in games ==>
               && Fresh(cfg, snap, now, actions[k].index, after[actions[k].index])
               && SameFacts(after[actions[k].index], games[actions[k].index])
    ensures PartlyApplied(cfg, snap, now, head, before, actions, k + 1, after)
  {
  }

  lemma UpdateStaysApplied(
    w: World, cfg: Config, snap: Snapshot, now: nat, head: Option<nat>, before: Cache, actions: seq<SyncAction>, k: nat,
    games: Cache)
    requires k < |actions| && actions[k].Update?
    requires AllAdmitted(w, cfg, snap, before) && Decided(cfg, snap, now, head, before, actions)
    requires PartlyApplied(cfg, snap, now, head, before, actions, k, games)
    ensures PartlyApplied(cfg, snap, now, head, before, actions, k + 1, Updated(games, actions[k]))
  {
    var i := actions[k].index;
    assert Admitted(w, cfg, snap, i, before[i]);
    assert actions[k] == Decide(cfg, snap, now, head, i);
    if i in games {
      UpdateIsFresh(cfg, snap, now, head, i, before[i], games[i]);
    }
    OneFreshMore(cfg, snap, now, head, before, actions, k, games, Updated(games, actions[k]));
  }

  lemma SpentStaysApplied(
    cfg: Config, snap: Snapshot, now: nat, head: Option<nat>, before: Cache, actions: seq<SyncAction>, k: nat, games: Cache)
    requires k < |actions| && actions[k].Remove?
    requires Decided(cfg, snap, now, head, before, actions)
    requires PartlyApplied(cfg, snap, now, head, before, actions, k, games)
    ensures PartlyApplied(cfg, snap, now, head, before, actions, k + 1, games - {actions[k].index})
  {
    assert actions[k] == Decide(cfg, snap, now, head, actions[k].index);
    FewerGamesStayApplied(cfg, snap, now, head, before, actions, k, games, {actions[k].index});
  }

  lemma LostStaysApplied(
    cfg: Config, snap: Snapshot, now: nat, head: Option<nat>, before: Cache, actions: seq<SyncAction>, k: nat, games: Cache)
    requires k < |actions| && actions[k].RemoveSubtree?
    requires Decided(cfg, snap, now, head, before, actions)
    requires PartlyApplied(cfg, snap, now, head, before, actions, k, games)
    ensures PartlyApplied(cfg, snap, now, head, before, actions, k + 1, games - Descendants(games, actions[k].index))
  {
    var root := actions[k].index;
    assert actions[k] == Decide(cfg, snap, now, head, root);
    assert IsLost(snap, root);
    RootReachesItself(games, root);
    DescendantsShrink(before, games, root);
    forall i | i in Descendants(games, root) ensures Dropped(cfg, snap, now, head, before, i) {
      assert UnderLost(snap, before, i);
    }
    FewerGamesStayApplied(cfg, snap, now, head, before, actions, k, games, Descendants(games, root));
  }

  /** One action more leaves every game it touched fresh, and every game that left gone for a reason. */
  lemma OneActionApplies(
    w: World, cfg: Config, snap: Snapshot, now: nat, head: Option<nat>, before: Cache, actions: seq<SyncAction>, k: nat,
    games: Cache, after: Cache)
    requires k < |actions| && after == AfterAction(games, actions[k])
    requires AllAdmitted(w, cfg, snap, before) && Decided(cfg, snap, now, head, before, actions)
    requires PartlyApplied(cfg, snap, now, head, before, actions, k, games)
    ensures PartlyApplied(cfg, snap, now, head, before, actions, k + 1, after)
  {
    match actions[k] {
      case Update(_, _, _, _, _) => UpdateStaysApplied(w, cfg, snap, now, head, before, actions, k, games);
      case Remove(_) => SpentStaysApplied(cfg, snap, now, head, before, actions, k, games);
      case RemoveSubtree(_) => LostStaysApplied(cfg, snap, now, head, before, actions, k, games);
    }
  }

  lemma AfterActionShrinks(games: Cache, action: SyncAction)
    requires Indexed(games)
    ensures Indexed(AfterAction(games, action))
    ensures AfterAction(games, action).Keys == games.Keys - GoneWith(games, action)
  {
  }

  /** A game that an action takes along is excused at this block. */
  lemma GoneIsExcused(
    w: World, cfg: Config, snap: Snapshot, now: nat, head: Option<nat>, games: Cache, action: SyncAction, i: nat)
    requires AllAdmitted(w, cfg, snap, games) && i in GoneWith(games, action)
    requires action.index < |snap.games| && action == Decide(cfg, snap, now, head, action.index)
    ensures Excused(w, cfg, snap, i)
  {
    if action.RemoveSubtree? {
      CachedSubtreeIsReal(w, cfg, snap, games, action.index);
      assert IsRejected(w, cfg, snap, action.index);
    }
  }

  /** After all actions everything still cached is fresh. */
  lemma AppliedIsFresh(
    cfg: Config, snap: Snapshot, now: nat, head: Option<nat>, before: Cache, actions: seq<SyncAction>, games: Cache)
    requires ActionsFor(cfg, snap, now, head, before, actions)
    requires PartlyApplied(cfg, snap, now, head, before, actions, |actions|, games)
    ensures AllFresh(cfg, snap, now, games)
  {
    forall i | i in games ensures Fresh(cfg, snap, now, i, games[i]) {
      var k :| 0 <= k < |actions| && actions[k].index == i;
    }
  }

  // ----- exactly which games leave -----

  /** No game below a lost one is evicted on its own account in the same pass. */
  ghost predicate NoneSpentUnderLost(cfg: Config, snap: Snapshot, now: nat, head: Option<nat>, games: Cache) {
    forall i :: i in games && i < |snap.games| && UnderLost(snap, games, i) ==> !Decide(cfg, snap, now, head, i).Remove?
  }

  /** The contract's rule: a game is resolved for the defender only on a parent that was. */
  ghost predicate WinsRestOnWins(snap: Snapshot) {
    && |snap.games| <= NO_PARENT
    && forall i :: 0 <= i < |snap.games| && snap.games[i].live.status == DefenderWins ==>
                     var parent := snap.games[i].facts.parentIndex;
                     parent < |snap.games| ==> snap.games[parent].live.status == DefenderWins
  }

  lemma WinsRestOnWinsKeepsLostPure(w: World, cfg: Config, snap: Snapshot, now: nat, head: Option<nat>, games: Cache)
    requires AllAdmitted(w, cfg, snap, games) && WinsRestOnWins(snap)
    ensures NoneSpentUnderLost(cfg, snap, now, head, games)
  {
    forall i | i in games && i < |snap.games| && UnderLost(snap, games, i)
      ensures !Decide(cfg, snap, now, head, i).Remove?
    {
      var root :| root in games && IsLost(snap, root) && i in Descendants(games, root);
      NotWonIsClosed(w, cfg, snap, games);
      DescendantsAreLeastClosedSet(games, root);
      assert root in NotWon(snap, games);
    }
  }

  ghost function NotWon(snap: Snapshot, games: Cache): set<nat> {
    set x | x in games && x < |snap.games| && snap.games[x].live.status != DefenderWins
  }

  lemma NotWonIsClosed(w: World, cfg: Config, snap: Snapshot, games: Cache)
    requires AllAdmitted(w, cfg, snap, games) && WinsRestOnWins(snap)
    ensures Closed(games, NotWon(snap, games))
  {
    forall p, c | p in NotWon(snap, games) && IsChild(games, p, c) ensures c in NotWon(snap, games) {
      assert Admitted(w, cfg, snap, c, games[c]);
    }
  }

  /** Everything at or below a lost game. */
  ghost function LostZone(snap: Snapshot, games: Cache): set<nat> {
    set i | i in games && UnderLost(snap, games, i)
  }

  lemma LostZoneIsClosed(snap: Snapshot, games: Cache)
    ensures Closed(games, LostZone(snap, games))
  {
    forall p, c | p in LostZone(snap, games) && IsChild(games, p, c) ensures c in LostZone(snap, games) {
      var root :| root in games && IsLost(snap, root) && p in Descendants(games, root);
      DescendantsAreLeastClosedSet(games, root);
    }
  }

  /** Inside the zone, the games gone so far are closed under child edges. */
  ghost predicate ClearsZone(before: Cache, zone: set<nat>, actions: seq<SyncAction>, done: nat, games: Cache)
    requires done <= |actions|
  {
    && games.Keys <= before.Keys
    && (forall i :: i in games ==> games[i].parentIndex == before[i].parentIndex)
    && Closed(before, zone - games.Keys)
    && forall k :: 0 <= k < done && !actions[k].Update? ==> actions[k].index !in games
  }

  lemma SubtreeClearsZone(before: Cache, zone: set<nat>, games: Cache, root: nat)
    requires zone <= before.Keys && Closed(before, zone) && Closed(before, zone - games.Keys)
    requires forall i :: i in games ==> i in before && games[i].parentIndex == before[i].parentIndex
    ensures Closed(before, zone - (games - Descendants(games, root)).Keys)
  {
    var gone := Descendants(games, root);
    DescendantsAreLeastClosedSet(games, root);
    forall p, c | p in zone - (games - gone).Keys && IsChild(before, p, c)
      ensures c in zone - (games - gone).Keys
    {
      assert c in zone;
      if c in games && p in games {
        assert p in gone && IsChild(games, p, c);
      }
    }
  }

  lemma ActionClearsZone(
    before: Cache, zone: set<nat>, actions: seq<SyncAction>, k: nat, games: Cache)
    requires k < |actions| && zone <= before.Keys && Closed(before, zone)
    requires actions[k].Remove? ==> actions[k].index !in zone
    requires ClearsZone(before, zone, actions, k, games)
    ensures ClearsZone(before, zone, actions, k + 1, AfterAction(games, actions[k]))
  {
    var after := AfterAction(games, actions[k]);
    match actions[k] {
      case Update(_, _, _, _, _) =>
        assert after.Keys == games.Keys;
      case Remove(index) =>
        assert zone - after.Keys == zone - games.Keys;
      case RemoveSubtree(index) =>
        RootReachesItself(games, index);
        SubtreeClearsZone(before, zone, games, index);
    }
  }

  lemma {:induction false} ActionsClearZone(
    before: Cache, zone: set<nat>, actions: seq<SyncAction>, trail: seq<Cache>, k: nat)
    requires k <= |actions| && IsTrail(actions, trail) && trail[0] == before
    requires zone <= before.Keys && Closed(before, zone)
    requires forall j :: 0 <= j < |actions| && actions[j].Remove? ==> actions[j].index !in zone
    ensures ClearsZone(before, zone, actions, k, trail[k])
  {
    if k == 0 {
      assert zone - before.Keys == {};
    } else {
      ActionsClearZone(before, zone, actions, trail, k - 1);
      assert Follows(actions, trail, k - 1);
      ActionClearsZone(before, zone, actions, k - 1, trail[k - 1]);
    }
  }

  ghost predicate Follows(actions: seq<SyncAction>, trail: seq<Cache>, k: nat)
    requires k < |actions| && k + 1 < |trail|
  {
    trail[k + 1] == AfterAction(trail[k], actions[k])
  }

  /** The caches before, between and after the actions. */
  ghost predicate IsTrail(actions: seq<SyncAction>, trail: seq<Cache>) {
    |trail| == |actions| + 1 && forall j: nat :: j < |actions| ==> Follows(actions, trail, j)
  }

  lemma {:induction false} ActionsApply(
    w: World, cfg: Config, snap: Snapshot, now: nat, head: Option<nat>, actions: seq<SyncAction>, trail: seq<Cache>,
    k: nat)
    requires k <= |actions| && IsTrail(actions, trail)
    requires AllAdmitted(w, cfg, snap, trail[0]) && Decided(cfg, snap, now, head, trail[0], actions)
    ensures PartlyApplied(cfg, snap, now, head, trail[0], actions, k, trail[k])
  {
    if k > 0 {
      ActionsApply(w, cfg, snap, now, head, actions, trail, k - 1);
      assert Follows(actions, trail, k - 1);
      OneActionApplies(w, cfg, snap, now, head, trail[0], actions, k - 1, trail[k - 1], trail[k]);
    }
  }

  /** The caches between the actions. */
  ghost function Trail(games: Cache, actions: seq<SyncAction>): seq<Cache> {
    seq(|actions| + 1, k requires 0 <= k <= |actions| => AfterActions(games, actions, k))
  }

  lemma TrailFollows(games: Cache, actions: seq<SyncAction>)
    ensures var trail := Trail(games, actions);
            && IsTrail(actions, trail)
            && trail[0] == games && trail[|actions|] == AfterActions(games, actions, |actions|)
  {
  }

  /** What stays is fresh, and what left was evicted by its own action or hung below a lost game. */
  lemma ActionsRefresh(
    w: World, cfg: Config, snap: Snapshot, now: nat, head: Option<nat>, before: Cache, actions: seq<SyncAction>)
    requires AllAdmitted(w, cfg, snap, before) && ActionsFor(cfg, snap, now, head, before, actions)
    ensures var after := AfterActions(before, actions, |actions|);
            && AllFresh(cfg, snap, now, after)
            && forall i :: i in before && i !in after ==> Dropped(cfg, snap, now, head, before, i)
  {
    var trail := Trail(before, actions);
    TrailFollows(before, actions);
    ActionsApply(w, cfg, snap, now, head, actions, trail, |actions|);
    AppliedIsFresh(cfg, snap, now, head, before, actions, trail[|actions|]);
  }

  /** Whatever the order, everything that hangs below a lost game leaves, if none of it is evicted on its own account. */
  lemma LostSubtreesLeave(
    cfg: Config, snap: Snapshot, now: nat, head: Option<nat>, before: Cache, actions: seq<SyncAction>, i: nat)
    requires ActionsFor(cfg, snap, now, head, before, actions) && NoneSpentUnderLost(cfg, snap, now, head, before)
    requires i in before && UnderLost(snap, before, i)
    ensures i !in AfterActions(before, actions, |actions|)
  {
    var zone, trail := LostZone(snap, before), Trail(before, actions);
    TrailFollows(before, actions);
    LostZoneIsClosed(snap, before);
    forall j | 0 <= j < |actions| && actions[j].Remove? ensures actions[j].index !in zone {
      assert actions[j] == Decide(cfg, snap, now, head, actions[j].index);
    }
    ActionsClearZone(before, zone, actions, trail, |actions|);
    LostZoneIsCleared(cfg, snap, now, head, before, actions, trail[|actions|], i);
  }

  lemma LostZoneIsCleared(
    cfg: Config, snap: Snapshot, now: nat, head: Option<nat>, before: Cache, actions: seq<SyncAction>, after: Cache, i: nat)
    requires ActionsFor(cfg, snap, now, head, before, actions)
    requires ClearsZone(before, LostZone(snap, before), actions, |actions|, after)
    requires i in before && UnderLost(snap, before, i)
    ensures i !in after
  {
    var root :| root in before && IsLost(snap, root) && i in Descendants(before, root);
    LostRootLeft(cfg, snap, now, head, before, actions, after, root);
    DescendantsAreLeastClosedSet(before, root);
    assert root in LostZone(snap, before) - after.Keys;
  }

  lemma LostRootLeft(
    cfg: Config, snap: Snapshot, now: nat, head: Option<nat>, before: Cache, actions: seq<SyncAction>, after: Cache,
    root: nat)
    requires ActionsFor(cfg, snap, now, head, before, actions) && root in before && IsLost(snap, root)
    requires forall k :: 0 <= k < |actions| && !actions[k].Update? ==> actions[k].index !in after
    ensures root !in after
  {
    var k :| 0 <= k < |actions| && actions[k].index == root;
    assert actions[k] == Decide(cfg, snap, now, head, root);
  }

  lemma OwnEvictionLeaves(
    cfg: Config, snap: Snapshot, now: nat, head: Option<nat>, before: Cache, actions: seq<SyncAction>, i: nat)
    requires ActionsFor(cfg, snap, now, head, before, actions)
    requires i in before && i < |snap.games| && Decide(cfg, snap, now, head, i).Remove?
    ensures i !in AfterActions(before, actions, |actions|)
  {
    var trail := Trail(before, actions);
    TrailFollows(before, actions);
    ActionsClearZone(before, {}, actions, trail, |actions|);
    var k :| 0 <= k < |actions| && actions[k].index == i;
    assert actions[k] == Decide(cfg, snap, now, head, i);
  }

  /** A cached game leaves the pass exactly when its own action evicts it or it hangs below a lost game. */
  lemma StatusPassIsExact(
    w: World, cfg: Config, snap: Snapshot, now: nat, head: Option<nat>, before: Cache, actions: seq<SyncAction>, i: nat)
    requires AllAdmitted(w, cfg, snap, before) && ActionsFor(cfg, snap, now, head, before, actions)
    requires NoneSpentUnderLost(cfg, snap, now, head, before) && i in before
    ensures i !in AfterActions(before, actions, |actions|) <==> Dropped(cfg, snap, now, head, before, i)
  {
    ActionsRefresh(w, cfg, snap, now, head, before, actions);
    if UnderLost(snap, before, i) {
      LostSubtreesLeave(cfg, snap, now, head, before, actions, i);
    } else if Dropped(cfg, snap, now, head, before, i) {
      OwnEvictionLeaves(cfg, snap, now, head, before, actions, i);
    }
  }

  // ----- games whose parent has left -----

  /** As documented: a game whose parent leaves the cache in this pass leaves too. */
  ghost predicate NoOrphans(before: Cache, after: Cache) {
    forall p, c :: p in before && c in before && IsChild(before, p, c) && p !in after ==> c !in after
  }

  /** Every cached child of a game that the pass evicts leaves on its own account. */
  ghost predicate EvictedHaveNoSurvivors(cfg: Config, snap: Snapshot, now: nat, head: Option<nat>, games: Cache) {
    forall p, c :: p in games && p < |snap.games| && Decide(cfg, snap, now, head, p).Remove? && IsChild(games, p, c) ==>
                     Dropped(cfg, snap, now, head, games, c)
  }

  /** The code meets the documented rule exactly when no evicted game has a surviving child. */
  lemma OrphansLeaveIff(
    w: World, cfg: Config, snap: Snapshot, now: nat, head: Option<nat>, before: Cache, actions: seq<SyncAction>)
    requires AllAdmitted(w, cfg, snap, before) && ActionsFor(cfg, snap, now, head, before, actions)
    requires NoneSpentUnderLost(cfg, snap, now, head, before)
    ensures NoOrphans(before, AfterActions(before, actions, |actions|)) <==>
            EvictedHaveNoSurvivors(cfg, snap, now, head, before)
  {
    var after := AfterActions(before, actions, |actions|);
    forall i | i in before ensures i !in after <==> Dropped(cfg, snap, now, head, before, i) {
      StatusPassIsExact(w, cfg, snap, now, head, before, actions, i);
    }
    OrphansFollowDropped(cfg, snap, now, head, before, after);
  }

  lemma OrphansFollowDropped(cfg: Config, snap: Snapshot, now: nat, head: Option<nat>, before: Cache, after: Cache)
    requires forall i :: i in before ==> (i !in after <==> Dropped(cfg, snap, now, head, before, i))
    ensures NoOrphans(before, after) <==> EvictedHaveNoSurvivors(cfg, snap, now, head, before)
  {
    forall p, c | p in before && UnderLost(snap, before, p) && IsChild(before, p, c)
      ensures UnderLost(snap, before, c)
    {
      LostZoneIsClosed(snap, before);
      assert p in LostZone(snap, before) && c in LostZone(snap, before);
    }
    if NoOrphans(before, after) {
      forall p, c | p in before && p < |snap.games| && Decide(cfg, snap, now, head, p).Remove? && IsChild(before, p, c)
        ensures Dropped(cfg, snap, now, head, before, c)
      {
        assert p !in after;
      }
    }
  }

  const OPEN := GameLive(InProgress, Unchallenged, 1, false, false, 0, 1, 1)
  const LOST := GameLive(ChallengerWins, Resolved, 1, false, false, 0, 1, 1)
  const SPENT := GameLive(DefenderWins, Resolved, 1, true, false, 0, 1, 1)

  /** A valid game at L2 block `l2Block` on the given parent. */
  function SampleGame(w: World, cfg: Config, l2Block: nat, parent: nat, live: GameLive): ChainGame {
    ChainGame(GameFacts(l2Block, cfg.gameType, cfg.registry, l2Block, w.outputRoot(l2Block), true, parent, cfg.identity), live)
  }

  /** A spent game and its open child: the parent is evicted, and the child stays. */
  function SpentParent(w: World, cfg: Config): Snapshot {
    Snapshot([SampleGame(w, cfg, 1, NO_PARENT, SPENT), SampleGame(w, cfg, 2, 0, OPEN)], ZERO_ADDRESS, 0)
  }

  lemma OrphanStays(w: World, cfg: Config, now: nat)
    ensures var snap := SpentParent(w, cfg);
            var games := AllGames(snap);
            var actions := [Decide(cfg, snap, now, None, 0), Decide(cfg, snap, now, None, 1)];
            var after := AfterActions(games, actions, 2);
            && AllAdmitted(w, cfg, snap, games) && ActionsFor(cfg, snap, now, None, games, actions)
            && IsChild(games, 0, 1) && 0 !in after && 1 in after
  {
    var snap := SpentParent(w, cfg);
    var games := AllGames(snap);
    var actions := [Decide(cfg, snap, now, None, 0), Decide(cfg, snap, now, None, 1)];
    assert actions[0] == Remove(0) && actions[1].Update?;
    forall i | i in games ensures exists k :: 0 <= k < |actions| && actions[k].index == i {
      assert actions[i].index == i;
    }
    assert AfterActions(games, actions, 1) == games - {0};
    assert AfterActions(games, actions, 2) == AfterAction(games - {0}, actions[1]);
  }

  /** Open below spent below lost: the chain rules it out, and without that rule the action order decides. */
  function SpentUnderLost(w: World, cfg: Config): Snapshot {
    Snapshot([SampleGame(w, cfg, 1, NO_PARENT, LOST), SampleGame(w, cfg, 2, 0, SPENT), SampleGame(w, cfg, 3, 1, OPEN)],
             ZERO_ADDRESS, 0)
  }

  lemma ActionOrderMatters(w: World, cfg: Config, now: nat)
    ensures var snap := SpentUnderLost(w, cfg);
            var games := AllGames(snap);
            var lost, spent, open :=
              Decide(cfg, snap, now, None, 0), Decide(cfg, snap, now, None, 1), Decide(cfg, snap, now, None, 2);
            && AllAdmitted(w, cfg, snap, games)
            && ActionsFor(cfg, snap, now, None, games, [lost, spent, open])
            && ActionsFor(cfg, snap, now, None, games, [spent, lost, open])
            && 2 !in AfterActions(games, [lost, spent, open], 3)
            && 2 in AfterActions(games, [spent, lost, open], 3)
  {
    var snap := SpentUnderLost(w, cfg);
    SampleDecisions(w, cfg, now);
    SampleActions(cfg, snap, now, AllGames(snap), [0, 1, 2]);
    SampleActions(cfg, snap, now, AllGames(snap), [1, 0, 2]);
    LostFirst(AllGames(snap), Decide(cfg, snap, now, None, 2));
    SpentFirst(AllGames(snap), Decide(cfg, snap, now, None, 2));
  }

  lemma SampleDecisions(w: World, cfg: Config, now: nat)
    ensures var snap := SpentUnderLost(w, cfg);
            var games := AllGames(snap);
            && AllAdmitted(w, cfg, snap, games) && games.Keys == {0, 1, 2}
            && games[0].parentIndex != 0 && games[2].parentIndex != 0 && IsChild(games, 0, 1) && IsChild(games, 1, 2)
            && Decide(cfg, snap, now, None, 0) == RemoveSubtree(0)
            && Decide(cfg, snap, now, None, 1) == Remove(1)
            && Decide(cfg, snap, now, None, 2).Update? && Decide(cfg, snap, now, None, 2).index == 2
  {
  }

  lemma AfterThree(games: Cache, a: SyncAction, b: SyncAction, c: SyncAction)
    ensures AfterActions(games, [a, b, c], 3) == AfterAction(AfterAction(AfterAction(games, a), b), c)
  {
    var actions := [a, b, c];
    assert AfterActions(games, actions, 1) == AfterAction(games, a);
    assert AfterActions(games, actions, 2) == AfterAction(AfterAction(games, a), b);
  }

  lemma LostFirst(games: Cache, open: SyncAction)
    requires IsChild(games, 0, 1) && IsChild(games, 1, 2) && open.Update?
    ensures 2 !in AfterActions(games, [RemoveSubtree(0), Remove(1), open], 3)
  {
    AfterThree(games, RemoveSubtree(0), Remove(1), open);
    DescendantsAreLeastClosedSet(games, 0);
  }

  lemma SpentFirst(games: Cache, open: SyncAction)
    requires games.Keys == {0, 1, 2} && games[0].parentIndex != 0 && games[2].parentIndex != 0 && open.Update?
    ensures 2 in AfterActions(games, [Remove(1), RemoveSubtree(0), open], 3)
  {
    AfterThree(games, Remove(1), RemoveSubtree(0), open);
    DescendantsAreLeastClosedSet(games - {1}, 0);
    assert Closed(games - {1}, {0});
  }

  lemma SampleActions(cfg: Config, snap: Snapshot, now: nat, games: Cache, order: seq<nat>)
    requires |snap.games| == 3 && games.Keys == {0, 1, 2}
    requires order == [0, 1, 2] || order == [1, 0, 2]
    ensures var actions := [Decide(cfg, snap, now, None, order[0]), Decide(cfg, snap, now, None, order[1]),
                            Decide(cfg, snap, now, None, order[2])];
            ActionsFor(cfg, snap, now, None, games, actions)
  {
    var actions := [Decide(cfg, snap, now, None, order[0]), Decide(cfg, snap, now, None, order[1]),
                    Decide(cfg, snap, now, None, order[2])];
    assert forall k :: 0 <= k < 3 ==> actions[k].index == order[k];
    forall i | i in games ensures exists k :: 0 <= k < |actions| && actions[k].index == i {
      assert actions[if order == [0, 1, 2] || i == 2 then i else 1 - i].index == i;
    }
  }
}

/**
 What the proposer's run theorems mean in the chain's own fields: which games it caches, what it says about
 them, which it drops, where the head and the anchor are, and what happens to the creation guard.
 */
module ProposerFacts {
  import opened Prelude
  import opened L1Chain
  import opened FinalizedRemovals
  import opened GameGraph
  import opened Factory
  import opened CreationGuards
  import opened DiscoveryWalk
  import opened StatusPass
  import opened ProposerMachine
  import opened ProposerRuns

  // ----- which games are cached -----

  /** The entry says what the chain holds at index `i`. */
  ghost predicate SaysTheChain(snap: Snapshot, i: nat, g: Game) {
    && i < |snap.games|
    && var facts, live := snap.games[i].facts, snap.games[i].live;
       && g.index == i && g.address == facts.address && g.parentIndex == facts.parentIndex
       && g.l2Block == facts.l2Block && g.keys == facts.keys
       && g.status == live.status && g.proposalStatus == live.proposalStatus && g.deadline == live.deadline
  }

  /** Nobody can move any more: the clock ran out unchallenged, or a proof was accepted. */
  ghost predicate NoMoveLeft(live: GameLive, now: nat) {
    || (live.proposalStatus == Unchallenged && live.deadline <= now)
    || live.proposalStatus == UnchallengedAndProven || live.proposalStatus == ChallengedAndProven
  }

  /** Created by the signer, or proven by it. */
  ghost predicate IsSigners(live: GameLive, signer: Address) {
    live.creator == signer || (live.proposalStatus != Unchallenged && live.prover == signer)
  }

  /** Each action flag is set exactly when the chain calls for it. */
  ghost predicate HasExactActions(cfg: Config, snap: Snapshot, now: nat, i: nat, flags: Flags)
    requires i < |snap.games|
  {
    var facts, live := snap.games[i].facts, snap.games[i].live;
    var parent := facts.parentIndex;
    var toClose := facts.keys == cfg.identity && live.bondUndecided;
    && (flags.resolve <==>
        && live.status == InProgress && facts.gameType == cfg.gameType
        && (parent == 0xFFFF_FFFF || (parent < |snap.games| && snap.games[parent].live.status != InProgress))
        && NoMoveLeft(live, now) && IsSigners(live, cfg.signer))
    && (flags.close <==> live.status == DefenderWins && live.isFinalized && toClose)
    && (flags.claim <==> live.status == DefenderWins && live.isFinalized && !toClose && live.credit > 0)
  }

  lemma FlagsInFields(cfg: Config, snap: Snapshot, now: nat, i: nat)
    requires i < |snap.games|
    ensures HasExactActions(cfg, snap, now, i, FlagsAt(cfg, snap, now, i))
  {
  }

  /**
   After every call that returns Ok each cached game is a genuine one of the confirmed block that has not been
   lost, and everything the cache says about it, action flags included, is what that block holds.
   */
  lemma CachedGamesAreGenuine(w: World, cfg: Config, states: seq<State>, labels: seq<Label>, k: nat, i: nat)
    requires IsRun(w, cfg, states, labels) && k < |labels| && IsSuccess(labels[k])
    ensures !states[k].phase.Idle? && RealPass(w, cfg, states[k].phase.pass)
    ensures var p, t := states[k].phase.pass, states[k + 1];
            var snap := w.at[p.confirmed.hash];
            && t.syncBlock == Some(BlockNumHash(p.confirmed.number, p.confirmed.hash))
            && p.confirmed.number == (if p.tip.number < cfg.confirmations then 0 else p.tip.number - cfg.confirmations)
            && (i in t.games ==>
                  && IsGenuine(w, cfg, snap, i) && SaysTheChain(snap, i, t.games[i])
                  && snap.games[i].live.status != ChallengerWins
                  && HasExactActions(cfg, snap, p.confirmed.timestamp, i, t.games[i].flags))
  {
    SyncedCacheEqualsReread(w, cfg, states, labels, k, i);
    var p, t := states[k].phase.pass, states[k + 1];
    if i in t.games {
      ReadInFacts(w, cfg, w.at[p.confirmed.hash], i);
      FlagsInFields(cfg, w.at[p.confirmed.hash], p.confirmed.timestamp, i);
    }
  }

  /** Closed in the defender's favour, final, with no bond of ours open and nothing to claim. */
  ghost predicate NothingToClaim(cfg: Config, snap: Snapshot, i: nat) {
    && i < |snap.games|
    && var facts, live := snap.games[i].facts, snap.games[i].live;
       && live.status == DefenderWins && live.isFinalized && live.credit == 0
       && !(facts.keys == cfg.identity && live.bondUndecided)
  }

  /** At or below a game that lost, or that is not what it claims to be. */
  ghost predicate HangsOnRejected(w: World, cfg: Config, snap: Snapshot, i: nat) {
    exists root: nat ::
      && root < |snap.games|
      && (snap.games[root].live.status == ChallengerWins || IsImpostor(w, cfg, snap, root))
      && i in Descendants(AllGames(snap), root)
  }

  /** Why a genuine game may be missing from the cache, at the block of its record. */
  ghost predicate MayBeMissing(w: World, cfg: Config, snap: Snapshot, i: nat) {
    |snap.games| <= i || NothingToClaim(cfg, snap, i) || HangsOnRejected(w, cfg, snap, i)
  }

  lemma ExcusedInFacts(w: World, cfg: Config, snap: Snapshot, i: nat)
    requires Excused(w, cfg, snap, i)
    ensures MayBeMissing(w, cfg, snap, i) || !IsGenuine(w, cfg, snap, i)
  {
    if i < |snap.games| {
      ReadInFacts(w, cfg, snap, i);
      if root :| IsRejected(w, cfg, snap, root) && i in Descendants(AllGames(snap), root) {
        ReadInFacts(w, cfg, snap, root);
      }
    }
  }

  /** A game that is genuine at a block is genuine at every ancestor that has it. */
  lemma GenuineBefore(w: World, cfg: Config, h: Hash, b: BlockNumHash, i: nat)
    requires ValidWorld(w) && h in w.tree && OnChainOf(w.tree, h, b)
    requires IsGenuine(w, cfg, w.at[h], i)
    ensures b.hash in w.tree && (i < |w.at[b.hash].games| ==> IsGenuine(w, cfg, w.at[b.hash], i))
  {
    ExtendsEveryAncestor(w, h, b.number);
    if i < |w.at[b.hash].games| {
      assert w.at[b.hash].games[i].facts == w.at[h].games[i].facts;
    }
  }

  /**
   Conversely every genuine game of the confirmed block is cached, or is recorded at a block of that chain
   where it was absent, had nothing left to claim or hung on a rejected game, or since the last rebuild was
   released as final or left below an anchor cut-off.
   */
  lemma GenuineGamesAreCached(w: World, cfg: Config, states: seq<State>, labels: seq<Label>, k: nat, i: nat)
    requires IsRun(w, cfg, states, labels) && k < |labels| && IsSuccess(labels[k])
    ensures !states[k].phase.Idle? && RealPass(w, cfg, states[k].phase.pass)
    ensures var p, t := states[k].phase.pass, states[k + 1];
            IsGenuine(w, cfg, w.at[p.confirmed.hash], i) ==>
              || i in t.games
              || (&& i in t.removed && OnChainOf(w.tree, p.confirmed.hash, t.removed[i])
                  && MayBeMissing(w, cfg, w.at[t.removed[i].hash], i))
              || FinalSince(w, cfg, states, labels, i, k + 1)
              || CutOff(states, labels, i, k + 1)
  {
    SyncedCacheIsComplete(w, cfg, states, labels, k, i);
    var p, t := states[k].phase.pass, states[k + 1];
    if IsGenuine(w, cfg, w.at[p.confirmed.hash], i) {
      ReadInFacts(w, cfg, w.at[p.confirmed.hash], i);
      if ExcusedBelow(w, cfg, p.confirmed, t.removed, i) {
        GenuineBefore(w, cfg, p.confirmed.hash, t.removed[i], i);
        ExcusedInFacts(w, cfg, w.at[t.removed[i].hash], i);
      }
    }
  }

  // ----- what a committed walk adds and drops -----

  /** `root` was visited by the walk for the first time and is not what it claims to be. */
  ghost predicate FoundImpostor(w: World, cfg: Config, s: State, d: Discovery, root: nat)
    requires s.phase.Pruned? && s.phase.pass.confirmed.hash in w.at
  {
    d.floor <= root && root !in s.games && IsImpostor(w, cfg, w.at[s.phase.pass.confirmed.hash], root)
  }

  lemma LoadedGamesInFacts(
    w: World, cfg: Config, snap: Snapshot, games: Cache, lo: nat, latest: nat, fetched: seq<Game>, i: nat)
    requires latest + 1 == |snap.games| && FetchedExactly(w, cfg, snap, games, lo, latest, fetched)
    ensures i in WithFetched(games, fetched) <==> i in games || (lo <= i && IsGenuine(w, cfg, snap, i))
  {
    WithFetchedCommits(games, fetched);
    CommitIsComplete(w, cfg, snap, games, lo, latest, fetched, WithFetched(games, fetched));
    if i < |snap.games| {
      ReadInFacts(w, cfg, snap, i);
    }
    if FetchedBy(fetched, |fetched|, i) {
      var k :| 0 <= k < |fetched| && fetched[k].index == i;
    }
  }

  lemma InvalidInFacts(w: World, cfg: Config, s: State, d: Discovery, root: nat)
    requires ValidWorld(w) && Enabled(w, cfg, s, Discover(d)) && s.phase.Pruned?
    ensures root in d.invalid <==> FoundImpostor(w, cfg, s, d, root)
  {
    var snap := w.at[s.phase.pass.confirmed.hash];
    if root < |snap.games| {
      ReadInFacts(w, cfg, snap, root);
    }
  }

  /**
   After a committed walk the cache has exactly the games it had and the genuine ones that were visited, less
   those that hang below an impostor the walk found.
   */
  lemma CommittedWalkInFacts(w: World, cfg: Config, states: seq<State>, labels: seq<Label>, k: nat, i: nat)
    requires IsRun(w, cfg, states, labels) && k < |labels| && labels[k].Discover?
    ensures states[k].phase.Pruned? && states[k].phase.pass.confirmed.hash in w.at
    ensures var s, d := states[k], labels[k].d;
            var loaded := WithFetched(s.games, d.fetched);
            && (i in loaded <==> i in s.games || (d.floor <= i && IsGenuine(w, cfg, w.at[s.phase.pass.confirmed.hash], i)))
            && (i in states[k + 1].games <==>
                i in loaded && !exists root :: FoundImpostor(w, cfg, s, d, root) && i in Descendants(loaded, root))
  {
    var s, d := states[k], labels[k].d;
    RunKeepsInv(w, cfg, states, labels, k);
    assert TookAt(w, cfg, states, labels, k);
    var snap := w.at[s.phase.pass.confirmed.hash];
    LoadedGamesInFacts(w, cfg, snap, s.games, d.floor, |snap.games| - 1, d.fetched, i);
    var loaded := WithFetched(s.games, d.fetched);
    if i in AllSubtrees(loaded, d.invalid) {
      var j :| 0 <= j < |d.invalid| && i in Descendants(loaded, d.invalid[j]);
      assert d.invalid[j] in d.invalid;
      InvalidInFacts(w, cfg, s, d, d.invalid[j]);
    }
    if root :| FoundImpostor(w, cfg, s, d, root) && i in Descendants(loaded, root) {
      InvalidInFacts(w, cfg, s, d, root);
      var j :| 0 <= j < |d.invalid| && d.invalid[j] == root;
    }
  }

  // ----- which games the status pass evicts -----

  /** A game is evicted on its own account exactly when nothing is left to claim and it is neither head nor anchor. */
  lemma EvictionInFields(cfg: Config, snap: Snapshot, now: nat, head: Option<nat>, i: nat)
    requires i < |snap.games|
    ensures Decide(cfg, snap, now, head, i).Remove? <==>
            NothingToClaim(cfg, snap, i) && head != Some(i) && snap.games[i].facts.address != snap.anchorGame
    ensures Decide(cfg, snap, now, head, i).RemoveSubtree? <==> snap.games[i].live.status == ChallengerWins
  {
  }

  /** The status pass in fields: who leaves, whatever the order of the actions. */
  lemma StatusPassInFields(
    w: World, cfg: Config, snap: Snapshot, now: nat, head: Option<nat>, before: Cache, actions: seq<SyncAction>, i: nat)
    requires AllAdmitted(w, cfg, snap, before) && ActionsFor(cfg, snap, now, head, before, actions)
    requires WinsRestOnWins(snap) && i in before
    ensures i !in AfterActions(before, actions, |actions|) <==>
            || (NothingToClaim(cfg, snap, i) && head != Some(i) && snap.games[i].facts.address != snap.anchorGame)
            || exists root :: root in before && root < |snap.games| && snap.games[root].live.status == ChallengerWins
                              && i in Descendants(before, root)
  {
    assert Admitted(w, cfg, snap, i, before[i]);
    WinsRestOnWinsKeepsLostPure(w, cfg, snap, now, head, before);
    StatusPassIsExact(w, cfg, snap, now, head, before, actions, i);
    EvictionInFields(cfg, snap, now, head, i);
  }

  /** In every run, once the status pass is through, a cached game with nothing left to claim is the head or the anchor. */
  lemma SpentGamesAreHeadOrAnchor(w: World, cfg: Config, states: seq<State>, labels: seq<Label>, k: nat, i: nat)
    requires IsRun(w, cfg, states, labels) && k < |labels| && labels[k].Align? && i in states[k].games
    ensures states[k].phase.Applying? && states[k].phase.pass.confirmed.hash in w.at
    ensures var snap := w.at[states[k].phase.pass.confirmed.hash];
            NothingToClaim(cfg, snap, i) ==>
              states[k].headIndex == Some(i) || snap.games[i].facts.address == snap.anchorGame
  {
    RunKeepsInv(w, cfg, states, labels, k);
    assert TookAt(w, cfg, states, labels, k);
    var s := states[k];
    var snap, now := w.at[s.phase.pass.confirmed.hash], s.phase.pass.confirmed.timestamp;
    SurvivorsHaveUpdates(cfg, snap, now, s.headIndex, s.phase.before, s.phase.actions, s.games, i);
    EvictionInFields(cfg, snap, now, s.headIndex, i);
  }

  lemma SurvivorsHaveUpdates(
    cfg: Config, snap: Snapshot, now: nat, head: Option<nat>, before: Cache, actions: seq<SyncAction>, games: Cache, i: nat)
    requires ActionsFor(cfg, snap, now, head, before, actions) && i in games
    requires PartlyApplied(cfg, snap, now, head, before, actions, |actions|, games)
    ensures i < |snap.games| && Decide(cfg, snap, now, head, i).Update?
  {
    assert i in before;
    var k :| 0 <= k < |actions| && actions[k].index == i;
    assert actions[k] == Decide(cfg, snap, now, head, i);
  }

  // ----- anchor and head -----

  /** After every call that returns Ok the anchor is set exactly if the registry's anchor game is cached, and to that game. */
  lemma SyncedAnchorIsExact(w: World, cfg: Config, states: seq<State>, labels: seq<Label>, k: nat)
    requires IsRun(w, cfg, states, labels) && k < |labels| && IsSuccess(labels[k])
    ensures !states[k].phase.Idle? && states[k].phase.pass.confirmed.hash in w.at
    ensures var t, snap := states[k + 1], w.at[states[k].phase.pass.confirmed.hash];
            && (t.anchor.Some? <==>
                snap.anchorGame != 0 && exists i :: i in t.games && t.games[i].address == snap.anchorGame)
            && (t.anchor.Some? ==> && t.anchor.value.index in t.games && t.games[t.anchor.value.index] == t.anchor.value
                                   && t.anchor.value.address == snap.anchorGame)
  {
    SuccessEntersConfirmed(w, cfg, states, labels, k);
  }

  /** And the head is where parent indices and L2 blocks put it. */
  lemma SyncedHeadIsExact(w: World, cfg: Config, states: seq<State>, labels: seq<Label>, k: nat)
    requires IsRun(w, cfg, states, labels) && k < |labels| && IsSuccess(labels[k])
    ensures var t := states[k + 1];
            && (t.anchor.Some? ==> t.headIndex.Some? && FollowsAnchor(t.games, t.anchor.value.index, t.headIndex.value))
            && (t.anchor.None? ==> (t.headIndex.None? <==> t.games == map[]))
            && (t.anchor.None? && t.headIndex.Some? ==>
                  t.headIndex.value in t.games
                  && forall x :: x in t.games ==> t.games[x].l2Block <= t.games[t.headIndex.value].l2Block)
  {
    SuccessEntersConfirmed(w, cfg, states, labels, k);
    CanonicalHeadIsExact(states[k + 1].games, AnchorIndex(states[k + 1].anchor), states[k + 1].headIndex);
  }

  // ----- the creation guard -----

  /** The block has no game with this identity. */
  ghost predicate LacksProposal(cfg: Config, snap: Snapshot, id: ProposalId) {
    forall i :: 0 <= i < |snap.games| ==>
      !(&& snap.games[i].facts.gameType == cfg.gameType && snap.games[i].facts.claim == id.outputRoot
        && snap.games[i].facts.l2Block == id.l2Block && snap.games[i].facts.parentIndex == id.parentIndex)
  }

  lemma LookupInFacts(cfg: Config, snap: Snapshot, id: ProposalId)
    ensures LacksProposal(cfg, snap, id) <==> forall at :: !HoldsProposal(cfg, snap, id, at)
  {
    if forall at :: !HoldsProposal(cfg, snap, id, at) {
      forall i | 0 <= i < |snap.games|
        ensures !(&& snap.games[i].facts.gameType == cfg.gameType && snap.games[i].facts.claim == id.outputRoot
                  && snap.games[i].facts.l2Block == id.l2Block && snap.games[i].facts.parentIndex == id.parentIndex)
      {
        assert !HoldsProposal(cfg, snap, id, snap.games[i].facts.address);
      }
    }
  }

  /** The tip is no older than the guard's last sighting and lacks its game. */
  ghost predicate IsGoneAtTip(w: World, cfg: Config, s: State, e: Label) {
    && e.Reconcile? && s.phase.Selected? && s.phase.pass.tip.hash in w.at
    && s.guard.observation.Some? && s.guard.observation.value.l1Block <= s.phase.pass.tip.number
    && LacksProposal(cfg, w.at[s.phase.pass.tip.hash], s.guard.observation.value.id)
  }

  /** The step drops the cached subtree of a lost game, and the guarded address is in it. */
  ghost predicate IsDroppedWithLost(w: World, s: State, e: Label) {
    && e.ApplyNext? && s.phase.Applying? && s.phase.done < |s.phase.actions| && s.phase.pass.confirmed.hash in w.at
    && var snap, action := w.at[s.phase.pass.confirmed.hash], s.phase.actions[s.phase.done];
       && action.RemoveSubtree? && action.index < |snap.games| && snap.games[action.index].live.status == ChallengerWins
       && s.guard.address != 0
       && exists i :: i in s.games && i in Descendants(s.games, action.index) && s.games[i].address == s.guard.address
  }

  /** A set guard is cleared exactly when its game is missing at the tip or goes with a lost game. */
  lemma GuardIsResetExactlyWhen(w: World, cfg: Config, states: seq<State>, labels: seq<Label>, k: nat)
    requires IsRun(w, cfg, states, labels) && k < |labels| && states[k].guard != NO_GUARD
    ensures states[k + 1].guard == NO_GUARD <==>
            IsGoneAtTip(w, cfg, states[k], labels[k]) || IsDroppedWithLost(w, states[k], labels[k])
  {
    GuardIsResetIff(w, cfg, states, labels, k);
    var s, e := states[k], labels[k];
    if e.Reconcile? && s.phase.Selected? && s.phase.pass.tip.hash in w.at && s.guard.observation.Some? {
      LookupInFacts(cfg, w.at[s.phase.pass.tip.hash], s.guard.observation.value.id);
    }
    if GuardedIsUnderLost(w, s, e) {
      var i :| i in Descendants(s.games, s.phase.actions[s.phase.done].index) && Guards(s.guard, s.games, i);
      assert i in s.games && s.games[i].address == s.guard.address;
    }
    if IsDroppedWithLost(w, s, e) {
      var i :| i in s.games && i in Descendants(s.games, s.phase.actions[s.phase.done].index)
               && s.games[i].address == s.guard.address;
      assert Guards(s.guard, s.games, i);
    }
  }

  /** Step `k` found the guarded game at its tip. */
  ghost predicate IsSighting(states: seq<State>, labels: seq<Label>, k: nat)
    requires k < |labels| && k < |states|
  {
    && labels[k].Reconcile? && states[k].phase.Selected? && labels[k].found != 0
    && states[k].guard.observation.Some? && states[k].guard.observation.value.l1Block <= states[k].phase.pass.tip.number
  }

  /** A sighting moves the observation up to the tip and takes over the address found there; the game stays the same. */
  lemma SightingUpdatesGuard(w: World, cfg: Config, states: seq<State>, labels: seq<Label>, k: nat)
    requires IsRun(w, cfg, states, labels) && k < |labels| && IsSighting(states, labels, k)
    ensures var before, after, tip := states[k].guard, states[k + 1].guard, states[k].phase.pass.tip;
            && tip.hash in w.at && after.observation.Some?
            && after.address == labels[k].found && after.observation.value.l1Block == tip.number
            && after.observation.value.id == before.observation.value.id && after.l2Block == before.l2Block
            && HoldsProposal(cfg, w.at[tip.hash], before.observation.value.id, labels[k].found)
  {
    CapturedGuardIsCurrent(w, cfg, states, labels, k);
    assert TookAt(w, cfg, states, labels, k);
  }

  /** Nothing but a new creation or a reset moves a sighting back. */
  lemma {:induction false} SightingNeverMovesBack(
    w: World, cfg: Config, states: seq<State>, labels: seq<Label>, j: nat, k: nat)
    requires IsRun(w, cfg, states, labels) && j <= k < |states| && states[j].guard.observation.Some?
    requires forall m :: j <= m < k ==> !IsReset(states, m) && !labels[m].Record?
    ensures states[k].guard.observation.Some?
    ensures states[j].guard.observation.value.l1Block <= states[k].guard.observation.value.l1Block
  {
    if j < k {
      SightingNeverMovesBack(w, cfg, states, labels, j, k - 1);
      assert TookAt(w, cfg, states, labels, k - 1);
      assert !IsReset(states, k - 1) && !labels[k - 1].Record?;
      SightingStep(w, cfg, states[k - 1], labels[k - 1]);
    }
  }

  lemma SightingStep(w: World, cfg: Config, s: State, e: Label)
    requires ValidWorld(w) && Enabled(w, cfg, s, e) && !e.Record? && s.guard.observation.Some?
    ensures var g := Next(w, cfg, s, e).guard;
            g == NO_GUARD || (g.observation.Some? && s.guard.observation.value.l1Block <= g.observation.value.l1Block)
  {
  }

  /** A tip older than an earlier sighting of the same guard never changes it. */
  lemma OldTipsDecideNothing(w: World, cfg: Config, states: seq<State>, labels: seq<Label>, j: nat, k: nat)
    requires IsRun(w, cfg, states, labels) && j < k < |labels| && IsSighting(states, labels, j)
    requires labels[k].Reconcile? && states[k].phase.Selected?
    requires states[k].phase.pass.tip.number < states[j].phase.pass.tip.number
    requires forall m :: j < m < k ==> !IsReset(states, m) && !labels[m].Record?
    ensures states[k + 1].guard == states[k].guard
  {
    SightingUpdatesGuard(w, cfg, states, labels, j);
    SightingNeverMovesBack(w, cfg, states, labels, j + 1, k);
    CapturedGuardIsCurrent(w, cfg, states, labels, k);
    assert TookAt(w, cfg, states, labels, k);
  }
}

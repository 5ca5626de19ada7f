/**
 The fault-proof proposer as a machine. One `sync_state` call is a sequence of small steps, any of
 which may be followed by a failure; creation steps happen between calls, because both hold the sync
 lock. Every step is determined by the state, the chain and the answers the backend gave for the heads.
 */
module ProposerMachine {
  import opened Prelude
  import opened L1Chain
  import opened FinalizedRemovals
  import opened GameGraph
  import opened Factory
  import opened CreationGuards
  import opened DiscoveryWalk
  import opened StatusPass

  /** The heads one call works with; `first` and `last` are its two finality answers. */
  datatype Pass = Pass(tip: Header, confirmed: Header, first: Option<Header>, last: Option<Header>)
  {
    function Block(): BlockNumHash {
      BlockNumHash(confirmed.number, confirmed.hash)
    }
  }

  /** How far the current call has come. */
  datatype Phase =
    | Idle
    | Selected(pass: Pass, captured: CreationGuard)
    | Compared(pass: Pass)
    | Rebuilding(pass: Pass)
    | Pinned(pass: Pass)
    | Pruned(pass: Pass)
    | Discovered(pass: Pass)
    | Applying(pass: Pass, before: Cache, actions: seq<SyncAction>, done: nat)
    | Aligned(pass: Pass)
    | Headed(pass: Pass)

  /** The proposer's fields as one value. */
  datatype State = State(
    anchor: Option<Game>,
    headIndex: Option<nat>,
    headL2Block: Option<nat>,
    cursor: Option<nat>,
    games: Cache,
    removed: Removals,
    syncBlock: Option<BlockNumHash>,
    complete: bool,
    guard: CreationGuard,
    creating: Option<nat>,
    phase: Phase)
  {
    /** The indices the proposer still knows about. */
    function Tracked(): set<nat> {
      games.Keys + removed.Keys
    }
  }

  datatype Label =
    | Begin(pass: Pass)
    | Reconcile(found: Address)
    | Skip
    | ReleaseFirst
    | Rebuild
    | Extend
    | PruneFuture
    | Discover(d: Discovery)
    | DecideAll(actions: seq<SyncAction>)
    | ApplyNext
    | Align(anchor: Option<Game>)
    | SelectHead(head: Option<nat>)
    | Finish
    | Fail
    | Check
    | Record(created: CreationGuard)
    | Abandon

  ghost predicate IsBlock(w: World, b: BlockNumHash) {
    b.hash in w.tree && w.tree[b.hash].number == b.number
  }

  /** All heads are blocks of the tree, and the confirmed one has the number asked for. */
  ghost predicate RealPass(w: World, cfg: Config, p: Pass) {
    && InTree(w.tree, p.tip) && InTree(w.tree, p.confirmed)
    && p.confirmed.number == Max(0, p.tip.number - cfg.confirmations)
    && (cfg.confirmations == 0 ==> p.confirmed == p.tip)
    && IsRealAnswer(w.tree, p.first) && IsRealAnswer(w.tree, p.last)
  }

  /** The block of the last pass is not at or below the confirmed one. */
  ghost predicate MustRebuild(w: World, syncBlock: Option<BlockNumHash>, confirmed: Header)
    requires ValidWorld(w) && InTree(w.tree, confirmed)
  {
    syncBlock.None? || !OnChainOf(w.tree, confirmed.hash, syncBlock.value)
  }

  /** The anchor pointer is the cached game at the registry's address, and unset if there is none. */
  ghost predicate AnchorAligned(snap: Snapshot, games: Cache, anchor: Option<Game>) {
    if anchor.Some? then
      && anchor.value.index in games && games[anchor.value.index] == anchor.value
      && anchor.value.address == snap.anchorGame && snap.anchorGame != ZERO_ADDRESS
    else
      snap.anchorGame == ZERO_ADDRESS || forall i :: i in games ==> games[i].address != snap.anchorGame
  }

  function AnchorIndex(anchor: Option<Game>): Option<nat> {
    if anchor.Some? then Some(anchor.value.index) else None
  }

  /** Rollback records for the games in `gone`, all removed at one block. */
  function Retire(removed: Removals, gone: set<nat>, block: BlockNumHash): Removals {
    removed + (map i | i in gone :: block)
  }

  /** Cached games that a factory with `count` games does not have. */
  function FutureGames(games: Cache, count: nat): set<nat> {
    set i | i in games && count <= i
  }

  /** A fresh read of `indices`: exactly the valid ones among them. */
  function Reread(w: World, cfg: Config, snap: Snapshot, indices: set<nat>): Cache {
    map i | i in indices && i < |snap.games| && Classify(w, cfg, snap, i).ValidGame? :: GameFrom(snap, i)
  }

  ghost predicate Enabled(w: World, cfg: Config, s: State, e: Label)
    requires ValidWorld(w)
  {
    if s.phase.Idle? then
      match e
      case Begin(pass) => RealPass(w, cfg, pass)
      case Check =>
        && s.creating.None? && s.headL2Block.Some?
        && (s.guard.l2Block > 0 ==> s.guard.l2Block < s.headL2Block.value + cfg.proposalInterval)
      case Record(created) =>
        s.creating.Some? && s.creating.value <= created.l2Block && 0 < created.l2Block && created.observation.Some?
      case Abandon => s.creating.Some?
      case _ => false
    else
      && RealPass(w, cfg, s.phase.pass)
      && EnabledIn(w, cfg, s, s.phase.pass, e)
  }

  /** What may happen next inside a call. */
  ghost predicate EnabledIn(w: World, cfg: Config, s: State, p: Pass, e: Label)
    requires ValidWorld(w) && RealPass(w, cfg, p)
  {
    var snap := w.at[p.confirmed.hash];
    match e
    case Fail => true
    case Reconcile(found) =>
      && s.phase.Selected?
      && (MayOverrule(s.phase.captured, p.tip) ==>
            IsLookup(cfg, w.at[p.tip.hash], s.phase.captured.observation.value.id, found))
    case Skip => s.phase.Compared? && s.complete && s.syncBlock == Some(p.Block())
    case ReleaseFirst =>
      s.phase.Compared? && MustRebuild(w, s.syncBlock, p.confirmed) && CanRelease(w.tree, s.removed, p.confirmed, p.first)
    case Rebuild => s.phase.Rebuilding?
    case Extend =>
      && s.phase.Compared? && !MustRebuild(w, s.syncBlock, p.confirmed)
      && !(s.complete && s.syncBlock == Some(p.Block()))
    case PruneFuture => s.phase.Pinned?
    case Discover(d) =>
      s.phase.Pruned? && snap.games != [] && IsWalk(w, cfg, snap, s.games, s.cursor, |snap.games| - 1, d)
    case DecideAll(actions) =>
      s.phase.Discovered? && ActionsFor(cfg, snap, p.confirmed.timestamp, s.headIndex, s.games, actions)
    case ApplyNext => s.phase.Applying? && s.phase.done < |s.phase.actions|
    case Align(anchor) =>
      s.phase.Applying? && s.phase.done == |s.phase.actions| && AnchorAligned(snap, s.games, anchor)
    case SelectHead(head) =>
      s.phase.Aligned? && IsCanonicalHead(s.games, AnchorIndex(s.anchor), head) && (head.Some? ==> head.value in s.games)
    case Finish => s.phase.Headed? && CanRelease(w.tree, s.removed, p.confirmed, p.last)
    case _ => false
  }

  /** The pinned block has no such games: they are retired, and the guard with them if its game is one of them. */
  ghost function AfterPrune(w: World, s: State, p: Pass): State
    requires p.confirmed.hash in w.at
  {
    var count := |w.at[p.confirmed.hash].games|;
    var gone := FutureGames(s.games, count);
    var rest := s.games - gone;
    s.(games := rest,
       removed := Retire(s.removed, gone, p.Block()),
       anchor := if gone != {} && s.anchor.Some? && s.anchor.value.index !in rest then None else s.anchor,
       guard := Cleared(s.guard, s.games, gone),
       cursor := if count == 0 then None else s.cursor,
       phase := if count == 0 then Applying(p, rest, [], 0) else Pruned(p))
  }

  /** Everything a walk found is committed at once, and what sits on invalid games is retired. */
  ghost function AfterDiscovery(s: State, p: Pass, d: Discovery, latest: nat): State {
    var loaded := WithFetched(s.games, d.fetched);
    var gone := AllSubtrees(loaded, d.invalid);
    s.(games := loaded - gone,
       removed := Retire(s.removed - (loaded.Keys - s.games.Keys), gone, p.Block()),
       cursor := Some(latest),
       phase := Discovered(p))
  }

  ghost function AfterRebuild(w: World, cfg: Config, s: State, p: Pass): State
    requires p.confirmed.hash in w.at
  {
    var snap := w.at[p.confirmed.hash];
    var games := Reread(w, cfg, snap, s.Tracked());
    s.(games := games, removed := Retire(map[], s.Tracked() - games.Keys, p.Block()),
       cursor := None, anchor := None, headIndex := None, headL2Block := Some(snap.anchorL2Block),
       syncBlock := Some(p.Block()), complete := false, phase := Pinned(p))
  }

  /** One action of the status pass; a lost game takes its cached subtree and a guard inside it along. */
  ghost function AfterApply(s: State, p: Pass): State
    requires s.phase.Applying? && s.phase.done < |s.phase.actions|
  {
    var action := s.phase.actions[s.phase.done];
    var gone := GoneWith(s.games, action) * s.games.Keys;
    s.(games := AfterAction(s.games, action),
       removed := Retire(s.removed, gone, p.Block()),
       guard := if action.RemoveSubtree? then Cleared(s.guard, s.games, gone) else s.guard,
       phase := s.phase.(done := s.phase.done + 1))
  }

  ghost function Next(w: World, cfg: Config, s: State, e: Label): State
    requires ValidWorld(w) && Enabled(w, cfg, s, e)
  {
    match e
    case Begin(pass) => s.(phase := Selected(pass, s.guard))
    case Reconcile(found) =>
      var checked := MayOverrule(s.phase.captured, s.phase.pass.tip) && s.guard == s.phase.captured;
      s.(guard := if checked then Reconciled(s.guard, s.phase.pass.tip, found) else s.guard,
         phase := Compared(s.phase.pass))
    case Skip => s.(phase := Idle)
    case ReleaseFirst =>
      s.(removed := s.removed - ToRelease(w.tree, s.removed, s.phase.pass.confirmed, s.phase.pass.first),
         phase := Rebuilding(s.phase.pass))
    case Rebuild => AfterRebuild(w, cfg, s, s.phase.pass)
    case Extend => s.(syncBlock := Some(s.phase.pass.Block()), complete := false, phase := Pinned(s.phase.pass))
    case PruneFuture => AfterPrune(w, s, s.phase.pass)
    case Discover(d) => AfterDiscovery(s, s.phase.pass, d, |w.at[s.phase.pass.confirmed.hash].games| - 1)
    case DecideAll(actions) => s.(phase := Applying(s.phase.pass, s.games, actions, 0))
    case ApplyNext => AfterApply(s, s.phase.pass)
    case Align(anchor) => s.(anchor := anchor, phase := Aligned(s.phase.pass))
    case SelectHead(head) =>
      s.(headIndex := head,
         headL2Block := if head.Some? then Some(s.games[head.value].l2Block) else s.headL2Block,
         phase := Headed(s.phase.pass))
    case Finish =>
      s.(removed := s.removed - ToRelease(w.tree, s.removed, s.phase.pass.confirmed, s.phase.pass.last),
         complete := true, phase := Idle)
    case Fail => s.(phase := Idle)
    case Check => s.(creating := Some(s.headL2Block.value + cfg.proposalInterval))
    case Record(created) =>
      var seen := s.syncBlock.Some? && created.observation.value.l1Block <= s.syncBlock.value.number;
      s.(guard := created, creating := None,
         cursor := if seen then None else s.cursor, complete := s.complete && !seen)
    case Abandon => s.(creating := None)
  }

  // ----- what every state keeps -----

  /** Each record was made on the chain of `b`, at a block where the game could be left out. */
  ghost predicate RecordsExcused(w: World, cfg: Config, b: BlockNumHash, removed: Removals)
    requires ValidWorld(w) && IsBlock(w, b)
  {
    forall i :: i in removed ==>
      OnChainOf(w.tree, b.hash, removed[i]) && Excused(w, cfg, w.at[removed[i].hash], i)
  }

  /** What holds from the moment a block is entered, even if its pass then fails. */
  ghost predicate Entered(w: World, cfg: Config, b: BlockNumHash, games: Cache, removed: Removals, cursor: Option<nat>)
    requires ValidWorld(w)
  {
    && IsBlock(w, b)
    && games.Keys !! removed.Keys
    && AllAdmitted(w, cfg, w.at[b.hash], games)
    && RecordsExcused(w, cfg, b, removed)
    && Above(cursor) <= |w.at[b.hash].games|
  }

  /** The whole state says what the chain holds at `b`. */
  ghost predicate Agrees(w: World, cfg: Config, s: State, b: BlockNumHash)
    requires ValidWorld(w) && IsBlock(w, b)
  {
    && AllFresh(cfg, w.at[b.hash], w.tree[b.hash].timestamp, s.games)
    && AnchorAligned(w.at[b.hash], s.games, s.anchor)
    && IsCanonicalHead(s.games, AnchorIndex(s.anchor), s.headIndex)
    && (s.headIndex.Some? ==> s.headIndex.value in s.games && s.headL2Block == Some(s.games[s.headIndex.value].l2Block))
    && Above(s.cursor) == |w.at[b.hash].games|
  }

  /** Inside a pass the confirmed block is the entered one, and the work done so far is right. */
  ghost predicate PhaseInv(w: World, cfg: Config, s: State, p: Pass)
    requires ValidWorld(w) && RealPass(w, cfg, p)
  {
    var snap, now := w.at[p.confirmed.hash], p.confirmed.timestamp;
    match s.phase
    case Idle => true
    case Selected(_, captured) => captured == s.guard
    case Compared(_) => true
    case Rebuilding(_) => true
    case Pinned(_) => OnPass(s, p)
    case Pruned(_) => OnPass(s, p)
    case Discovered(_) => OnPass(s, p) && Above(s.cursor) == |snap.games|
    case Applying(_, before, actions, done) =>
      && OnPass(s, p) && Above(s.cursor) == |snap.games|
      && AllAdmitted(w, cfg, snap, before) && ActionsFor(cfg, snap, now, s.headIndex, before, actions)
      && done <= |actions| && PartlyApplied(cfg, snap, now, s.headIndex, before, actions, done, s.games)
    case Aligned(_) =>
      && OnPass(s, p) && Above(s.cursor) == |snap.games|
      && AllFresh(cfg, snap, now, s.games) && AnchorAligned(snap, s.games, s.anchor)
    case Headed(_) => OnPass(s, p) && Agrees(w, cfg, s, p.Block())
  }

  ghost predicate OnPass(s: State, p: Pass) {
    s.syncBlock == Some(p.Block()) && !s.complete
  }

  /** A creation in flight is above the guard. */
  ghost predicate InFlightAbove(s: State) {
    s.creating.Some? && s.guard.l2Block > 0 ==> s.guard.l2Block < s.creating.value
  }

  ghost predicate Inv(w: World, cfg: Config, s: State)
    requires ValidWorld(w)
  {
    && Indexed(s.games) && InFlightAbove(s)
    && (s.syncBlock.Some? ==> Entered(w, cfg, s.syncBlock.value, s.games, s.removed, s.cursor))
    && (s.complete ==> s.syncBlock.Some? && Agrees(w, cfg, s, s.syncBlock.value))
    && (!s.phase.Idle? ==> RealPass(w, cfg, s.phase.pass) && PhaseInv(w, cfg, s, s.phase.pass))
  }

  /** A fresh start or any restored backup: no block counts as synced. */
  ghost predicate IsStart(s: State) {
    Indexed(s.games) && s.syncBlock.None? && !s.complete && s.creating.None? && s.phase.Idle?
  }

  // ----- every step keeps the invariant -----

  lemma RetiringKeepsEntered(
    w: World, cfg: Config, b: BlockNumHash, games: Cache, removed: Removals, cursor: Option<nat>, gone: set<nat>)
    requires ValidWorld(w) && Entered(w, cfg, b, games, removed, cursor) && gone <= games.Keys
    requires forall i :: i in gone ==> Excused(w, cfg, w.at[b.hash], i)
    ensures Entered(w, cfg, b, games - gone, Retire(removed, gone, b), cursor)
    ensures (games - gone).Keys + Retire(removed, gone, b).Keys == games.Keys + removed.Keys
  {
    var records := Retire(removed, gone, b);
    forall i | i in records ensures OnChainOf(w.tree, b.hash, records[i]) && Excused(w, cfg, w.at[records[i].hash], i) {
    }
    assert AllAdmitted(w, cfg, w.at[b.hash], games - gone);
  }

  /** Records stay excused at any block that extends theirs. */
  lemma ExtensionKeepsEntered(
    w: World, cfg: Config, b: BlockNumHash, games: Cache, removed: Removals, cursor: Option<nat>, to: BlockNumHash)
    requires ValidWorld(w) && Entered(w, cfg, b, games, removed, cursor)
    requires IsBlock(w, to) && OnChainOf(w.tree, to.hash, b)
    ensures Entered(w, cfg, to, games, removed, cursor)
  {
    ExtendsEveryAncestor(w, to.hash, b.number);
    forall i | i in games ensures Admitted(w, cfg, w.at[to.hash], i, games[i]) {
      AdmittedSurvivesExtension(w, cfg, w.at[b.hash], w.at[to.hash], i, games[i]);
    }
    forall i | i in removed ensures OnChainOf(w.tree, to.hash, removed[i]) {
      AncestorOfAncestor(w.tree, to.hash, b.number, removed[i].number);
    }
  }

  lemma ReleaseKeepsEntered(
    w: World, cfg: Config, b: BlockNumHash, games: Cache, removed: Removals, cursor: Option<nat>, gone: set<nat>)
    requires ValidWorld(w) && Entered(w, cfg, b, games, removed, cursor)
    ensures Entered(w, cfg, b, games, removed - gone, cursor)
  {
  }

  lemma RebuildEnters(w: World, cfg: Config, b: BlockNumHash, indices: set<nat>)
    requires ValidWorld(w) && IsBlock(w, b)
    ensures var games := Reread(w, cfg, w.at[b.hash], indices);
            Indexed(games) && Entered(w, cfg, b, games, Retire(map[], indices - games.Keys, b), None)
  {
    var games := Reread(w, cfg, w.at[b.hash], indices);
    var removed := Retire(map[], indices - games.Keys, b);
    forall i | i in removed ensures removed[i] == b && Excused(w, cfg, w.at[b.hash], i) {
    }
  }

  lemma RebuildKeepsInv(w: World, cfg: Config, s: State, e: Label)
    requires ValidWorld(w) && Inv(w, cfg, s) && Enabled(w, cfg, s, e) && e.Rebuild?
    ensures Inv(w, cfg, Next(w, cfg, s, e))
  {
    RebuildEnters(w, cfg, s.phase.pass.Block(), s.Tracked());
  }

  lemma PruneKeepsInv(w: World, cfg: Config, s: State, e: Label)
    requires ValidWorld(w) && Inv(w, cfg, s) && Enabled(w, cfg, s, e) && e.PruneFuture?
    ensures Inv(w, cfg, Next(w, cfg, s, e))
  {
    var p := s.phase.pass;
    var snap := w.at[p.confirmed.hash];
    var gone := FutureGames(s.games, |snap.games|);
    RetiringKeepsEntered(w, cfg, p.Block(), s.games, s.removed, s.cursor, gone);
    if |snap.games| == 0 {
      assert s.games - gone == map[];
    }
  }

  lemma CommitKeepsEntered(
    w: World, cfg: Config, b: BlockNumHash, games: Cache, removed: Removals, cursor: Option<nat>, d: Discovery, latest: nat)
    requires ValidWorld(w) && Entered(w, cfg, b, games, removed, cursor)
    requires latest + 1 == |w.at[b.hash].games| && FetchedExactly(w, cfg, w.at[b.hash], games, d.floor, latest, d.fetched)
    ensures var loaded := WithFetched(games, d.fetched);
            && games.Keys <= loaded.Keys
            && Entered(w, cfg, b, loaded, removed - (loaded.Keys - games.Keys), Some(latest))
            && forall i :: d.floor <= i <= latest && Classify(w, cfg, w.at[b.hash], i).ValidGame? ==> i in loaded
  {
    WithFetchedCommits(games, d.fetched);
    CommitIsAdmitted(w, cfg, w.at[b.hash], games, d.floor, latest, d.fetched, WithFetched(games, d.fetched));
    CommitIsComplete(w, cfg, w.at[b.hash], games, d.floor, latest, d.fetched, WithFetched(games, d.fetched));
  }

  lemma InvalidSubtreesAreExcused(w: World, cfg: Config, snap: Snapshot, games: Cache, invalid: seq<nat>)
    requires AllAdmitted(w, cfg, snap, games)
    requires forall i :: i in invalid ==> i < |snap.games| && Classify(w, cfg, snap, i).InvalidGame?
    ensures forall i :: i in AllSubtrees(games, invalid) ==> Excused(w, cfg, snap, i)
  {
    forall i | i in AllSubtrees(games, invalid) ensures Excused(w, cfg, snap, i) {
      var k :| 0 <= k < |invalid| && i in Descendants(games, invalid[k]);
      CachedSubtreeIsReal(w, cfg, snap, games, invalid[k]);
      assert invalid[k] in invalid && IsRejected(w, cfg, snap, invalid[k]);
    }
  }

  lemma AdmittedIsIndexed(w: World, cfg: Config, snap: Snapshot, games: Cache)
    requires AllAdmitted(w, cfg, snap, games)
    ensures Indexed(games)
  {
    forall i | i in games ensures games[i].index == i {
      assert Admitted(w, cfg, snap, i, games[i]);
    }
  }

  lemma DiscoverKeepsInv(w: World, cfg: Config, s: State, e: Label)
    requires ValidWorld(w) && Inv(w, cfg, s) && Enabled(w, cfg, s, e) && e.Discover?
    ensures Inv(w, cfg, Next(w, cfg, s, e))
  {
    var p, d := s.phase.pass, e.d;
    var snap := w.at[p.confirmed.hash];
    var latest := |snap.games| - 1;
    var loaded := WithFetched(s.games, d.fetched);
    CommitKeepsEntered(w, cfg, p.Block(), s.games, s.removed, s.cursor, d, latest);
    InvalidSubtreesAreExcused(w, cfg, snap, loaded, d.invalid);
    RetiringKeepsEntered(w, cfg, p.Block(), loaded, s.removed - (loaded.Keys - s.games.Keys), Some(latest),
                         AllSubtrees(loaded, d.invalid));
    AdmittedIsIndexed(w, cfg, snap, loaded - AllSubtrees(loaded, d.invalid));
  }

  lemma ApplyKeepsEntered(
    w: World, cfg: Config, p: Pass, games: Cache, removed: Removals, cursor: Option<nat>, head: Option<nat>,
    before: Cache, actions: seq<SyncAction>, done: nat)
    requires ValidWorld(w) && RealPass(w, cfg, p) && Entered(w, cfg, p.Block(), games, removed, cursor)
    requires done < |actions| && AllAdmitted(w, cfg, w.at[p.confirmed.hash], before)
    requires Decided(cfg, w.at[p.confirmed.hash], p.confirmed.timestamp, head, before, actions)
    requires PartlyApplied(cfg, w.at[p.confirmed.hash], p.confirmed.timestamp, head, before, actions, done, games)
    ensures var after := AfterAction(games, actions[done]);
            var gone := GoneWith(games, actions[done]) * games.Keys;
            && Indexed(after)
            && Entered(w, cfg, p.Block(), after, Retire(removed, gone, p.Block()), cursor)
            && PartlyApplied(cfg, w.at[p.confirmed.hash], p.confirmed.timestamp, head, before, actions, done + 1, after)
  {
    var snap, now := w.at[p.confirmed.hash], p.confirmed.timestamp;
    var action := actions[done];
    var after := AfterAction(games, action);
    var gone := GoneWith(games, action) * games.Keys;
    assert action == Decide(cfg, snap, now, head, action.index);
    forall i | i in gone ensures Excused(w, cfg, snap, i) {
      GoneIsExcused(w, cfg, snap, now, head, games, action, i);
    }
    RetiringKeepsEntered(w, cfg, p.Block(), games, removed, cursor, gone);
    OneActionApplies(w, cfg, snap, now, head, before, actions, done, games, after);
    AppliedIsAdmitted(w, cfg, snap, before, after);
    AdmittedIsIndexed(w, cfg, snap, games);
    AfterActionShrinks(games, action);
  }

  lemma ApplyKeepsInv(w: World, cfg: Config, s: State, e: Label)
    requires ValidWorld(w) && Inv(w, cfg, s) && Enabled(w, cfg, s, e) && e.ApplyNext?
    ensures Inv(w, cfg, Next(w, cfg, s, e))
  {
    ApplyKeepsEntered(w, cfg, s.phase.pass, s.games, s.removed, s.cursor, s.headIndex, s.phase.before, s.phase.actions,
                      s.phase.done);
  }

  lemma AppliedIsAdmitted(w: World, cfg: Config, snap: Snapshot, before: Cache, after: Cache)
    requires AllAdmitted(w, cfg, snap, before)
    requires forall i :: i in after ==> i in before && SameFacts(after[i], before[i])
    ensures AllAdmitted(w, cfg, snap, after)
  {
    forall i | i in after ensures Admitted(w, cfg, snap, i, after[i]) {
      assert Admitted(w, cfg, snap, i, before[i]);
    }
  }

  lemma DecideKeepsInv(w: World, cfg: Config, s: State, e: Label)
    requires ValidWorld(w) && Inv(w, cfg, s) && Enabled(w, cfg, s, e) && e.DecideAll?
    ensures Inv(w, cfg, Next(w, cfg, s, e))
  {
  }

  lemma AlignKeepsInv(w: World, cfg: Config, s: State, e: Label)
    requires ValidWorld(w) && Inv(w, cfg, s) && Enabled(w, cfg, s, e) && e.Align?
    ensures Inv(w, cfg, Next(w, cfg, s, e))
  {
    var p := s.phase.pass;
    AppliedIsFresh(cfg, w.at[p.confirmed.hash], p.confirmed.timestamp, s.headIndex, s.phase.before, s.phase.actions, s.games);
  }

  lemma FinishKeepsInv(w: World, cfg: Config, s: State, e: Label)
    requires ValidWorld(w) && Inv(w, cfg, s) && Enabled(w, cfg, s, e) && e.Finish?
    ensures Inv(w, cfg, Next(w, cfg, s, e))
  {
    var p := s.phase.pass;
    ReleaseKeepsEntered(w, cfg, p.Block(), s.games, s.removed, s.cursor, ToRelease(w.tree, s.removed, p.confirmed, p.last));
  }

  lemma ReleaseFirstKeepsInv(w: World, cfg: Config, s: State, e: Label)
    requires ValidWorld(w) && Inv(w, cfg, s) && Enabled(w, cfg, s, e) && e.ReleaseFirst?
    ensures Inv(w, cfg, Next(w, cfg, s, e))
  {
    var p := s.phase.pass;
    if s.syncBlock.Some? {
      ReleaseKeepsEntered(w, cfg, s.syncBlock.value, s.games, s.removed, s.cursor,
                          ToRelease(w.tree, s.removed, p.confirmed, p.first));
    }
  }

  lemma ExtendKeepsInv(w: World, cfg: Config, s: State, e: Label)
    requires ValidWorld(w) && Inv(w, cfg, s) && Enabled(w, cfg, s, e) && e.Extend?
    ensures Inv(w, cfg, Next(w, cfg, s, e))
  {
    ExtensionKeepsEntered(w, cfg, s.syncBlock.value, s.games, s.removed, s.cursor, s.phase.pass.Block());
  }

  lemma SelectHeadKeepsInv(w: World, cfg: Config, s: State, e: Label)
    requires ValidWorld(w) && Inv(w, cfg, s) && Enabled(w, cfg, s, e) && e.SelectHead?
    ensures Inv(w, cfg, Next(w, cfg, s, e))
  {
  }

  lemma LocalKeepsInv(w: World, cfg: Config, s: State, e: Label)
    requires ValidWorld(w) && Inv(w, cfg, s) && Enabled(w, cfg, s, e)
    requires e.Begin? || e.Reconcile? || e.Skip? || e.Fail? || e.Check? || e.Record? || e.Abandon?
    ensures Inv(w, cfg, Next(w, cfg, s, e))
  {
  }

  lemma EntryKeepsInv(w: World, cfg: Config, s: State, e: Label)
    requires ValidWorld(w) && Inv(w, cfg, s) && Enabled(w, cfg, s, e)
    requires e.ReleaseFirst? || e.Rebuild? || e.Extend? || e.PruneFuture? || e.Discover?
    ensures Inv(w, cfg, Next(w, cfg, s, e))
  {
    match e {
      case ReleaseFirst => ReleaseFirstKeepsInv(w, cfg, s, e);
      case Rebuild => RebuildKeepsInv(w, cfg, s, e);
      case Extend => ExtendKeepsInv(w, cfg, s, e);
      case PruneFuture => PruneKeepsInv(w, cfg, s, e);
      case Discover(_) => DiscoverKeepsInv(w, cfg, s, e);
    }
  }

  lemma RefreshKeepsInv(w: World, cfg: Config, s: State, e: Label)
    requires ValidWorld(w) && Inv(w, cfg, s) && Enabled(w, cfg, s, e)
    requires e.DecideAll? || e.ApplyNext? || e.Align? || e.SelectHead? || e.Finish?
    ensures Inv(w, cfg, Next(w, cfg, s, e))
  {
    match e {
      case DecideAll(_) => DecideKeepsInv(w, cfg, s, e);
      case ApplyNext => ApplyKeepsInv(w, cfg, s, e);
      case Align(_) => AlignKeepsInv(w, cfg, s, e);
      case SelectHead(_) => SelectHeadKeepsInv(w, cfg, s, e);
      case Finish => FinishKeepsInv(w, cfg, s, e);
    }
  }

  lemma StepKeepsInv(w: World, cfg: Config, s: State, e: Label)
    requires ValidWorld(w) && Inv(w, cfg, s) && Enabled(w, cfg, s, e)
    ensures Inv(w, cfg, Next(w, cfg, s, e))
  {
    if e.ReleaseFirst? || e.Rebuild? || e.Extend? || e.PruneFuture? || e.Discover? {
      EntryKeepsInv(w, cfg, s, e);
    } else if e.DecideAll? || e.ApplyNext? || e.Align? || e.SelectHead? || e.Finish? {
      RefreshKeepsInv(w, cfg, s, e);
    } else {
      LocalKeepsInv(w, cfg, s, e);
    }
  }
}

/** What holds over every run of the proposer, with reorgs, head regressions and calls that fail midway. */
module ProposerRuns {
  import opened Prelude
  import opened L1Chain
  import opened FinalizedRemovals
  import opened GameGraph
  import opened Factory
  import opened CreationGuards
  import opened DiscoveryWalk
  import opened StatusPass
  import opened ProposerMachine

  ghost predicate Took(w: World, cfg: Config, s: State, e: Label, t: State)
    requires ValidWorld(w)
  {
    Enabled(w, cfg, s, e) && t == Next(w, cfg, s, e)
  }

  ghost predicate TookAt(w: World, cfg: Config, states: seq<State>, labels: seq<Label>, k: nat)
    requires ValidWorld(w) && k < |labels| && k + 1 < |states|
  {
    Took(w, cfg, states[k], labels[k], states[k + 1])
  }

  /** A run from a fresh start or from any restored backup. */
  ghost predicate IsRun(w: World, cfg: Config, states: seq<State>, labels: seq<Label>) {
    && ValidWorld(w)
    && |states| == |labels| + 1
    && IsStart(states[0])
    && forall k: nat :: k < |labels| ==> TookAt(w, cfg, states, labels, k)
  }

  lemma {:induction false} RunKeepsInv(w: World, cfg: Config, states: seq<State>, labels: seq<Label>, k: nat)
    requires IsRun(w, cfg, states, labels) && k < |states|
    ensures Inv(w, cfg, states[k])
  {
    if k > 0 {
      RunKeepsInv(w, cfg, states, labels, k - 1);
      assert TookAt(w, cfg, states, labels, k - 1);
      StepKeepsInv(w, cfg, states[k - 1], labels[k - 1]);
    }
  }

  /** The two ways in which `sync_state` returns Ok. */
  predicate IsSuccess(e: Label) {
    e.Finish? || e.Skip?
  }

  lemma RunOneMore(w: World, cfg: Config, states: seq<State>, labels: seq<Label>, e: Label, t: State)
    requires IsRun(w, cfg, states, labels) && Took(w, cfg, states[|labels|], e, t)
    ensures IsRun(w, cfg, states + [t], labels + [e])
  {
    var more, longer := states + [t], labels + [e];
    forall k: nat | k < |longer| ensures TookAt(w, cfg, more, longer, k) {
      if k < |labels| {
        assert TookAt(w, cfg, states, labels, k);
      }
    }
  }

  // ----- nothing tracked is lost -----

  /** The records that one step releases. */
  ghost function ReleasedBy(w: World, cfg: Config, s: State, e: Label): set<nat>
    requires ValidWorld(w) && Enabled(w, cfg, s, e)
  {
    match e
    case ReleaseFirst => ToRelease(w.tree, s.removed, s.phase.pass.confirmed, s.phase.pass.first)
    case Finish => ToRelease(w.tree, s.removed, s.phase.pass.confirmed, s.phase.pass.last)
    case _ => {}
  }

  lemma ApplyLosesNothing(w: World, cfg: Config, s: State, e: Label)
    requires ValidWorld(w) && Inv(w, cfg, s) && Enabled(w, cfg, s, e) && e.ApplyNext?
    ensures s.Tracked() <= Next(w, cfg, s, e).Tracked()
  {
    AfterActionShrinks(s.games, s.phase.actions[s.phase.done]);
  }

  lemma DiscoverLosesNothing(w: World, cfg: Config, s: State, e: Label)
    requires ValidWorld(w) && Inv(w, cfg, s) && Enabled(w, cfg, s, e) && e.Discover?
    ensures s.Tracked() <= Next(w, cfg, s, e).Tracked()
    ensures var snap := w.at[s.phase.pass.confirmed.hash];
            forall i :: e.d.floor <= i < |snap.games| && Classify(w, cfg, snap, i).ValidGame? ==>
                          i in Next(w, cfg, s, e).Tracked()
  {
    var p := s.phase.pass;
    CommitKeepsEntered(w, cfg, p.Block(), s.games, s.removed, s.cursor, e.d, |w.at[p.confirmed.hash].games| - 1);
  }

  lemma StepLosesNothing(w: World, cfg: Config, s: State, e: Label)
    requires ValidWorld(w) && Inv(w, cfg, s) && Enabled(w, cfg, s, e)
    ensures s.Tracked() <= Next(w, cfg, s, e).Tracked() + ReleasedBy(w, cfg, s, e)
  {
    if e.ApplyNext? {
      ApplyLosesNothing(w, cfg, s, e);
    } else if e.Discover? {
      DiscoverLosesNothing(w, cfg, s, e);
    }
  }

  /** Step `m` dropped the record of `i`, whose block is below the confirmed and the finalized head. */
  ghost predicate FinalAt(w: World, cfg: Config, states: seq<State>, labels: seq<Label>, m: nat, i: nat)
    requires IsRun(w, cfg, states, labels) && m < |labels|
  {
    && (labels[m].ReleaseFirst? || labels[m].Finish?)
    && !states[m].phase.Idle? && RealPass(w, cfg, states[m].phase.pass)
    && var p := states[m].phase.pass;
       var finality := if labels[m].Finish? then p.last else p.first;
       && i in states[m].removed && finality.Some?
       && OnChainOf(w.tree, p.confirmed.hash, states[m].removed[i])
       && OnChainOf(w.tree, finality.value.hash, states[m].removed[i])
  }

  /** The records a step releases are exactly those whose block is final on both heads. */
  lemma ReleasedIffFinal(w: World, cfg: Config, states: seq<State>, labels: seq<Label>, m: nat, i: nat)
    requires IsRun(w, cfg, states, labels) && m < |labels|
    ensures Took(w, cfg, states[m], labels[m], states[m + 1])
    ensures i in ReleasedBy(w, cfg, states[m], labels[m]) <==> FinalAt(w, cfg, states, labels, m, i)
  {
    assert TookAt(w, cfg, states, labels, m);
    if labels[m].ReleaseFirst? || labels[m].Finish? {
      var p := states[m].phase.pass;
      ReleasedMeansFinal(w.tree, states[m].removed, p.confirmed, if labels[m].Finish? then p.last else p.first, i);
    }
  }

  lemma RunStepLosesNothing(w: World, cfg: Config, states: seq<State>, labels: seq<Label>, k: nat, i: nat)
    requires IsRun(w, cfg, states, labels) && k < |labels| && i in states[k].Tracked()
    ensures i in states[k + 1].Tracked() || FinalAt(w, cfg, states, labels, k, i)
  {
    RunKeepsInv(w, cfg, states, labels, k);
    ReleasedIffFinal(w, cfg, states, labels, k, i);
    StepLosesNothing(w, cfg, states[k], labels[k]);
  }

  ghost predicate FinalBetween(w: World, cfg: Config, states: seq<State>, labels: seq<Label>, i: nat, j: nat, k: nat)
    requires IsRun(w, cfg, states, labels) && j <= k < |states|
  {
    exists m: nat :: j <= m < k && FinalAt(w, cfg, states, labels, m, i)
  }

  /** No tracked game is lost: it stays cached or recorded until its removal is final on both heads. */
  lemma {:induction false} NoTrackedGameIsLost(
    w: World, cfg: Config, states: seq<State>, labels: seq<Label>, i: nat, j: nat, k: nat)
    requires IsRun(w, cfg, states, labels) && j <= k < |states|
    requires i in states[j].Tracked()
    ensures i in states[k].Tracked() || FinalBetween(w, cfg, states, labels, i, j, k)
  {
    if j < k {
      NoTrackedGameIsLost(w, cfg, states, labels, i, j, k - 1);
      if FinalBetween(w, cfg, states, labels, i, j, k - 1) {
        var m: nat :| j <= m < k - 1 && FinalAt(w, cfg, states, labels, m, i);
      } else {
        RunStepLosesNothing(w, cfg, states, labels, k - 1, i);
      }
    }
  }

  /** From the first block on, an index is cached or recorded, never both. */
  lemma CachedOrRecorded(w: World, cfg: Config, states: seq<State>, labels: seq<Label>, k: nat)
    requires IsRun(w, cfg, states, labels) && k < |states| && states[k].syncBlock.Some?
    ensures states[k].games.Keys !! states[k].removed.Keys
  {
    RunKeepsInv(w, cfg, states, labels, k);
  }

  // ----- what enters and what leaves -----

  /** A game leaves the cache only with a record at the pass's own block, where it may be left out. */
  lemma GamesLeaveForAReason(w: World, cfg: Config, states: seq<State>, labels: seq<Label>, k: nat, i: nat)
    requires IsRun(w, cfg, states, labels) && k < |labels|
    requires i in states[k].games && i !in states[k + 1].games
    ensures !states[k].phase.Idle? && states[k].phase.pass.confirmed.hash in w.at
    ensures states[k + 1].removed.Keys >= {i} && states[k + 1].removed[i] == states[k].phase.pass.Block()
    ensures Excused(w, cfg, w.at[states[k].phase.pass.confirmed.hash], i)
  {
    RunKeepsInv(w, cfg, states, labels, k);
    RunKeepsInv(w, cfg, states, labels, k + 1);
    assert TookAt(w, cfg, states, labels, k);
    LeaversAreRecorded(w, cfg, states[k], labels[k], i);
  }

  /** The index left with this step, and the step's own pass recorded it. */
  ghost predicate LeftRecorded(p: Pass, t: State, i: nat) {
    t.syncBlock == Some(p.Block()) && i in t.removed && t.removed[i] == p.Block()
  }

  lemma ApplyRecordsLeavers(w: World, cfg: Config, s: State, e: Label, i: nat)
    requires ValidWorld(w) && Inv(w, cfg, s) && Enabled(w, cfg, s, e) && e.ApplyNext?
    requires i in s.games && i !in Next(w, cfg, s, e).games
    ensures LeftRecorded(s.phase.pass, Next(w, cfg, s, e), i)
  {
    AfterActionShrinks(s.games, s.phase.actions[s.phase.done]);
  }

  lemma CommitRecordsLeavers(games: Cache, removed: Removals, d: Discovery, b: BlockNumHash, i: nat)
    requires AllNew(games, d.fetched) && i in games
    ensures var loaded := WithFetched(games, d.fetched);
            var gone := AllSubtrees(loaded, d.invalid);
            var records := Retire(removed - (loaded.Keys - games.Keys), gone, b);
            i !in loaded - gone ==> i in records && records[i] == b
  {
    WithFetchedCommits(games, d.fetched);
  }

  lemma DiscoverRecordsLeavers(w: World, cfg: Config, s: State, e: Label, i: nat)
    requires ValidWorld(w) && Inv(w, cfg, s) && Enabled(w, cfg, s, e) && e.Discover?
    requires i in s.games && i !in Next(w, cfg, s, e).games
    ensures LeftRecorded(s.phase.pass, Next(w, cfg, s, e), i)
  {
    CommitRecordsLeavers(s.games, s.removed, e.d, s.phase.pass.Block(), i);
  }

  lemma LeaversAreRecorded(w: World, cfg: Config, s: State, e: Label, i: nat)
    requires ValidWorld(w) && Inv(w, cfg, s) && Enabled(w, cfg, s, e)
    requires i in s.games && i !in Next(w, cfg, s, e).games
    ensures !s.phase.Idle? && LeftRecorded(s.phase.pass, Next(w, cfg, s, e), i)
  {
    if e.ApplyNext? {
      ApplyRecordsLeavers(w, cfg, s, e, i);
    } else if e.Discover? {
      DiscoverRecordsLeavers(w, cfg, s, e, i);
    }
  }

  lemma DiscoverEntersValid(w: World, cfg: Config, s: State, e: Label, i: nat)
    requires ValidWorld(w) && Inv(w, cfg, s) && Enabled(w, cfg, s, e) && e.Discover?
    requires i !in s.games && i in Next(w, cfg, s, e).games
    ensures i < |w.at[s.phase.pass.confirmed.hash].games|
    ensures Classify(w, cfg, w.at[s.phase.pass.confirmed.hash], i) == ValidGame(Next(w, cfg, s, e).games[i])
  {
    WithFetchedCommits(s.games, e.d.fetched);
    var k :| 0 <= k < |e.d.fetched| && e.d.fetched[k].index == i;
  }

  /** A game enters the cache only as a valid game of the pinned block, by a whole committed walk or by a rebuild. */
  lemma GamesEnterValid(w: World, cfg: Config, s: State, e: Label, i: nat)
    requires ValidWorld(w) && Inv(w, cfg, s) && Enabled(w, cfg, s, e)
    requires i !in s.games && i in Next(w, cfg, s, e).games
    ensures !s.phase.Idle? && s.phase.pass.confirmed.hash in w.at
    ensures i < |w.at[s.phase.pass.confirmed.hash].games|
    ensures Classify(w, cfg, w.at[s.phase.pass.confirmed.hash], i) == ValidGame(Next(w, cfg, s, e).games[i])
    ensures e.Discover? || (e.Rebuild? && i in s.removed)
  {
    if e.ApplyNext? {
      AfterActionShrinks(s.games, s.phase.actions[s.phase.done]);
    } else if e.Discover? {
      DiscoverEntersValid(w, cfg, s, e, i);
    }
  }

  // ----- every valid game is accounted for -----

  /** Step `m` is at or after the last rebuild before `k`. */
  ghost predicate SinceRebuild(labels: seq<Label>, m: nat, k: nat)
    requires k <= |labels|
  {
    forall x :: m <= x < k ==> !labels[x].Rebuild?
  }

  /** Step `m` is a walk that was cut off above `i`, an index it would otherwise have visited. */
  ghost predicate CutOffAt(states: seq<State>, labels: seq<Label>, i: nat, m: nat)
    requires m < |labels| && m < |states|
  {
    labels[m].Discover? && labels[m].d.cut && Above(states[m].cursor) <= i < labels[m].d.floor
  }

  /** A walk since the last rebuild was cut off above `i`. */
  ghost predicate CutOff(states: seq<State>, labels: seq<Label>, i: nat, k: nat)
    requires k <= |labels| && |labels| <= |states|
  {
    exists m: nat :: m < k && CutOffAt(states, labels, i, m) && SinceRebuild(labels, m, k)
  }

  /** Since the last rebuild the removal of `i` was found final on both heads. */
  ghost predicate FinalSince(w: World, cfg: Config, states: seq<State>, labels: seq<Label>, i: nat, k: nat)
    requires IsRun(w, cfg, states, labels) && k < |states|
  {
    exists m: nat :: m < k && FinalAt(w, cfg, states, labels, m, i) && SinceRebuild(labels, m, k)
  }

  ghost predicate Accounted(w: World, cfg: Config, states: seq<State>, labels: seq<Label>, i: nat, k: nat)
    requires IsRun(w, cfg, states, labels) && k < |states|
  {
    i in states[k].Tracked() || FinalSince(w, cfg, states, labels, i, k) || CutOff(states, labels, i, k)
  }

  lemma AccountedStays(w: World, cfg: Config, states: seq<State>, labels: seq<Label>, i: nat, k: nat)
    requires IsRun(w, cfg, states, labels) && k < |labels| && !labels[k].Rebuild?
    requires Accounted(w, cfg, states, labels, i, k)
    ensures Accounted(w, cfg, states, labels, i, k + 1)
  {
    if i in states[k].Tracked() {
      RunStepLosesNothing(w, cfg, states, labels, k, i);
      assert SinceRebuild(labels, k, k + 1);
    } else if FinalSince(w, cfg, states, labels, i, k) {
      var m: nat :| m < k && FinalAt(w, cfg, states, labels, m, i) && SinceRebuild(labels, m, k);
      assert SinceRebuild(labels, m, k + 1);
    } else {
      var m: nat :| m < k && CutOffAt(states, labels, i, m) && SinceRebuild(labels, m, k);
      assert SinceRebuild(labels, m, k + 1);
    }
  }

  /** `i` is a valid game of the entered block, at or below the cursor. */
  ghost predicate Passed(w: World, cfg: Config, s: State, i: nat) {
    && s.syncBlock.Some? && s.syncBlock.value.hash in w.at
    && i < Above(s.cursor) && i < |w.at[s.syncBlock.value.hash].games|
    && Classify(w, cfg, w.at[s.syncBlock.value.hash], i).ValidGame?
  }

  /** Only a walk moves the cursor past an index. */
  lemma PassedBefore(w: World, cfg: Config, s: State, e: Label, i: nat)
    requires ValidWorld(w) && Inv(w, cfg, s) && Enabled(w, cfg, s, e)
    requires Passed(w, cfg, Next(w, cfg, s, e), i) && !e.Discover?
    ensures Passed(w, cfg, s, i)
  {
    if e.Extend? {
      var b := s.syncBlock.value;
      ExtendsEveryAncestor(w, s.phase.pass.confirmed.hash, b.number);
      assert w.at[b.hash].games[i].facts == w.at[s.phase.pass.confirmed.hash].games[i].facts;
    }
  }

  lemma WalkAccounts(w: World, cfg: Config, s: State, e: Label, i: nat)
    requires ValidWorld(w) && Inv(w, cfg, s) && Enabled(w, cfg, s, e) && e.Discover?
    requires Passed(w, cfg, Next(w, cfg, s, e), i)
    ensures || i in Next(w, cfg, s, e).Tracked()
            || (e.d.cut && Above(s.cursor) <= i < e.d.floor)
            || Passed(w, cfg, s, i)
  {
    DiscoverLosesNothing(w, cfg, s, e);
  }

  /**
   Discovery loses nothing. In every run a valid game at or below the cursor is cached or recorded, or
   since the last rebuild its removal was final or a walk was cut off above it.
   */
  lemma {:induction false} ValidGamesAreAccounted(
    w: World, cfg: Config, states: seq<State>, labels: seq<Label>, i: nat, k: nat)
    requires IsRun(w, cfg, states, labels) && k < |states| && Passed(w, cfg, states[k], i)
    ensures Accounted(w, cfg, states, labels, i, k)
  {
    if k > 0 {
      var s, e := states[k - 1], labels[k - 1];
      RunKeepsInv(w, cfg, states, labels, k - 1);
      assert TookAt(w, cfg, states, labels, k - 1);
      if e.Discover? {
        WalkAccounts(w, cfg, s, e, i);
        assert CutOffAt(states, labels, i, k - 1) ==> CutOff(states, labels, i, k) by {
          assert SinceRebuild(labels, k - 1, k);
        }
      } else {
        PassedBefore(w, cfg, s, e, i);
      }
      if Passed(w, cfg, s, i) {
        ValidGamesAreAccounted(w, cfg, states, labels, i, k - 1);
        AccountedStays(w, cfg, states, labels, i, k - 1);
      }
    }
  }

  // ----- the incremental cache refines a full re-read -----

  /** `g` is what reading index `i` afresh at `block` gives, with the action flags that block calls for. */
  ghost predicate EqualsReread(w: World, cfg: Config, block: Hash, i: nat, g: Game)
    requires block in w.at && block in w.tree
  {
    var snap := w.at[block];
    && i < |snap.games|
    && Classify(w, cfg, snap, i) == ValidGame(g.(flags := NO_FLAGS))
    && g.flags == FlagsAt(cfg, snap, w.tree[block].timestamp, i)
    && snap.games[i].live.status != ChallengerWins
  }

  lemma FreshEqualsReread(w: World, cfg: Config, block: Hash, i: nat, g: Game)
    requires block in w.at && block in w.tree
    requires Fresh(cfg, w.at[block], w.tree[block].timestamp, i, g) && Admitted(w, cfg, w.at[block], i, g)
    ensures EqualsReread(w, cfg, block, i, g)
  {
  }

  /** After a call that returned Ok the confirmed block of that very call is the synced one, completely. */
  lemma SuccessEntersConfirmed(w: World, cfg: Config, states: seq<State>, labels: seq<Label>, k: nat)
    requires IsRun(w, cfg, states, labels) && k < |labels| && IsSuccess(labels[k])
    ensures !states[k].phase.Idle? && RealPass(w, cfg, states[k].phase.pass)
    ensures var p, t := states[k].phase.pass, states[k + 1];
            && t.syncBlock == Some(p.Block()) && t.complete
            && Inv(w, cfg, t) && Agrees(w, cfg, t, p.Block())
  {
    RunKeepsInv(w, cfg, states, labels, k);
    RunKeepsInv(w, cfg, states, labels, k + 1);
    assert TookAt(w, cfg, states, labels, k);
  }

  /**
   The incremental cache refines a full re-read. After every call that returns Ok, at whatever point of
   whatever run, each cached entry is what reading its index afresh at the confirmed block gives.
   */
  lemma SyncedCacheEqualsReread(w: World, cfg: Config, states: seq<State>, labels: seq<Label>, k: nat, i: nat)
    requires IsRun(w, cfg, states, labels) && k < |labels| && IsSuccess(labels[k])
    ensures !states[k].phase.Idle? && RealPass(w, cfg, states[k].phase.pass)
    ensures var p, t := states[k].phase.pass, states[k + 1];
            && t.syncBlock == Some(p.Block())
            && (i in t.games ==> EqualsReread(w, cfg, p.confirmed.hash, i, t.games[i]))
  {
    SuccessEntersConfirmed(w, cfg, states, labels, k);
    var p, t := states[k].phase.pass, states[k + 1];
    if i in t.games {
      FreshEqualsReread(w, cfg, p.confirmed.hash, i, t.games[i]);
    }
  }

  /** `i` is recorded, with a block of the confirmed chain at which it could be left out. */
  ghost predicate ExcusedBelow(w: World, cfg: Config, confirmed: Header, removed: Removals, i: nat)
    requires ValidWorld(w) && InTree(w.tree, confirmed)
  {
    && i in removed
    && OnChainOf(w.tree, confirmed.hash, removed[i]) && Excused(w, cfg, w.at[removed[i].hash], i)
  }

  /**
   And nothing is missing. After every call that returns Ok, each valid game of the confirmed block is
   cached, or recorded with a reason that held at a block of that chain, or since the last rebuild was
   released as final or left below an anchor cut-off.
   */
  lemma SyncedCacheIsComplete(w: World, cfg: Config, states: seq<State>, labels: seq<Label>, k: nat, i: nat)
    requires IsRun(w, cfg, states, labels) && k < |labels| && IsSuccess(labels[k])
    ensures !states[k].phase.Idle? && RealPass(w, cfg, states[k].phase.pass)
    ensures var p, t := states[k].phase.pass, states[k + 1];
            var snap := w.at[p.confirmed.hash];
            i < |snap.games| && Classify(w, cfg, snap, i).ValidGame? ==>
              || i in t.games
              || ExcusedBelow(w, cfg, p.confirmed, t.removed, i)
              || FinalSince(w, cfg, states, labels, i, k + 1)
              || CutOff(states, labels, i, k + 1)
  {
    SuccessEntersConfirmed(w, cfg, states, labels, k);
    var p, t := states[k].phase.pass, states[k + 1];
    var snap := w.at[p.confirmed.hash];
    if i < |snap.games| && Classify(w, cfg, snap, i).ValidGame? {
      assert Passed(w, cfg, t, i);
      ValidGamesAreAccounted(w, cfg, states, labels, i, k + 1);
    }
  }

  /** Even after a call that failed midway, cached facts are those of the last entered block. */
  lemma BrokenPassKeepsFacts(w: World, cfg: Config, states: seq<State>, labels: seq<Label>, k: nat, i: nat)
    requires IsRun(w, cfg, states, labels) && k < |states|
    requires states[k].syncBlock.Some? && i in states[k].games
    ensures IsBlock(w, states[k].syncBlock.value)
    ensures Admitted(w, cfg, w.at[states[k].syncBlock.value.hash], i, states[k].games[i])
  {
    RunKeepsInv(w, cfg, states, labels, k);
  }

  /** Within a run the future-game prune finds nothing, and the cursor is never above the factory. */
  lemma PrunedGamesCannotHappen(w: World, cfg: Config, states: seq<State>, labels: seq<Label>, k: nat)
    requires IsRun(w, cfg, states, labels) && k < |states|
    requires states[k].phase.Pinned? || states[k].phase.Pruned?
    ensures states[k].phase.pass.confirmed.hash in w.at
    ensures var count := |w.at[states[k].phase.pass.confirmed.hash].games|;
            FutureGames(states[k].games, count) == {} && WalkFloor(states[k].cursor, count) == Above(states[k].cursor)
  {
    RunKeepsInv(w, cfg, states, labels, k);
    var count := |w.at[states[k].phase.pass.confirmed.hash].games|;
    forall i | i in states[k].games ensures i < count {
      assert Admitted(w, cfg, w.at[states[k].phase.pass.confirmed.hash], i, states[k].games[i]);
    }
  }

  // ----- the canonical head -----

  /** The factory only lets a game build on a game at a lower L2 block. */
  ghost predicate ChainAscending(snap: Snapshot) {
    forall i :: 0 <= i < |snap.games| && snap.games[i].facts.parentIndex < |snap.games| ==>
                  snap.games[snap.games[i].facts.parentIndex].facts.l2Block < snap.games[i].facts.l2Block
  }

  lemma AdmittedIsAscending(w: World, cfg: Config, snap: Snapshot, games: Cache)
    requires AllAdmitted(w, cfg, snap, games) && ChainAscending(snap)
    ensures Ascending(games)
  {
    forall c | c in games && games[c].parentIndex in games
      ensures games[games[c].parentIndex].l2Block < games[c].l2Block
    {
      var p := games[c].parentIndex;
      assert Admitted(w, cfg, snap, c, games[c]) && Admitted(w, cfg, snap, p, games[p]);
    }
  }

  /** After every call that returns Ok the head is a tip, and where it must be relative to the anchor. */
  lemma SyncedHeadIsTip(w: World, cfg: Config, states: seq<State>, labels: seq<Label>, k: nat)
    requires IsRun(w, cfg, states, labels) && k < |labels| && IsSuccess(labels[k])
    requires !states[k].phase.Idle? && states[k].phase.pass.confirmed.hash in w.at
    requires ChainAscending(w.at[states[k].phase.pass.confirmed.hash])
    ensures var t := states[k + 1];
            && (t.headIndex.None? <==> t.games == map[])
            && (t.headIndex.Some? ==>
                  && t.headIndex.value in t.games && IsTip(t.games, t.headIndex.value)
                  && t.headL2Block == Some(t.games[t.headIndex.value].l2Block))
    ensures var t := states[k + 1];
            t.headIndex.Some? && t.anchor.Some? ==>
              && t.anchor.value.index in t.games && t.headIndex.value in t.games
              && PlacedByAnchor(t.games, t.anchor.value.index, t.headIndex.value)
  {
    SuccessEntersConfirmed(w, cfg, states, labels, k);
    var t := states[k + 1];
    AdmittedIsAscending(w, cfg, w.at[states[k].phase.pass.confirmed.hash], t.games);
    CanonicalHeadIsTip(t.games, AnchorIndex(t.anchor), t.headIndex);
  }

  // ----- the creation guard -----

  /** Step `k` cleared a guard that was set. */
  ghost predicate IsReset(states: seq<State>, k: nat)
    requires k + 1 < |states|
  {
    states[k].guard != NO_GUARD && states[k + 1].guard == NO_GUARD
  }

  /** The factory lacks the guarded game at a tip no older than the last sighting. */
  ghost predicate GuardedIsMissing(w: World, cfg: Config, s: State, e: Label) {
    && e.Reconcile? && s.phase.Selected? && s.phase.pass.tip.hash in w.at
    && MayOverrule(s.guard, s.phase.pass.tip)
    && forall at :: !HoldsProposal(cfg, w.at[s.phase.pass.tip.hash], s.guard.observation.value.id, at)
  }

  /** The guarded game is cached at or below a game that lost at the pinned block. */
  ghost predicate GuardedIsUnderLost(w: World, s: State, e: Label) {
    && e.ApplyNext? && s.phase.Applying? && s.phase.done < |s.phase.actions| && s.phase.pass.confirmed.hash in w.at
    && var action := s.phase.actions[s.phase.done];
       && action.RemoveSubtree? && IsLost(w.at[s.phase.pass.confirmed.hash], action.index)
       && exists i :: i in Descendants(s.games, action.index) && Guards(s.guard, s.games, i)
  }

  lemma ClearedWithSubtree(g: CreationGuard, games: Cache, root: nat)
    ensures Cleared(g, games, Descendants(games, root) * games.Keys) ==
            if exists i :: i in Descendants(games, root) && Guards(g, games, i) then NO_GUARD else g
  {
    if i :| i in Descendants(games, root) && Guards(g, games, i) {
      assert i in Descendants(games, root) * games.Keys;
    }
  }

  lemma ResetInApply(w: World, cfg: Config, s: State, e: Label)
    requires ValidWorld(w) && Inv(w, cfg, s) && Enabled(w, cfg, s, e) && e.ApplyNext?
    ensures Next(w, cfg, s, e).guard == if GuardedIsUnderLost(w, s, e) then NO_GUARD else s.guard
  {
    var action := s.phase.actions[s.phase.done];
    assert action == Decide(cfg, w.at[s.phase.pass.confirmed.hash], s.phase.pass.confirmed.timestamp, s.headIndex, action.index);
    ClearedWithSubtree(s.guard, s.games, action.index);
  }

  /** In every run a set guard is cleared exactly when its game is missing at the tip or under a lost game. */
  lemma GuardIsResetIff(w: World, cfg: Config, states: seq<State>, labels: seq<Label>, k: nat)
    requires IsRun(w, cfg, states, labels) && k < |labels| && states[k].guard != NO_GUARD
    ensures IsReset(states, k) <==>
            GuardedIsMissing(w, cfg, states[k], labels[k]) || GuardedIsUnderLost(w, states[k], labels[k])
  {
    var s, e := states[k], labels[k];
    RunKeepsInv(w, cfg, states, labels, k);
    assert TookAt(w, cfg, states, labels, k);
    if e.ApplyNext? {
      ResetInApply(w, cfg, s, e);
    } else if e.PruneFuture? {
      PrunedGamesCannotHappen(w, cfg, states, labels, k);
    }
  }

  /** Nobody changes the guard between its capture and its reconciliation, so no other guard is overwritten. */
  lemma CapturedGuardIsCurrent(w: World, cfg: Config, states: seq<State>, labels: seq<Label>, k: nat)
    requires IsRun(w, cfg, states, labels) && k < |labels| && labels[k].Reconcile?
    ensures states[k].phase.Selected? && states[k].phase.captured == states[k].guard
  {
    RunKeepsInv(w, cfg, states, labels, k);
    assert TookAt(w, cfg, states, labels, k);
  }

  /** Without a reset the guarded L2 block never moves back. */
  lemma {:induction false} GuardNeverMovesBack(
    w: World, cfg: Config, states: seq<State>, labels: seq<Label>, j: nat, k: nat)
    requires IsRun(w, cfg, states, labels) && j <= k < |states|
    requires forall m :: j <= m < k ==> !IsReset(states, m)
    ensures states[j].guard.l2Block <= states[k].guard.l2Block
  {
    if j < k {
      GuardNeverMovesBack(w, cfg, states, labels, j, k - 1);
      RunKeepsInv(w, cfg, states, labels, k - 1);
      assert TookAt(w, cfg, states, labels, k - 1);
      assert !IsReset(states, k - 1);
      GuardStep(w, cfg, states[k - 1], labels[k - 1]);
    }
  }

  lemma GuardStep(w: World, cfg: Config, s: State, e: Label)
    requires ValidWorld(w) && Inv(w, cfg, s) && Enabled(w, cfg, s, e)
    ensures Next(w, cfg, s, e).guard == NO_GUARD || s.guard.l2Block <= Next(w, cfg, s, e).guard.l2Block
  {
  }

  /** Between resets the L2 blocks of recorded creations strictly increase, whatever syncs happen in between. */
  lemma CreatedBlocksStrictlyIncrease(
    w: World, cfg: Config, states: seq<State>, labels: seq<Label>, j: nat, k: nat)
    requires IsRun(w, cfg, states, labels)
    requires j < k < |labels| && labels[j].Record? && labels[k].Record?
    requires forall m :: j < m < k ==> !IsReset(states, m)
    ensures labels[j].created.l2Block < labels[k].created.l2Block
  {
    assert TookAt(w, cfg, states, labels, j);
    assert TookAt(w, cfg, states, labels, k);
    GuardNeverMovesBack(w, cfg, states, labels, j + 1, k);
    RunKeepsInv(w, cfg, states, labels, k);
  }
}

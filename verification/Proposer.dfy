/** The fault-proof proposer as an object; its ghost history shows that it only ever takes steps of the machine. */
module Proposers {
  import opened Prelude
  import opened L1Chain
  import opened FinalizedRemovals
  import opened GameGraph
  import opened Factory
  import opened CreationGuards
  import opened DiscoveryWalk
  import opened StatusPass
  import opened ProposerMachine
  import opened ProposerRuns

  lemma RetireMore(removed: Removals, a: set<nat>, b: set<nat>, block: BlockNumHash)
    ensures Retire(Retire(removed, a, block), b, block) == Retire(removed, a + b, block)
  {
  }

  /** Dropping one more subtree after those of `roots` is dropping them all at once. */
  lemma OneMoreSubtree(games: Cache, removed: Removals, roots: seq<nat>, root: nat, block: BlockNumHash)
    ensures var rest := games - AllSubtrees(games, roots);
            && rest - Descendants(rest, root) == games - AllSubtrees(games, roots + [root])
            && Retire(Retire(removed, AllSubtrees(games, roots), block), Descendants(rest, root) * rest.Keys, block)
               == Retire(removed, AllSubtrees(games, roots + [root]), block)
  {
    var gone := AllSubtrees(games, roots);
    var rest := games - gone;
    var here := Descendants(rest, root) * rest.Keys;
    AllSubtreesOneMore(games, roots, root);
    SubtreeAfterClosedRemoval(games, gone, root);
    assert AllSubtrees(games, roots + [root]) == gone + here;
    RetireMore(removed, gone, here, block);
  }

  lemma LoadedIsIndexed(w: World, cfg: Config, s: State, d: Discovery)
    requires ValidWorld(w) && Inv(w, cfg, s) && s.phase.Pruned? && Enabled(w, cfg, s, Discover(d))
    ensures Indexed(WithFetched(s.games, d.fetched))
  {
    var p := s.phase.pass;
    CommitKeepsEntered(w, cfg, p.Block(), s.games, s.removed, s.cursor, d, |w.at[p.confirmed.hash].games| - 1);
    AdmittedIsIndexed(w, cfg, w.at[p.confirmed.hash], WithFetched(s.games, d.fetched));
  }

  /** A step inside a `sync_state` call. */
  predicate InsidePass(e: Label) {
    !(e.Begin? || e.Check? || e.Record? || e.Abandon?)
  }

  /** `after` goes on from `before` inside the same call. */
  ghost predicate Continues(before: seq<Label>, after: seq<Label>) {
    before <= after && forall k :: |before| <= k < |after| ==> InsidePass(after[k])
  }

  /** `later` goes on from `before` with a whole call that works with `pass`. */
  ghost predicate IsCall(before: seq<Label>, pass: Pass, later: seq<Label>) {
    Continues(before + [Begin(pass)], later)
  }

  lemma OneStepOn(before: seq<Label>, middle: seq<Label>, e: Label)
    requires Continues(before, middle) && InsidePass(e)
    ensures Continues(before, middle + [e])
  {
  }

  lemma ContinuesOn(before: seq<Label>, middle: seq<Label>, after: seq<Label>)
    requires Continues(before, middle) && Continues(middle, after)
    ensures Continues(before, after)
  {
  }

  /** The confirmed header of a call: the tip itself without confirmations, else the answer by number. */
  function ConfirmedAnswer(cfg: Config, latest: Option<Header>, numbered: Option<Header>): Option<Header> {
    if latest.None? || cfg.confirmations == 0 then latest else numbered
  }

  /** Every answered header is a real block, and the lookup by number answers with that number. */
  ghost predicate RealAnswers(
    w: World, cfg: Config, latest: Option<Header>, numbered: Option<Header>, first: Option<Header>, last: Option<Header>)
  {
    && IsRealAnswer(w.tree, latest) && IsRealAnswer(w.tree, numbered)
    && IsRealAnswer(w.tree, first) && IsRealAnswer(w.tree, last)
    && (latest.Some? && numbered.Some? ==> numbered.value.number == Max(0, latest.value.number - cfg.confirmations))
  }

  class Proposer {
    const world: World
    const config: Config
    var anchor: Option<Game>
    var headIndex: Option<nat>
    var headL2Block: Option<nat>
    var cursor: Option<nat>
    var games: Cache
    var removed: Removals
    var syncBlock: Option<BlockNumHash>
    var complete: bool
    var guard: CreationGuard
    var creating: Option<nat>
    /** The environment: while it holds, every RPC read is answered. */
    var healthy: bool
    ghost var phase: Phase
    ghost var history: seq<State>
    ghost var trace: seq<Label>

    ghost function View(): State
      reads this
    {
      State(anchor, headIndex, headL2Block, cursor, games, removed, syncBlock, complete, guard, creating, phase)
    }

    /** The object is where some run of the machine ends. */
    ghost predicate Valid()
      reads this
    {
      && IsRun(world, config, history, trace) && history[|trace|] == View()
      && (!phase.Idle? ==> RealPass(world, config, phase.pass))
    }

    /** The last pass is complete, and it was at exactly this block. */
    predicate IsSyncedAt(confirmed: Header)
      reads this
    {
      complete && syncBlock == Some(BlockNumHash(confirmed.number, confirmed.hash))
    }

    /** Whatever holds in every state of every run holds now. */
    lemma HoldsNow()
      requires Valid()
      ensures Inv(world, config, View())
    {
      RunKeepsInv(world, config, history, trace, |trace|);
    }

    /** A fresh start or any restored backup: nothing about the restored entries is trusted. */
    constructor (w: World, cfg: Config, restored: Cache, rollback: Removals, at: Option<nat>,
                 restoredAnchor: Option<Game>, restoredGuard: CreationGuard, anchorL2Block: nat)
      requires ValidWorld(w) && Indexed(restored)
      ensures Valid() && world == w && config == cfg && trace == []
      ensures View() == State(restoredAnchor, None, Some(anchorL2Block), at, restored, rollback, None, false,
                              restoredGuard, None, Idle)
    {
      world, config, healthy := w, cfg, false;
      anchor, headIndex, headL2Block, cursor := restoredAnchor, None, Some(anchorL2Block), at;
      games, removed, syncBlock, complete := restored, rollback, None, false;
      guard, creating, phase, trace := restoredGuard, None, Idle, [];
      history := [State(restoredAnchor, None, Some(anchorL2Block), at, restored, rollback, None, false,
                        restoredGuard, None, Idle)];
    }

    /** Books a step of the machine that the fields have just taken. */
    ghost method Book(before: State, e: Label)
      requires IsRun(world, config, history, trace) && history[|trace|] == before
      requires Enabled(world, config, before, e) && View() == Next(world, config, before, e)
      modifies this`history, this`trace
      ensures Valid() && trace == old(trace) + [e]
    {
      RunOneMore(world, config, history, trace, e, View());
      history := history + [View()];
      trace := trace + [e];
    }

    // ----- the cache -----

    method RemoveGame(index: nat, block: BlockNumHash)
      modifies this`games, this`removed
      ensures games == old(games) - {index}
      ensures removed == Retire(old(removed), {index} * old(games).Keys, block)
    {
      if index in games {
        games := games - {index};
        removed := removed[index := block];
      }
    }

    method RemoveGames(gone: set<nat>, block: BlockNumHash)
      modifies this`games, this`removed
      ensures games == old(games) - gone
      ensures removed == Retire(old(removed), gone * old(games).Keys, block)
    {
      var rest := gone;
      while rest != {}
        invariant rest <= gone
        invariant games == old(games) - (gone - rest)
        invariant removed == Retire(old(removed), (gone - rest) * old(games).Keys, block)
        decreases |rest|
      {
        var i :| i in rest;
        ghost var done := gone - rest;
        RetireMore(old(removed), done * old(games).Keys, {i} * games.Keys, block);
        RemoveGame(i, block);
        rest := rest - {i};
        assert gone - rest == done + {i};
        assert (gone - rest) * old(games).Keys == done * old(games).Keys + {i} * (old(games) - done).Keys;
      }
      assert gone - {} == gone;
    }

    method RemoveSubtree(root: nat, block: BlockNumHash)
      requires Indexed(games)
      modifies this`games, this`removed
      ensures games == old(games) - Descendants(old(games), root)
      ensures removed == Retire(old(removed), Descendants(old(games), root) * old(games).Keys, block)
    {
      var subtree := DescendantsOf(games, root);
      RemoveGames(subtree, block);
    }

    /** Clears the guard exactly when its game is among the cached games in `gone`. */
    method ClearGuard(gone: set<nat>)
      modifies this`guard
      ensures guard == Cleared(old(guard), games, gone)
    {
      var tracked := set i | i in gone && Guards(guard, games, i);
      if tracked != {} {
        assert exists i :: i in tracked;
        guard := NO_GUARD;
      } else {
        forall i | i in gone ensures !Guards(guard, games, i) {
          assert i !in tracked;
        }
      }
    }

    /** Moves cached games to the records, and clears a guard whose game is one of them. */
    method RetireAll(gone: set<nat>, block: BlockNumHash)
      requires gone <= games.Keys
      modifies this`games, this`removed, this`guard
      ensures games == old(games) - gone && removed == Retire(old(removed), gone, block)
      ensures guard == Cleared(old(guard), old(games), gone)
    {
      assert gone * games.Keys == gone;
      ClearGuard(gone);
      RemoveGames(gone, block);
    }

    // ----- the steps of a call -----

    method BeginPass(tip: Header, confirmed: Header, first: Option<Header>, last: Option<Header>)
      requires Valid() && phase.Idle? && RealPass(world, config, Pass(tip, confirmed, first, last))
      modifies this`phase, this`history, this`trace
      ensures Valid() && phase == Selected(Pass(tip, confirmed, first, last), guard)
      ensures trace == old(trace) + [Begin(Pass(tip, confirmed, first, last))]
    {
      ghost var before := View();
      phase := Selected(Pass(tip, confirmed, first, last), guard);
      Book(before, Begin(Pass(tip, confirmed, first, last)));
    }

    method GiveUp()
      requires Valid() && !phase.Idle?
      modifies this`phase, this`history, this`trace
      ensures Valid() && phase.Idle? && trace == old(trace) + [Fail]
    {
      ghost var before := View();
      phase := Idle;
      Book(before, Fail);
    }

    /**
     Checks the captured guard against the tip. A guard other than the captured one is never
     overwritten, and a tip older than the last sighting decides nothing.
     */
    method ReconcileGuard(captured: CreationGuard, tip: Header) returns (ok: bool, ghost answered: Address)
      requires Valid() && phase.Selected? && phase.captured == captured && phase.pass.tip == tip
      modifies this`guard, this`phase, this`history, this`trace
      ensures Valid()
      ensures if ok then phase == Compared(old(phase).pass) && trace == old(trace) + [Reconcile(answered)]
              else View() == old(View()) && trace == old(trace)
      ensures healthy ==> ok
    {
      ghost var before := View();
      var found := ZERO_ADDRESS;
      answered := found;
      if MayOverrule(captured, tip) {
        var answer := LookUpProposal(config, world.at[tip.hash], captured.observation.value.id, healthy);
        if answer.Err? {
          return false, found;
        }
        found := answer.value;
        var reconciled := Reconciled(captured, tip, found);
        if guard == captured {
          guard := reconciled;
        }
      }
      phase := Compared(phase.pass);
      Book(before, Reconcile(found));
      ok, answered := true, found;
    }

    /** Whether the cache must be rebuilt at `confirmed`, and whether that block was already synced completely. */
    method CompareWithLastSync(confirmed: Header) returns (r: Result<(bool, bool)>)
      requires Valid() && InTree(world.tree, confirmed)
      ensures r.Ok? ==>
                && (r.value.0 <==> MustRebuild(world, syncBlock, confirmed))
                && (r.value.1 <==> complete && syncBlock == Some(BlockNumHash(confirmed.number, confirmed.hash)))
      ensures healthy ==> r.Ok?
    {
      if syncBlock.None? || confirmed.number < syncBlock.value.number {
        return Ok((true, false));
      }
      var walked := L1Ancestor(world.tree, confirmed, syncBlock.value.number, healthy);
      if walked.Err? {
        return Err;
      }
      var rebuild := walked.value.hash != syncBlock.value.hash;
      r := Ok((rebuild, !rebuild && confirmed.number == syncBlock.value.number && complete));
    }

    method SkipPass()
      requires Valid() && phase.Compared? && complete && syncBlock == Some(phase.pass.Block())
      modifies this`phase, this`history, this`trace
      ensures Valid() && phase.Idle? && trace == old(trace) + [Skip]
    {
      ghost var before := View();
      phase := Idle;
      Book(before, Skip);
    }

    /** `prune_finalized_removals` before a rebuild: exactly the final records go, or none and the call fails. */
    method ReleaseBeforeRebuild(confirmed: Header, finality: Option<Header>) returns (ok: bool)
      requires Valid() && phase.Compared? && phase.pass.confirmed == confirmed && phase.pass.first == finality
      requires MustRebuild(world, syncBlock, confirmed)
      modifies this`removed, this`phase, this`history, this`trace
      ensures Valid()
      ensures if ok then phase == Rebuilding(old(phase).pass) && trace == old(trace) + [ReleaseFirst]
              else View() == old(View()) && trace == old(trace)
      ensures healthy && CanRelease(world.tree, old(removed), confirmed, finality) ==> ok
    {
      ghost var before := View();
      var found := FindFinalized(world.tree, removed, confirmed, finality, healthy);
      if found.Err? {
        return false;
      }
      removed := removed - found.value;
      phase := Rebuilding(phase.pass);
      Book(before, ReleaseFirst);
      ok := true;
    }

    /** Reads each index at `confirmed`: the valid games, and a record for each index that is not one. */
    method ReadTracked(indices: set<nat>, confirmed: Header) returns (reread: Result<Cache>, absent: Removals)
      requires confirmed.hash in world.at
      ensures reread.Ok? ==>
                && reread.value == Reread(world, config, world.at[confirmed.hash], indices)
                && absent == Retire(map[], indices - reread.value.Keys, BlockNumHash(confirmed.number, confirmed.hash))
      ensures healthy ==> reread.Ok?
    {
      var snap := world.at[confirmed.hash];
      var block := BlockNumHash(confirmed.number, confirmed.hash);
      var found: Cache := map[];
      absent := map[];
      var rest := indices;
      while rest != {}
        invariant rest <= indices
        invariant forall i :: i in found <==>
                    i in indices && i !in rest && i < |snap.games| && Classify(world, config, snap, i).ValidGame?
        invariant forall i :: i in found ==> found[i] == GameFrom(snap, i)
        invariant forall i :: i in absent <==> i in indices && i !in rest && i !in found
        invariant forall i :: i in absent ==> absent[i] == block
        decreases |rest|
      {
        var i :| i in rest;
        rest := rest - {i};
        var valid := false;
        if i < |snap.games| {
          var answer := ReadGame(world, config, snap, i, healthy);
          if answer.Err? {
            return Err, absent;
          }
          valid := answer.value.ValidGame?;
        }
        if valid {
          found := found[i := GameFrom(snap, i)];
        } else {
          absent := absent[i := block];
        }
      }
      assert found == Reread(world, config, snap, indices);
      assert absent == Retire(map[], indices - found.Keys, block);
      reread := Ok(found);
    }

    method ReplaceState(reread: Cache, absent: Removals, baseline: nat, block: BlockNumHash)
      requires phase.Rebuilding?
      modifies this`games, this`removed, this`cursor, this`anchor, this`headIndex, this`headL2Block,
               this`syncBlock, this`complete, this`phase
      ensures View() == State(None, None, Some(baseline), None, reread, absent, Some(block), false, guard, creating,
                              Pinned(old(phase).pass))
    {
      games, removed, cursor, anchor := reread, absent, None, None;
      headIndex, headL2Block := None, Some(baseline);
      syncBlock, complete := Some(block), false;
      phase := Pinned(phase.pass);
    }

    /** Replaces the whole state by what was read, and makes `confirmed` the entered block. */
    method InstallRebuild(reread: Cache, absent: Removals, confirmed: Header)
      requires Valid() && phase.Rebuilding? && phase.pass.confirmed == confirmed
      requires reread == Reread(world, config, world.at[confirmed.hash], View().Tracked())
      requires absent == Retire(map[], View().Tracked() - reread.Keys, phase.pass.Block())
      modifies this`games, this`removed, this`cursor, this`anchor, this`headIndex, this`headL2Block,
               this`syncBlock, this`complete, this`phase, this`history, this`trace
      ensures Valid() && phase == Pinned(old(phase).pass) && trace == old(trace) + [Rebuild]
      ensures cursor == None && anchor == None && headIndex == None && !complete
      ensures headL2Block == Some(world.at[confirmed.hash].anchorL2Block)
    {
      ghost var before := View();
      ReplaceState(reread, absent, world.at[confirmed.hash].anchorL2Block, BlockNumHash(confirmed.number, confirmed.hash));
      assert View() == AfterRebuild(world, config, before, before.phase.pass);
      Book(before, Rebuild);
    }

    /**
     Re-reads every tracked index at `confirmed`; what the block lacks becomes a rollback record. The head starts
     over at the anchor state's L2 block.
     */
    method RebuildCache(confirmed: Header) returns (ok: bool)
      requires Valid() && phase.Rebuilding? && phase.pass.confirmed == confirmed
      modifies this`games, this`removed, this`cursor, this`anchor, this`headIndex, this`headL2Block,
               this`syncBlock, this`complete, this`phase, this`history, this`trace
      ensures Valid()
      ensures if ok then phase == Pinned(old(phase).pass) && trace == old(trace) + [Rebuild]
              else View() == old(View()) && trace == old(trace)
      ensures ok ==>
                && cursor == None && anchor == None && headIndex == None && !complete
                && headL2Block == Some(world.at[confirmed.hash].anchorL2Block)
      ensures healthy ==> ok
    {
      var answered: bool := *;
      if !(healthy || answered) {
        return false;
      }
      var reread, absent := ReadTracked(games.Keys + removed.Keys, confirmed);
      ok := reread.Ok?;
      if ok {
        InstallRebuild(reread.value, absent, confirmed);
      }
    }

    /** The last synced block is an ancestor: the cache is carried over to `confirmed`. */
    method ExtendTo(confirmed: Header)
      requires Valid() && phase.Compared? && phase.pass.confirmed == confirmed
      requires !MustRebuild(world, syncBlock, confirmed)
      requires !(complete && syncBlock == Some(phase.pass.Block()))
      modifies this`syncBlock, this`complete, this`phase, this`history, this`trace
      ensures Valid() && trace == old(trace) + [Extend] && phase == Pinned(old(phase).pass)
    {
      ghost var before := View();
      syncBlock, complete := Some(BlockNumHash(confirmed.number, confirmed.hash)), false;
      phase := Pinned(phase.pass);
      Book(before, Extend);
    }

    /** Drops cached games beyond the factory's count, and the guard and anchor with them. */
    method DropFuture(confirmed: Header)
      requires phase.Pinned? && phase.pass.confirmed == confirmed && confirmed.hash in world.at
      modifies this`games, this`removed, this`anchor, this`guard, this`cursor, this`phase
      ensures View() == AfterPrune(world, old(View()), old(phase).pass)
    {
      var count := |world.at[confirmed.hash].games|;
      var future := FutureGames(games, count);
      RetireAll(future, BlockNumHash(confirmed.number, confirmed.hash));
      if future != {} && anchor.Some? && anchor.value.index !in games {
        anchor := None;
      }
      if count == 0 {
        cursor := None;
      }
      phase := if count == 0 then Applying(phase.pass, games, [], 0) else Pruned(phase.pass);
    }

    /** Drops cached games that the pinned block does not have. */
    method PruneFutureGames(confirmed: Header) returns (ok: bool)
      requires Valid() && phase.Pinned? && phase.pass.confirmed == confirmed
      modifies this`games, this`removed, this`anchor, this`guard, this`cursor, this`phase, this`history, this`trace
      ensures Valid()
      ensures ok ==>
                && trace == old(trace) + [PruneFuture]
                && phase == if world.at[confirmed.hash].games == [] then Applying(old(phase).pass, games, [], 0)
                            else Pruned(old(phase).pass)
      ensures !ok ==> View() == old(View()) && trace == old(trace)
      ensures healthy ==> ok
    {
      ghost var before := View();
      var answered: bool := *;
      if !(healthy || answered) {
        return false;
      }
      DropFuture(confirmed);
      Book(before, PruneFuture);
      ok := true;
    }

    /** The walk at the pinned block, from the latest index down to the cursor. It only reads. */
    method WalkFactory(snap: Snapshot, latest: nat) returns (r: Result<Discovery>)
      requires latest < |snap.games|
      ensures r.Ok? ==> IsWalk(world, config, snap, games, cursor, latest, r.value)
      ensures healthy ==> r.Ok?
    {
      r := WalkBack(world, config, snap, games, cursor, latest, healthy);
    }

    /** Publishes a whole discovery at once, cursor included. */
    method Commit(fetched: seq<Game>, latest: nat)
      requires AllNew(games, fetched)
      modifies this`games, this`removed, this`cursor
      ensures games == WithFetched(old(games), fetched)
      ensures removed == old(removed) - (games.Keys - old(games).Keys)
      ensures cursor == Some(latest)
    {
      for k := 0 to |fetched|
        invariant games == WithFirst(old(games), fetched, k)
        invariant removed == old(removed) - (games.Keys - old(games).Keys)
      {
        WithFirstOneMore(old(games), fetched, k);
        removed := removed - {fetched[k].index};
        games := games[fetched[k].index := fetched[k]];
      }
      cursor := Some(latest);
    }

    /** Drops the subtrees of games that turned out invalid. */
    method RemoveInvalid(invalid: seq<nat>, block: BlockNumHash)
      requires Indexed(games)
      modifies this`games, this`removed
      ensures games == old(games) - AllSubtrees(old(games), invalid)
      ensures removed == Retire(old(removed), AllSubtrees(old(games), invalid), block)
    {
      for k := 0 to |invalid|
        invariant games == old(games) - AllSubtrees(old(games), invalid[..k])
        invariant removed == Retire(old(removed), AllSubtrees(old(games), invalid[..k]), block)
      {
        OneMoreSubtree(old(games), old(removed), invalid[..k], invalid[k], block);
        assert invalid[..k + 1] == invalid[..k] + [invalid[k]];
        RemoveSubtree(invalid[k], block);
      }
      assert invalid[..|invalid|] == invalid;
    }

    method CommitWalk(walk: Discovery, latest: nat, block: BlockNumHash)
      requires phase.Pruned? && phase.pass.Block() == block
      requires AllNew(games, walk.fetched) && Indexed(WithFetched(games, walk.fetched))
      modifies this`games, this`removed, this`cursor, this`phase
      ensures View() == AfterDiscovery(old(View()), old(phase).pass, walk, latest)
    {
      Commit(walk.fetched, latest);
      RemoveInvalid(walk.invalid, block);
      phase := Discovered(phase.pass);
    }

    lemma NewGamesAreIndexed(walk: Discovery)
      requires Valid() && phase.Pruned? && Enabled(world, config, View(), Discover(walk))
      ensures Indexed(WithFetched(games, walk.fetched))
    {
      HoldsNow();
      LoadedIsIndexed(world, config, View(), walk);
    }

    /** Commits a finished walk. */
    method AcceptWalk(walk: Discovery, confirmed: Header)
      requires Valid() && phase.Pruned? && phase.pass.confirmed == confirmed && world.at[confirmed.hash].games != []
      requires IsWalk(world, config, world.at[confirmed.hash], games, cursor, |world.at[confirmed.hash].games| - 1, walk)
      modifies this`games, this`removed, this`cursor, this`phase, this`history, this`trace
      ensures Valid() && phase == Discovered(old(phase).pass) && trace == old(trace) + [Discover(walk)]
    {
      ghost var before := View();
      var latest := |world.at[confirmed.hash].games| - 1;
      NewGamesAreIndexed(walk);
      CommitWalk(walk, latest, BlockNumHash(confirmed.number, confirmed.hash));
      Book(before, Discover(walk));
    }

    /** Discovery, its commit, and the removal of what sits on invalid games; nothing changes if a read fails. */
    method LoadNewGames(confirmed: Header) returns (ok: bool, walk: Discovery)
      requires Valid() && phase.Pruned? && phase.pass.confirmed == confirmed && world.at[confirmed.hash].games != []
      modifies this`games, this`removed, this`cursor, this`phase, this`history, this`trace
      ensures Valid()
      ensures if ok then phase == Discovered(old(phase).pass) && trace == old(trace) + [Discover(walk)]
              else View() == old(View()) && trace == old(trace)
      ensures healthy ==> ok
    {
      walk := Discovery([], [], 0, false);
      var answered: bool := *;
      if !(healthy || answered) {
        return false, walk;
      }
      var snap := world.at[confirmed.hash];
      var found := WalkFactory(snap, |snap.games| - 1);
      ok := found.Ok?;
      if ok {
        walk := found.value;
        AcceptWalk(walk, confirmed);
      }
    }

    /** Reads the status of every cached game, in any order; one failed read abandons the call. */
    method ReadStatuses(snap: Snapshot, now: nat) returns (r: Result<seq<SyncAction>>)
      requires AllAdmitted(world, config, snap, games)
      ensures r.Ok? ==> ActionsFor(config, snap, now, headIndex, games, r.value)
      ensures healthy ==> r.Ok?
    {
      var order: seq<nat> := Enumerate(games.Keys);
      var actions: seq<SyncAction> := [];
      for k := 0 to |order|
        invariant |actions| == k
        invariant forall j :: 0 <= j < k ==>
                    && actions[j].index == order[j] && order[j] in games && order[j] < |snap.games|
                    && actions[j] == Decide(config, snap, now, headIndex, order[j])
      {
        assert order[k] in games.Keys;
        assert Admitted(world, config, snap, order[k], games[order[k]]);
        var answered: bool := *;
        if !(healthy || answered) {
          return Err;
        }
        actions := actions + [Decide(config, snap, now, headIndex, order[k])];
      }
      forall i | i in games ensures exists k :: 0 <= k < |actions| && actions[k].index == i {
        assert i in order;
        var k :| 0 <= k < |order| && order[k] == i;
        assert actions[k].index == i;
      }
      r := Ok(actions);
    }

    /** One action; a guard whose game sits in a dropped subtree is cleared first. */
    method TakeAction(action: SyncAction, block: BlockNumHash)
      requires phase.Applying? && phase.done < |phase.actions|
      requires phase.actions[phase.done] == action && phase.pass.Block() == block
      requires Indexed(games)
      modifies this`games, this`removed, this`guard, this`phase
      ensures View() == AfterApply(old(View()), old(phase).pass)
    {
      match action {
        case Update(_, _, _, _, _) =>
          games := Updated(games, action);
        case Remove(index) =>
          RemoveGame(index, block);
        case RemoveSubtree(index) =>
          var subtree := DescendantsOf(games, index);
          assert games - Descendants(games, index) == games - subtree * games.Keys;
          RetireAll(subtree * games.Keys, block);
      }
      phase := phase.(done := phase.done + 1);
    }

    method ApplyAction(action: SyncAction, block: BlockNumHash)
      requires Valid() && phase.Applying? && phase.done < |phase.actions|
      requires phase.actions[phase.done] == action && phase.pass.Block() == block
      modifies this`games, this`removed, this`guard, this`phase, this`history, this`trace
      ensures Valid() && trace == old(trace) + [ApplyNext] && phase == old(phase).(done := old(phase).done + 1)
    {
      ghost var before := View();
      assert Indexed(games) by {
        HoldsNow();
      }
      TakeAction(action, block);
      Book(before, ApplyNext);
    }

    /** Reads every status before anything is changed. */
    method DecideStatuses(confirmed: Header) returns (r: Result<seq<SyncAction>>)
      requires Valid() && phase.Discovered? && phase.pass.confirmed == confirmed
      modifies this`phase, this`history, this`trace
      ensures Valid()
      ensures if r.Ok? then
                phase == Applying(old(phase).pass, games, r.value, 0) && trace == old(trace) + [DecideAll(r.value)]
              else
                View() == old(View()) && trace == old(trace)
      ensures healthy ==> r.Ok?
    {
      ghost var before := View();
      assert AllAdmitted(world, config, world.at[confirmed.hash], games) by {
        HoldsNow();
      }
      r := ReadStatuses(world.at[confirmed.hash], confirmed.timestamp);
      if r.Ok? {
        phase := Applying(phase.pass, games, r.value, 0);
        Book(before, DecideAll(r.value));
      }
    }

    /** The status pass: reads everything first, then applies every action. */
    method RefreshStatuses(confirmed: Header) returns (ok: bool)
      requires Valid() && phase.Discovered? && phase.pass.confirmed == confirmed
      modifies this`games, this`removed, this`guard, this`phase, this`history, this`trace
      ensures Valid() && Continues(old(trace), trace)
      ensures ok ==> phase.Applying? && phase.pass == old(phase).pass && phase.done == |phase.actions|
      ensures !ok ==> View() == old(View()) && trace == old(trace)
      ensures healthy ==> ok
    {
      ghost var pass := phase.pass;
      var answer := DecideStatuses(confirmed);
      if answer.Err? {
        return false;
      }
      var actions := answer.value;
      OneStepOn(old(trace), old(trace), DecideAll(actions));
      for k := 0 to |actions|
        invariant Valid() && Continues(old(trace), trace)
        invariant phase.Applying? && phase.pass == pass && phase.actions == actions && phase.done == k
      {
        OneStepOn(old(trace), trace, ApplyNext);
        ApplyAction(actions[k], BlockNumHash(confirmed.number, confirmed.hash));
      }
      ok := true;
    }

    /** Points the anchor at the cached game with the registry's address, or clears it. */
    method SyncAnchorGame(confirmed: Header) returns (ok: bool)
      requires Valid() && phase.Applying? && phase.done == |phase.actions| && phase.pass.confirmed == confirmed
      modifies this`anchor, this`phase, this`history, this`trace
      ensures Valid()
      ensures if ok then phase == Aligned(old(phase).pass) && trace == old(trace) + [Align(anchor)]
              else View() == old(View()) && trace == old(trace)
      ensures healthy ==> ok
    {
      ghost var before := View();
      var answered: bool := *;
      if !(healthy || answered) {
        return false;
      }
      assert Indexed(games) by {
        HoldsNow();
      }
      anchor := FindAnchor(world.at[confirmed.hash]);
      phase := Aligned(phase.pass);
      Book(before, Align(anchor));
      ok := true;
    }

    method FindAnchor(snap: Snapshot) returns (found: Option<Game>)
      requires Indexed(games)
      ensures AnchorAligned(snap, games, found)
    {
      var matching := set i | i in games && games[i].address == snap.anchorGame;
      if snap.anchorGame == ZERO_ADDRESS || matching == {} {
        forall i | i in games && matching == {} ensures games[i].address != snap.anchorGame {
          assert i !in matching;
        }
        found := None;
      } else {
        var i :| i in matching;
        found := Some(games[i]);
      }
    }

    /** `select_canonical_head` on the cache; its L2 block is kept as the baseline when no game is cached. */
    method StoreHead()
      requires Indexed(games) && phase.Aligned?
      modifies this`headIndex, this`headL2Block, this`phase
      ensures IsCanonicalHead(games, AnchorIndex(anchor), headIndex) && (headIndex.Some? ==> headIndex.value in games)
      ensures headL2Block == if headIndex.Some? then Some(games[headIndex.value].l2Block) else old(headL2Block)
      ensures phase == Headed(old(phase).pass)
    {
      headIndex := SelectCanonicalHead(games, AnchorIndex(anchor));
      CanonicalHeadIsCached(games, AnchorIndex(anchor), headIndex);
      if headIndex.Some? {
        headL2Block := Some(games[headIndex.value].l2Block);
      }
      phase := Headed(phase.pass);
    }

    method ComputeCanonicalHead()
      requires Valid() && phase.Aligned?
      modifies this`headIndex, this`headL2Block, this`phase, this`history, this`trace
      ensures Valid() && trace == old(trace) + [SelectHead(headIndex)] && phase == Headed(old(phase).pass)
    {
      ghost var before := View();
      assert Indexed(games) by {
        HoldsNow();
      }
      StoreHead();
      Book(before, SelectHead(headIndex));
    }

    /** The last release and the note that the block is done; or the call fails and keeps every record. */
    method FinishPass(confirmed: Header, finality: Option<Header>) returns (ok: bool)
      requires Valid() && phase.Headed? && phase.pass.confirmed == confirmed && phase.pass.last == finality
      modifies this`removed, this`complete, this`phase, this`history, this`trace
      ensures Valid()
      ensures if ok then phase.Idle? && trace == old(trace) + [Finish] && IsSyncedAt(confirmed)
              else View() == old(View()) && trace == old(trace)
      ensures healthy && CanRelease(world.tree, old(removed), confirmed, finality) ==> ok
    {
      ghost var before := View();
      var found := FindFinalized(world.tree, removed, confirmed, finality, healthy);
      if found.Err? {
        return false;
      }
      assert syncBlock == Some(phase.pass.Block()) by {
        HoldsNow();
      }
      removed, complete, phase := removed - found.value, true, Idle;
      Book(before, Finish);
      ok := true;
    }

    // ----- the call -----

    /** Makes `confirmed` the synced block, rebuilding first if the old one is not below it. */
    method EnterBlock(confirmed: Header, first: Option<Header>, rebuild: bool) returns (ok: bool)
      requires Valid() && phase.Compared? && phase.pass.confirmed == confirmed && phase.pass.first == first
      requires rebuild <==> MustRebuild(world, syncBlock, confirmed)
      requires !(complete && syncBlock == Some(phase.pass.Block()))
      modifies this`games, this`removed, this`cursor, this`anchor, this`headIndex, this`headL2Block,
               this`syncBlock, this`complete, this`phase, this`history, this`trace
      ensures Valid() && Continues(old(trace), trace) && !phase.Idle? && phase.pass == old(phase).pass
      ensures ok ==> phase.Pinned?
      ensures healthy && first.Some? && SameChain(world.tree, confirmed, first.value) ==> ok
    {
      ok := true;
      if rebuild {
        OneStepOn(trace, trace, ReleaseFirst);
        ok := ReleaseBeforeRebuild(confirmed, first);
        if ok {
          OneStepOn(old(trace), trace, Rebuild);
          ok := RebuildCache(confirmed);
        }
      } else {
        OneStepOn(trace, trace, Extend);
        ExtendTo(confirmed);
      }
    }

    /** `sync_games` at the entered block. */
    method SyncGames(confirmed: Header) returns (ok: bool)
      requires Valid() && phase.Pinned? && phase.pass.confirmed == confirmed
      modifies this`games, this`removed, this`anchor, this`guard, this`cursor, this`phase, this`history, this`trace
      ensures Valid() && Continues(old(trace), trace) && !phase.Idle? && phase.pass == old(phase).pass
      ensures ok ==> phase.Applying? && phase.done == |phase.actions|
      ensures healthy ==> ok
    {
      OneStepOn(trace, trace, PruneFuture);
      ok := PruneFutureGames(confirmed);
      if ok && world.at[confirmed.hash].games != [] {
        ghost var pruned := trace;
        var walk;
        ok, walk := LoadNewGames(confirmed);
        if ok {
          OneStepOn(old(trace), pruned, Discover(walk));
          ghost var loaded := trace;
          ok := RefreshStatuses(confirmed);
          ContinuesOn(old(trace), loaded, trace);
        }
      }
    }

    /** The pass proper, once the block has been entered. */
    method RunPass(confirmed: Header, last: Option<Header>) returns (ok: bool)
      requires Valid() && phase.Pinned? && phase.pass.confirmed == confirmed && phase.pass.last == last
      modifies this`games, this`removed, this`anchor, this`guard, this`cursor, this`headIndex, this`headL2Block,
               this`complete, this`phase, this`history, this`trace
      ensures Valid() && Continues(old(trace), trace)
      ensures if ok then phase.Idle? && IsSyncedAt(confirmed) && old(trace) < trace && trace[|trace| - 1] == Finish
              else !phase.Idle?
      ensures healthy && last.Some? && SameChain(world.tree, confirmed, last.value) ==> ok
    {
      ok := SyncGames(confirmed);
      if ok {
        ghost var synced := trace;
        ok := AlignAndFinish(confirmed, last);
        ContinuesOn(old(trace), synced, trace);
      }
    }

    /** Anchor, head and the last release. */
    method AlignAndFinish(confirmed: Header, last: Option<Header>) returns (ok: bool)
      requires Valid() && phase.Applying? && phase.done == |phase.actions|
      requires phase.pass.confirmed == confirmed && phase.pass.last == last
      modifies this`removed, this`anchor, this`headIndex, this`headL2Block, this`complete, this`phase, this`history, this`trace
      ensures Valid() && Continues(old(trace), trace)
      ensures if ok then phase.Idle? && IsSyncedAt(confirmed) && old(trace) < trace && trace[|trace| - 1] == Finish
              else !phase.Idle?
      ensures healthy && last.Some? && SameChain(world.tree, confirmed, last.value) ==> ok
    {
      ok := SyncAnchorGame(confirmed);
      if ok {
        OneStepOn(old(trace), old(trace), Align(anchor));
        ghost var aligned := trace;
        ok := HeadAndFinish(confirmed, last);
        ContinuesOn(old(trace), aligned, trace);
      }
    }

    method HeadAndFinish(confirmed: Header, last: Option<Header>) returns (ok: bool)
      requires Valid() && phase.Aligned? && phase.pass.confirmed == confirmed && phase.pass.last == last
      modifies this`removed, this`headIndex, this`headL2Block, this`complete, this`phase, this`history, this`trace
      ensures Valid() && Continues(old(trace), trace)
      ensures if ok then phase.Idle? && IsSyncedAt(confirmed) && old(trace) < trace && trace[|trace| - 1] == Finish
              else !phase.Idle?
      ensures healthy && last.Some? && SameChain(world.tree, confirmed, last.value) ==> ok
    {
      ComputeCanonicalHead();
      OneStepOn(old(trace), old(trace), SelectHead(headIndex));
      OneStepOn(old(trace), trace, Finish);
      ok := FinishPass(confirmed, last);
    }

    /** Everything after the guard has been reconciled. */
    method SyncAt(confirmed: Header, first: Option<Header>, last: Option<Header>, rebuild: bool, done: bool)
      returns (ok: bool)
      requires Valid() && phase.Compared?
      requires phase.pass.confirmed == confirmed && phase.pass.first == first && phase.pass.last == last
      requires rebuild <==> MustRebuild(world, syncBlock, confirmed)
      requires done <==> complete && syncBlock == Some(phase.pass.Block())
      modifies this`games, this`removed, this`anchor, this`guard, this`cursor, this`headIndex, this`headL2Block,
               this`syncBlock, this`complete, this`phase, this`history, this`trace
      ensures Valid() && Continues(old(trace), trace)
      ensures if ok then phase.Idle? && IsSyncedAt(confirmed) && old(trace) < trace && IsSuccess(trace[|trace| - 1])
              else !phase.Idle?
      ensures (&& healthy && first.Some? && SameChain(world.tree, confirmed, first.value)
               && last.Some? && SameChain(world.tree, confirmed, last.value)) ==> ok
    {
      if done {
        OneStepOn(trace, trace, Skip);
        SkipPass();
        return true;
      }
      ok := EnterBlock(confirmed, first, rebuild);
      if ok {
        ghost var entered := trace;
        ok := RunPass(confirmed, last);
        ContinuesOn(old(trace), entered, trace);
      }
    }

    /** A call with its heads selected. */
    method SyncWith(tip: Header, confirmed: Header, first: Option<Header>, last: Option<Header>) returns (ok: bool)
      requires Valid() && phase.Idle? && RealPass(world, config, Pass(tip, confirmed, first, last))
      modifies this`games, this`removed, this`anchor, this`guard, this`cursor, this`headIndex, this`headL2Block,
               this`syncBlock, this`complete, this`phase, this`history, this`trace
      ensures Valid() && phase.Idle?
      ensures IsCall(old(trace), Pass(tip, confirmed, first, last), trace) && (ok <==> IsSuccess(trace[|trace| - 1]))
      ensures ok ==> IsSyncedAt(confirmed)
      ensures (&& healthy && first.Some? && SameChain(world.tree, confirmed, first.value)
               && last.Some? && SameChain(world.tree, confirmed, last.value)) ==> ok
    {
      var captured := guard;
      BeginPass(tip, confirmed, first, last);
      ok := SyncBegun(captured, tip, confirmed, first, last);
      if !ok {
        OneStepOn(old(trace) + [Begin(Pass(tip, confirmed, first, last))], trace, Fail);
        GiveUp();
      }
    }

    /** From the comparison with the last pass on; a failure leaves the call to be given up. */
    method SyncBegun(captured: CreationGuard, tip: Header, confirmed: Header, first: Option<Header>, last: Option<Header>)
      returns (ok: bool)
      requires Valid() && phase == Selected(Pass(tip, confirmed, first, last), captured)
      modifies this`games, this`removed, this`anchor, this`guard, this`cursor, this`headIndex, this`headL2Block,
               this`syncBlock, this`complete, this`phase, this`history, this`trace
      ensures Valid() && Continues(old(trace), trace)
      ensures if ok then phase.Idle? && IsSyncedAt(confirmed) && old(trace) < trace && IsSuccess(trace[|trace| - 1])
              else !phase.Idle?
      ensures (&& healthy && first.Some? && SameChain(world.tree, confirmed, first.value)
               && last.Some? && SameChain(world.tree, confirmed, last.value)) ==> ok
    {
      var compared := CompareWithLastSync(confirmed);
      if compared.Err? {
        return false;
      }
      ghost var answered;
      ok, answered := ReconcileGuard(captured, tip);
      if ok {
        OneStepOn(old(trace), old(trace), Reconcile(answered));
        ghost var reconciled := trace;
        ok := SyncAt(confirmed, first, last, compared.value.0, compared.value.1);
        ContinuesOn(old(trace), reconciled, trace);
      }
    }

    /**
     `sync_state`. `latest`, `numbered`, `first` and `last` are what the backend answers for the latest
     block, the block at the confirmed number, and the finalized block before and after the pass. The
     call is one `Begin` with exactly these heads followed by steps of the machine; it succeeds exactly
     when the last of them is `Finish` or `Skip`. With every read answered and finality on the confirmed
     block's own chain it does succeed.
     */
    method SyncState(latest: Option<Header>, numbered: Option<Header>, first: Option<Header>, last: Option<Header>)
      returns (ok: bool)
      requires Valid() && phase.Idle? && RealAnswers(world, config, latest, numbered, first, last)
      modifies this`games, this`removed, this`anchor, this`guard, this`cursor, this`headIndex, this`headL2Block,
               this`syncBlock, this`complete, this`phase, this`history, this`trace
      ensures Valid() && phase.Idle?
      ensures var confirmed := ConfirmedAnswer(config, latest, numbered);
              if latest.None? || confirmed.None? then
                !ok && View() == old(View())
              else
                && IsCall(old(trace), Pass(latest.value, confirmed.value, first, last), trace)
                && (ok <==> IsSuccess(trace[|trace| - 1]))
                && (ok ==> IsSyncedAt(confirmed.value))
      ensures var confirmed := ConfirmedAnswer(config, latest, numbered);
              (&& healthy && confirmed.Some?
               && first.Some? && SameChain(world.tree, confirmed.value, first.value)
               && last.Some? && SameChain(world.tree, confirmed.value, last.value)) ==> ok
    {
      var confirmed := ConfirmedAnswer(config, latest, numbered);
      ok := false;
      if latest.Some? && confirmed.Some? {
        ok := SyncWith(latest.value, confirmed.value, first, last);
      }
    }

    // ----- creation -----

    /** The created game is at or below the block of the last pass. */
    ghost predicate IsBelowSynced(created: CreationGuard)
      reads this
    {
      syncBlock.Some? && created.observation.Some? && created.observation.value.l1Block <= syncBlock.value.number
    }

    /**
     Starts a creation task unless one is in flight or the guard says the last created game is not
     visible yet. `parent` is the head, or NO_PARENT when the head is the anchor itself.
     */
    method SpawnGameCreation() returns (started: bool, parent: nat)
      requires Valid() && phase.Idle?
      modifies this`creating, this`history, this`trace
      ensures Valid() && if started then trace == old(trace) + [Check] else View() == old(View()) && trace == old(trace)
      ensures started ==>
                && old(creating).None? && headL2Block.Some?
                && creating == Some(headL2Block.value + config.proposalInterval)
                && parent == if headIndex.Some? && headIndex != AnchorIndex(anchor) then headIndex.value else NO_PARENT
    {
      started, parent := false, NO_PARENT;
      var preconditionsRead: bool := *;
      if creating.Some? || !preconditionsRead || headL2Block.None? {
        return;
      }
      if headIndex.Some? && headIndex != AnchorIndex(anchor) {
        parent := headIndex.value;
      }
      var next := headL2Block.value + config.proposalInterval;
      if guard.l2Block > 0 && next <= guard.l2Block {
        return;
      }
      started := *;
      if started {
        ghost var before := View();
        creating := Some(next);
        Book(before, Check);
      }
    }

    /**
     The end of a creation task. `receipt` is None when the transaction failed; otherwise it names a
     block no lower than the requested one, because occupied slots are skipped upwards, and never
     block 0, which the contract refuses. A game that is already below the synced block sends the next
     walk back to the start.
     */
    method FinishGameCreation(receipt: Option<CreationGuard>)
      requires Valid() && phase.Idle? && creating.Some?
      requires receipt.Some? ==> creating.value <= receipt.value.l2Block && 0 < receipt.value.l2Block
                                 && receipt.value.observation.Some?
      modifies this`creating, this`guard, this`cursor, this`complete, this`history, this`trace
      ensures Valid() && trace == old(trace) + [if receipt.Some? then Record(receipt.value) else Abandon]
      ensures creating == None && guard == if receipt.Some? then receipt.value else old(guard)
      ensures if receipt.Some? && IsBelowSynced(receipt.value) then cursor == None && !complete
              else cursor == old(cursor) && complete == old(complete)
    {
      if receipt.None? {
        ghost var before := View();
        creating := None;
        Book(before, Abandon);
      } else {
        RecordGame(receipt.value);
      }
    }

    method RecordGame(created: CreationGuard)
      requires Valid() && phase.Idle? && creating.Some?
      requires creating.value <= created.l2Block && 0 < created.l2Block && created.observation.Some?
      modifies this`creating, this`guard, this`cursor, this`complete, this`history, this`trace
      ensures Valid() && trace == old(trace) + [Record(created)]
      ensures creating == None && guard == created
      ensures if IsBelowSynced(created) then cursor == None && !complete
              else cursor == old(cursor) && complete == old(complete)
    {
      ghost var before := View();
      if syncBlock.Some? && syncBlock.value.number >= created.observation.value.l1Block {
        cursor := None;
        complete := false;
      }
      guard, creating := created, None;
      Book(before, Record(created));
    }
  }

  lemma CanonicalHeadIsCached(games: Cache, anchor: Option<nat>, head: Option<nat>)
    requires IsCanonicalHead(games, anchor, head)
    ensures head.Some? ==> head.value in games
  {
  }
}

# OP Succinct: verified protocol core

A Dafny model of the parts of this repository whose correctness is about whole runs, about a fast
form agreeing with a simple one, or about optimality. `dafny verify dfyconfig.toml` checks all of it.

| file | what it models |
|---|---|
| `L1Chain.dfy` | L1 as the tree of all blocks on all forks, the ancestor walk, and the release of finalized removals |
| `GameGraph.dfy` | the dispute-game cache as a graph: subtree walk, subtree removal, canonical head |
| `Factory.dfy` | what the contracts hold at each L1 block, game admission, and the per-game sync decision |
| `CreationGuards.dfy` | the duplicate-creation guard: what it records, and when a game's removal clears it |
| `DiscoveryWalk.dfy`, `StatusPass.dfy` | the backward discovery walk, and the per-game status pass with exactly what it removes |
| `ProposerMachine.dfy`, `ProposerRuns.dfy`, `ProposerFacts.dfy`, `Proposer.dfy` | the fault-proof proposer as a machine of small steps with an inductive invariant, theorems over every run of it, what they mean in the chain's own fields, and the object that implements it |
| `RangeGaps.dfy`, `Planners.dfy`, `Contiguity.dfy`, `RequestTable.dfy` | validity planning: gaps, gas and block splitting, contiguity, and the request table over every run |
| `RangeSplit.dfy`, `Aggregation.dfy`, `ProveGame.dfy` | splitting a range, the aggregation guest, and split-prove-aggregate end to end |
| `Challenger.dfy` | the challenger's discovery, refresh and challenge machine, and the object that implements it |
| `SequenceTracker.dfy`, `GameMonitor.dfy` | the contiguity tracker and the game monitor's two-tier retries |
| `Prelude.dfy` | option, result, and set enumeration |

## How to read it

- **Environment.** An RPC read is a nondeterministic success or failure, and a block lookup may answer
  with any real header, from any fork. One fixed tree of blocks serves a whole run, so a reorg is just
  a head on another branch. The field or parameter `healthy` marks an environment in which every read
  is answered; it only appears in clauses that say when an operation must succeed.
- **Assumptions on the chain** (`Factory.ValidWorld`): a hash names one header, parent links go down
  one number at a time, the factory's game list only grows along a chain and keeps each game's
  creation-time facts, and no game has the zero address. The L2 node's output root for a block number
  does not change. A created game is never at L2 block 0, because the contract refuses a block at or
  below its starting one.
- **Backend answers.** The heads one `sync_state` call works with (latest, confirmed, and the two finality
  answers) are inputs of the call and part of its first step, so no later step can choose them. They may
  come from any fork and may be missing.
- **Runs.** Where the source updates fields in place the model is a class. Its methods are proved
  against a step relation on plain values, and the theorems about runs are lemmas over all sequences of
  such steps. Each object carries a ghost history that shows it is at the end of a run of its machine, so
  the theorems apply to it as they stand.
- **Oracles.** Header hashing, proof verification and claim validation are arbitrary functions or
  arbitrary answers; injectivity or soundness is a hypothesis only where a lemma names it.

## Main results

1. After every `sync_state` that returns Ok, in every run with reorgs, regressions and calls that fail
   midway, the synced block is the confirmed block of that very call and each cached game is what a fresh
   read there gives (`SyncedCacheEqualsReread`): a respected game of this type and registry whose claim is the
   L2 node's root, with exactly the fields and action flags of that block (`CachedGamesAreGenuine`). Conversely
   every such game is cached, or recorded with a reason that held on that chain, or since the last rebuild was
   released as final or left below an anchor cut-off (`GenuineGamesAreCached`). The head is where parent
   indices and L2 blocks put it, catch-up chains included (`SyncedHeadIsExact`, `SyncedHeadIsTip`).
2. No index that was ever tracked is lost until its removal block lies below both the confirmed block and
   the finality answer of the same call (`NoTrackedGameIsLost`, `ReleasedIffFinal`); one descending walk
   releases exactly what one walk per removal would (`FindFinalized`).
3. Recorded creations strictly increase between guard resets, whatever syncs happen in between
   (`CreatedBlocksStrictlyIncrease`); a set guard is cleared exactly when its game is missing at a tip no older
   than its last sighting, or is cached under a game that lost (`GuardIsResetExactlyWhen`), and a tip older than
   any earlier sighting decides nothing (`OldTipsDecideNothing`).
4. Gas planning is greedy and optimal (`RangesByGas`, `GreedyIsOptimal`); planning twice adds nothing
   (`GasPlanIsFixedPoint`, `BlockPlanIsFixedPoint`); the blocks of a failed request are free again and the
   next plan takes them up (`FailedBlocksAreFree`, `FailedBlocksAreReplanned`); over every run active requests
   stay disjoint exactly as long as the halves of each split fit, which those of an active request always do
   (`RunIsDisjointIff`, `RunKeepsRequestsDisjoint`); three views of contiguity agree (`ViewsOfContiguityAgree`).
5. An accepted aggregation claim is a chain of valid transitions derived below the checkpoint
   (`AggregationIsSound`), and splitting, proving out of order and aggregating gives the claim of one
   proof (`Prove`), with a largest piece no cut into as many pieces can beat (`SplitMinimisesLargestPiece`).
6. The challenger loses no index (`DiscoveryLosesNothing`, `FetchedAtMostOnce`) and fails closed
   (`ChallengesFailClosed`, `VerdictsAreFinal`); its flags are exactly what the pinned block's fields call for
   (`FlagsComeFromTheBlock`), and a game that deserves a challenge gets it in the same cycle (`RunCycle`).
7. The monitor's saved progress passes over no unprocessed game but the starting one
   (`SavedProgressPassesOverNothing`, `StartIndexCountsAsDone`), and each recorded reason is what happened
   (`RecordedReasonsAreEarned`, `FailedAttemptsAreCounted`).

## Where the code is not what its comments say

- `find_gaps` is described as finding gaps in the overall range, but it does not clip at the overall end.
  `GapsCanOverrunTheEnd` gives an input, and `GapsAreExactIff` the exact condition under which the answer
  is right.
- `sync_games` is described as removing games whose parent is not cached. `OrphanStays` gives an input
  where an open game stays after its spent parent was evicted, and `OrphansLeaveIff` the exact condition
  under which the description holds. What the pass does remove is exactly each game whose own action is an
  eviction and each game under a lost one (`StatusPassIsExact`), provided no game under a lost one is
  evicted on its own account; otherwise the hash-map order of the actions decides (`ActionOrderMatters`).
  The contract rules that case out (`WinsRestOnWinsKeepsLostPure`).
- The prune of games beyond the pinned block, and the cursor reset for a shrunken factory, guard against
  states that no run of `sync_state` reaches (`PrunedGamesCannotHappen`).
- `handle_failed_request` splits a request in any status. For an active one the halves always fit; for one
  that is already failed and was planned again they overlap the new request (`RepeatedSplitOverlaps`).
  `SplitKeepsInvIff` is the exact condition. The callers (validity/src/proposer.rs:827, 976, 2098, 2124) pass
  only requests they still hold as being worked on.
- `last_contiguous` is described as covering every index up to and including it. The tracker starts with
  the starting index as already done, so that one index can be passed over while it still waits
  (`StartIndexCountsAsDone`); every later index is safe.

## Model

| member | source | states |
|---|---|---|
| `L1Chain.L1Ancestor` | fault-proof/src/proposer.rs:870-887 | a successful walk ends at the tree's own ancestor at that height, whatever headers the backend answers with; it fails above the header and succeeds when every read is answered |
| `L1Chain.AncestorOfAncestor` | fault-proof/src/proposer.rs:917-921 | resuming a walk from an ancestor reaches the same block as starting over |
| `FinalizedRemovals.SortDescending` | fault-proof/src/proposer.rs:918 | the candidates, each listed, highest block first |
| `FinalizedRemovals.WalkDown` | fault-proof/src/proposer.rs:917-926 | one pass keeps exactly the candidates whose block lies on the chain of the lower head |
| `FinalizedRemovals.FindFinalized` | fault-proof/src/proposer.rs:890-932 | with the given finality answer it releases exactly what an independent walk per removal confirms from the lower head; heads on different forks or a failed read release nothing |
| `FinalizedRemovals.ConfirmedMeansFinalOnBothHeads` | fault-proof/src/proposer.rs:907-916 | on one chain, confirmed from the lower head if and only if the removal block is below both heads |
| `GameGraph.DescendantsAreLeastClosedSet` | fault-proof/src/proposer.rs:198-218 | the subtree is the least set with the root that is closed under child edges |
| `GameGraph.DescendantsOf` | fault-proof/src/proposer.rs:202-218 | the stack walk terminates on every parent map, cycles included, and returns exactly the subtree |
| `GameGraph.DroppedSubtreeIsGone` | fault-proof/src/proposer.rs:220-230 | after a subtree is dropped nothing cached is reachable from its root |
| `GameGraph.SubtreeAfterClosedRemoval` | fault-proof/src/proposer.rs:1112-1121 | dropping subtrees one after another drops the same games as dropping them at once |
| `GameGraph.MaxByL2Block` | fault-proof/src/proposer.rs:246-258 | some game that no other one of the set exceeds, or none when the set is empty |
| `GameGraph.SelectCanonicalHead` | fault-proof/src/proposer.rs:245-296 | without an anchor the highest game; with one, the highest game of all higher chains that start elsewhere (without a parent, or on a parent before that of the anchor's best descendant), and the anchor's highest descendant when there is no such chain |
| `GameGraph.CanonicalHeadIsExact` | fault-proof/src/proposer.rs:245-296 | where the head is, in parent indices and L2 blocks alone: no lower than any game under any catch-up root and under one of them, or in the anchor's subtree when there is none |
| `GameGraph.CanonicalHeadIsTip` | fault-proof/src/proposer.rs:239-296 | if children are above their parents and the anchor is cached, the head has no cached child, is no lower than the anchor, and is under the anchor or under a root above the anchor's best |
| `Factory.ExtendsEveryAncestor` | fault-proof/src/proposer.rs:752-757 | a block keeps every game of every ancestor at its index |
| `Factory.AdmittedSurvivesExtension` | fault-proof/src/proposer.rs:748-759 | an admitted entry still matches at any block that extends the one it was read at |
| `Factory.ReadInFacts` | fault-proof/src/proposer.rs:1972-2086 | a read answers valid if and only if the game has the configured type and registry, was respected and claims the L2 node's root; invalid if and only if type and registry are right and one of the other two is wrong; and it gives the chain's own fields |
| `Factory.LookUpProposal` | fault-proof/src/proposer.rs:768-783 | a non-zero answer is a game with that identity; zero means the block has none |
| `FinalizedRemovals.ReleasedMeansFinal` | fault-proof/src/proposer.rs:890-932 | a record is released if and only if its block lies below both the selected and the finalized head |
| `Factory.CachedSubtreeIsReal` | fault-proof/src/proposer.rs:198-218 | what hangs below a game in the cache hangs below it in the factory |
| `DiscoveryWalk.CutMeansFarFromAnchor` | fault-proof/src/proposer.rs:1056-1085 | a walk is cut short only at an unsupported anchor or at a valid game more than the maximum lag from a visited anchor |
| `DiscoveryWalk.WalkStopsIff` | fault-proof/src/proposer.rs:1056-1085 | the walk stops at an index if and only if that is an unsupported anchor game, or a valid game whose deadline is more than 1209600 seconds from that of the anchor noted on the way |
| `DiscoveryWalk.VisitOneMore` | fault-proof/src/proposer.rs:1042-1101 | one more visited index keeps the collected games exact, and the walk ends exactly where a stop rule first holds |
| `DiscoveryWalk.CommitIsAdmitted` | fault-proof/src/proposer.rs:1103-1110 | after the commit every entry has the block's facts |
| `DiscoveryWalk.CommitIsComplete` | fault-proof/src/proposer.rs:1103-1110 | after the commit every visited valid game is cached |
| `StatusPass.OneActionApplies` | fault-proof/src/proposer.rs:1296-1345 | each action leaves its game fresh or gone, and whatever left was evicted by its own action or hung below a lost game |
| `StatusPass.ActionsRefresh` | fault-proof/src/proposer.rs:1296-1345 | after all actions each cached game is fresh, and each game that left had an eviction of its own or a lost game above it |
| `StatusPass.StatusPassIsExact` | fault-proof/src/proposer.rs:1123-1345 | in whatever order the actions come, a game leaves if and only if its own action evicts it or it hangs below a lost game |
| `StatusPass.LostSubtreesLeave` | fault-proof/src/proposer.rs:1321-1342 | everything below a lost game leaves, whatever the order |
| `StatusPass.WinsRestOnWinsKeepsLostPure` | contracts/src/fp/OPSuccinctFaultDisputeGame.sol:433-447 | since a win needs a won parent, no game below a lost one is evicted on its own account |
| `StatusPass.OrphansLeaveIff` | fault-proof/src/proposer.rs:942-943 | games whose parent leaves also leave if and only if no evicted game has a surviving child |
| `StatusPass.OrphanStays` | fault-proof/src/proposer.rs:942-943 | a spent parent is evicted and its open child stays cached |
| `StatusPass.ActionOrderMatters` | fault-proof/src/proposer.rs:1296-1345 | with an evicted game under a lost one, two orders of the same actions leave different caches |
| `ProposerMachine.StepKeepsInv` | fault-proof/src/proposer.rs:712-867 | every step keeps: facts of the entered block, each record excused at a block of its chain, a completed pass in full agreement, and each stage of an unfinished one |
| `ProposerMachine.ExtensionKeepsEntered` | fault-proof/src/proposer.rs:748-759 | cached facts and the reasons of all records carry over to any block that extends the last synced one |
| `ProposerMachine.RebuildEnters` | fault-proof/src/proposer.rs:804-846 | a re-read of the tracked indices is sound at any block, with a reason for each index it leaves out |
| `ProposerMachine.ApplyKeepsEntered` | fault-proof/src/proposer.rs:1296-1345 | an action retires only games that may be left out at the pinned block |
| `ProposerRuns.RunKeepsInv` | fault-proof/src/proposer.rs:712-867 | the invariant holds in every state of every run, from any restored backup |
| `ProposerRuns.SyncedCacheEqualsReread` | fault-proof/src/proposer.rs:712-867 | after every successful call of every run the synced block is that call's confirmed block and each cached entry equals a fresh read there, with that block's flags |
| `ProposerRuns.SyncedCacheIsComplete` | fault-proof/src/proposer.rs:1009-1110 | after every successful call each valid game of the confirmed block is cached, recorded with a reason on that chain, or since the last rebuild released as final or cut off |
| `ProposerRuns.ValidGamesAreAccounted` | fault-proof/src/proposer.rs:1009-1110 | in every state a valid game at or below the cursor is tracked, or since the last rebuild was released as final or cut off |
| `ProposerRuns.GamesLeaveForAReason` | fault-proof/src/proposer.rs:224-237 | a game leaves the cache only into a record at the pass's own block, where it is absent, invalid, spent, or below a lost or invalid game |
| `ProposerRuns.GamesEnterValid` | fault-proof/src/proposer.rs:1103-1110 | a game enters the cache only as a valid game of the pinned block, by a whole committed walk or by a rebuild |
| `ProposerRuns.BrokenPassKeepsFacts` | fault-proof/src/proposer.rs:848-854 | after a call that failed midway cached facts are those of the last entered block |
| `ProposerRuns.CachedOrRecorded` | fault-proof/src/proposer.rs:804-846 | once a block was entered no index is both cached and recorded |
| `ProposerRuns.NoTrackedGameIsLost` | fault-proof/src/proposer.rs:890-932 | a tracked index stays tracked until its record is below both the confirmed head and the finality answer of one call |
| `ProposerRuns.ReleasedIffFinal` | fault-proof/src/proposer.rs:890-932 | what a step of a run releases is exactly what is final on both heads of its call |
| `ProposerRuns.PrunedGamesCannotHappen` | fault-proof/src/proposer.rs:953-965 | in every run the future-game prune finds nothing and the cursor is never above the factory |
| `ProposerRuns.SyncedHeadIsTip` | fault-proof/src/proposer.rs:856-860 | after every successful call the head is a tip, no lower than the anchor, and under the anchor or under a root above the anchor's best descendant |
| `ProposerRuns.GuardIsResetIff` | fault-proof/src/proposer.rs:766-799 | a set guard is cleared if and only if its game is missing at a tip no older than its sighting or is cached under a lost game |
| `ProposerRuns.CapturedGuardIsCurrent` | fault-proof/src/proposer.rs:713-716 | the captured guard is still the current one when it is reconciled, so no other guard is overwritten |
| `ProposerRuns.GuardNeverMovesBack` | fault-proof/src/proposer.rs:2142-2152 | without a reset the guarded L2 block never decreases |
| `ProposerRuns.CreatedBlocksStrictlyIncrease` | fault-proof/src/proposer.rs:2110-2152 | over any interleaving of syncs and creations recorded L2 blocks strictly increase between resets |
| `ProposerFacts.CachedGamesAreGenuine` | fault-proof/src/proposer.rs:1972-2086 | after every successful call each cached game has the configured type and registry, was respected, claims the L2 node's root and has not lost at the confirmed block, which is the tip less the confirmations; its fields and each of its action flags are exactly what that block calls for |
| `ProposerFacts.GenuineGamesAreCached` | fault-proof/src/proposer.rs:1009-1110 | conversely each game with these four facts is cached, recorded at a block of that chain where it was absent, had nothing left to claim or hung on a lost game or an impostor, or since the last rebuild was released as final or cut off |
| `ProposerFacts.CommittedWalkInFacts` | fault-proof/src/proposer.rs:1103-1121 | a committed walk adds exactly the genuine games it visited and drops exactly what hangs below a visited game of this type and registry that was not respected or claims another root |
| `ProposerFacts.FlagsInFields` | fault-proof/src/proposer.rs:1158-1250 | resolve, close and claim are each set if and only if status, parent, clock, ownership, finality, bond mode and credit call for it |
| `ProposerFacts.EvictionInFields` | fault-proof/src/proposer.rs:1252-1290 | a game is evicted on its own account if and only if it is won, final, without an open bond of ours and without credit, and is neither the head nor the anchor |
| `ProposerFacts.StatusPassInFields` | fault-proof/src/proposer.rs:1123-1345 | who leaves in a status pass, in the chain's fields and whatever the order of the actions |
| `ProposerFacts.SpentGamesAreHeadOrAnchor` | fault-proof/src/proposer.rs:1252-1277 | in every run, once the status pass is through, a cached game with nothing left to claim is the head or the anchor |
| `ProposerFacts.SyncedAnchorIsExact` | fault-proof/src/proposer.rs:1351-1372 | after every successful call the anchor is set if and only if the registry's anchor game is cached, and to that game |
| `ProposerFacts.SyncedHeadIsExact` | fault-proof/src/proposer.rs:1375-1412 | after every successful call the head is where parent indices and L2 blocks put it |
| `ProposerFacts.GuardIsResetExactlyWhen` | fault-proof/src/proposer.rs:766-799 | a set guard is cleared if and only if no game with its identity is in the factory at a tip no older than its sighting, or its address is in the cached subtree of a lost game |
| `ProposerFacts.SightingUpdatesGuard` | fault-proof/src/proposer.rs:776-792 | finding the game moves the sighting up to the tip and takes over the address found there |
| `ProposerFacts.SightingNeverMovesBack` | fault-proof/src/proposer.rs:776-792 | in every run a sighting only moves up until a reset or a new creation |
| `ProposerFacts.OldTipsDecideNothing` | fault-proof/src/proposer.rs:766-799 | a tip older than any earlier sighting of the same guard leaves the guard as it is |
| `Proposers.Proposer.constructor` | fault-proof/src/proposer.rs:639-660 | any restored cache is accepted as a start; no block counts as synced |
| `Proposers.Proposer.RemoveGame` | fault-proof/src/proposer.rs:233-237 | a cached index moves to the rollback records; an uncached one changes nothing |
| `Proposers.Proposer.RemoveSubtree` | fault-proof/src/proposer.rs:224-230 | exactly the subtree leaves the cache and is recorded at the block |
| `Proposers.Proposer.ClearGuard` | fault-proof/src/proposer.rs:971-1005 | the guard is cleared exactly when its game is among those that leave, and kept otherwise |
| `Proposers.Proposer.ReconcileGuard` | fault-proof/src/proposer.rs:766-799 | one reconcile step at this call's tip with the factory's own answer, or no change when the read fails |
| `Proposers.Proposer.CompareWithLastSync` | fault-proof/src/proposer.rs:738-764 | a rebuild if and only if the last synced block is not at or below the confirmed one; nothing to do if and only if that very block was completed |
| `Proposers.Proposer.ReleaseBeforeRebuild` | fault-proof/src/proposer.rs:805-806 | a release step with this call's first finality answer, or no change |
| `Proposers.Proposer.ReadTracked` | fault-proof/src/proposer.rs:822-838 | exactly the valid games among the tracked indices, and a record at the block for each other index |
| `Proposers.Proposer.RebuildCache` | fault-proof/src/proposer.rs:804-846 | a rebuild step that also resets cursor, anchor, head and completeness and takes the registry's baseline block, or no change when a read fails |
| `Proposers.Proposer.PruneFutureGames` | fault-proof/src/proposer.rs:953-1007 | a prune step: games the block lacks become records, and the guard is cleared exactly if its game is among them |
| `DiscoveryWalk.LoadGame` | fault-proof/src/proposer.rs:1955-1969 | a cached index answers from the cache, any other from the chain |
| `DiscoveryWalk.WalkBack` | fault-proof/src/proposer.rs:1023-1101 | the walk terminates, never lacks an index, visits each index once from the top down, collects exactly the valid and the invalid games, and stops exactly where a stop rule first holds |
| `Proposers.Proposer.Commit` | fault-proof/src/proposer.rs:1103-1110 | all fetched games and the cursor are published together, and leave the rollback records |
| `Proposers.Proposer.RemoveInvalid` | fault-proof/src/proposer.rs:1112-1121 | exactly the subtrees of the invalid games leave the cache and are recorded |
| `Proposers.Proposer.LoadNewGames` | fault-proof/src/proposer.rs:1042-1121 | a failed walk changes nothing; a finished one is committed whole, and what hangs below invalid games leaves |
| `Proposers.Proposer.ReadStatuses` | fault-proof/src/proposer.rs:1123-1294 | one action per cached game, each the one the pinned block calls for, or no actions at all |
| `Proposers.Proposer.TakeAction` | fault-proof/src/proposer.rs:1296-1343 | one action updates, evicts or drops a subtree, records what left, and clears the guard exactly if its game was in the subtree |
| `Proposers.Proposer.SyncGames` | fault-proof/src/proposer.rs:951-1348 | only machine steps of this call; on success every action of the status pass has been applied |
| `Proposers.Proposer.FindAnchor` | fault-proof/src/proposer.rs:1351-1372 | the cached game at the registry's address, or none when there is none |
| `Proposers.Proposer.StoreHead` | fault-proof/src/proposer.rs:1375-1412 | stores a canonical head and its L2 block, and keeps the baseline block when there is no game |
| `Proposers.Proposer.FinishPass` | fault-proof/src/proposer.rs:862-866 | a release step with this call's last finality answer that marks the block complete, or no change |
| `Proposers.Proposer.SyncState` | fault-proof/src/proposer.rs:712-867 | one begin with exactly the answered heads and then steps of the machine; it returns Ok exactly when they end in finish or skip, the synced block is then the confirmed one, and with all reads answered and finality on its chain it does |
| `Proposers.Proposer.SpawnGameCreation` | fault-proof/src/proposer.rs:2577-2621 | starts at most one creation, for the head's block plus the interval, only above the guard, and never names the anchor as parent |
| `Proposers.Proposer.FinishGameCreation` | fault-proof/src/proposer.rs:2132-2155 | records exactly the receipt as the guard, or keeps the guard when there is none; a game at or below the synced block sends the next walk back to the start and makes it run, any other changes neither |
| `RangeGaps.MergeRanges` | validity/src/utils.rs:176-200 | covers exactly the blocks of its input; non-empty inputs give sorted, non-touching ranges |
| `RangeGaps.FindGaps` | validity/src/utils.rs:22-38 | for start-sorted ranges, overlapping, empty or reversed ones included: the canonical list of exactly the uncovered blocks up to the horizon |
| `RangeGaps.CanonicalIsUnique` | validity/src/utils.rs:172-175 | a set of blocks has only one sorted list of non-empty, non-touching ranges |
| `RangeGaps.GapsAreUnique` | validity/src/utils.rs:22-38 | any two such answers are the same list |
| `RangeGaps.GapsAreExactIff` | validity/src/utils.rs:26-35 | the answer is the uncovered part of the overall range if and only if no uncovered block lies between its end and the last start |
| `RangeGaps.StartsWithinMakeGapsExact` | validity/src/utils.rs:26-35 | it is when every range starts within the overall range |
| `RangeGaps.GapsCanOverrunTheEnd` | validity/src/utils.rs:26-31 | an input whose answer goes past the overall end |
| `Planners.SplitGapByGas` | validity/src/utils.rs:75-114 | a greedy exact cut of the gap, or an error if and only if a block has no consistent record |
| `Planners.RangesByGas` | validity/src/utils.rs:67-125 | every gap cut greedily into non-empty segments, in order; the final pop never fires |
| `Planners.OversizedSegmentIsOneBlock` | validity/src/utils.rs:98-109 | in a segment over the limit the last block alone exceeds it and every other record is zero |
| `Planners.FitsInRecords` | validity/src/utils.rs:98-109 | a segment is permitted if and only if it is non-empty, within a positive interval, and within the gas limit unless every block but its last records no gas |
| `Planners.GasIsTheSum` | validity/src/utils.rs:98-109 | gas is additive over adjacent stretches, zero for none, and a block's own record for one |
| `Planners.FitsIsHereditary` | validity/src/utils.rs:98-101 | any non-empty part of a permitted segment is permitted |
| `Planners.GreedyStaysAhead` | validity/src/utils.rs:98-109 | the greedy cut points are never behind those of another permitted partition |
| `Planners.GreedyIsOptimal` | validity/src/utils.rs:67-125 | no partition into permitted segments has fewer pieces |
| `Planners.ChunkGap` | validity/src/utils.rs:150-157 | an exact cut into full chunks with at most the last one shorter |
| `Planners.RangesByBlocks` | validity/src/utils.rs:144-170 | all chunks of all gaps, less the very last one when it is short |
| `Contiguity.HighestContiguousEnd` | validity/src/proposer.rs:175-200 | the end of the one longest gap-free chain from the start; an error if and only if the chain runs into an overlap or an empty range |
| `Contiguity.ValidateAggregation` | validity/src/proposer.rs:1556-1648 | accepts exactly the linked lists that span the request |
| `Contiguity.AcceptedMeansPartition` | validity/src/proposer.rs:1552-1556 | on non-empty ranges acceptance means no gap, no overlap, the whole span |
| `Contiguity.WellPlacedNeverBreaks` | validity/src/proposer.rs:182-194 | on disjoint ordered ranges the chain search cannot fail |
| `Contiguity.ChainEndIsFirstUncovered` | validity/src/proposer.rs:174-200 | the chain end is the first block no range has |
| `Contiguity.ViewsOfContiguityAgree` | validity/src/proposer.rs:1216-1268 | chain end, first gap and accepted prefix are the same block |
| `RequestTables.HalvesPartition` | validity/src/proof_requester.rs:486-512 | a split gives two non-empty, near-equal halves of the same blocks |
| `RequestTables.PlanKeepsInv` | validity/src/proposer.rs:437-551 | planned requests are disjoint from all active ones and on one side of the proposed block |
| `RequestTables.SplitKeepsInv` | validity/src/proof_requester.rs:468-514 | failing and splitting keeps active requests disjoint |
| `RequestTables.ProposeKeepsInv` | validity/src/proposer.rs:1263-1285 | no active request straddles the new proposed block, which is higher than the old |
| `RequestTables.RunKeepsRequestsDisjoint` | validity/src/proposer.rs:449-450 | over every run that splits only active requests, they are non-empty, pairwise disjoint and straddle nothing |
| `RequestTables.RunIsDisjointIff` | validity/src/proof_requester.rs:486-512 | over every run whatsoever, requests stay disjoint throughout if and only if the halves of every split fit |
| `RequestTables.GasPlanIsFixedPoint` | validity/src/proposer.rs:472-507 | in gas mode nothing stays uncovered and a second plan adds nothing |
| `RequestTables.BlockPlanIsFixedPoint` | validity/src/utils.rs:160-167 | in block mode at most one chunk shorter than the interval stays uncovered and a second plan adds nothing |
| `RequestTables.BlockPlanLeavesLastChunk` | validity/src/utils.rs:160-167 | the blocks left out are exactly those of the last chunk, when it is short |
| `RequestTables.BlockPlanCoversAllButTheRest` | validity/src/utils.rs:144-170 | in block mode the plan covers exactly the gaps' blocks, less the remainder at the end of the last gap when it is shorter than the interval |
| `RequestTables.FailedBlocksAreFree` | validity/src/proof_requester.rs:464-468 | after a failure without a split no active request has a block of the failed range |
| `RequestTables.FailedBlocksAreReplanned` | validity/src/proposer.rs:437-551 | and the next gas plan puts active requests over every such block from the latest proposed one up to its horizon |
| `RequestTables.PlanAvoidsLiveBlocks` | validity/src/proposer.rs:449-471 | a plan takes no block of a request that is in work or complete |
| `RequestTables.DeadRequestsHoldNothing` | validity/src/proposer.rs:449-471 | a block counts as covered if and only if some request at or above the latest block has it that is not failed, cancelled or invalidated |
| `RequestTables.NoLongerChain` | validity/src/proposer.rs:1250-1268 | no chain of completed requests goes further than the one found |
| `RequestTables.RequestBook.AddNewRanges` | validity/src/proposer.rs:437-551 | a planning step in the mode the gas limit selects, which adds one unrequested row per range and changes no other; in gas mode no change if and only if some uncovered block up to the horizon has no consistent gas record |
| `RequestTables.RequestBook.AdvanceRequest` | validity/src/proposer.rs:748-965 | an in-flight request has the new active status and every other row is unchanged |
| `RequestTables.RequestBook.DeactivateRequest` | validity/src/proof_requester.rs:522-535 | the row has the new status and is not active, its range is kept, and every other row is unchanged |
| `RequestTables.RequestBook.HandleFailedRequest` | validity/src/proof_requester.rs:449-519 | for a row in any status: an invalidated one is left alone; otherwise it is Failed and every other old row is unchanged, with two new rows for its halves exactly when it is split; the table stays sound if and only if the halves fit |
| `RequestTables.SplitKeepsInvIff` | validity/src/proof_requester.rs:486-512 | splitting a request in any status keeps active requests disjoint if and only if its halves are clear of the other active ones and of the proposed block |
| `RequestTables.ActiveHalvesFit` | validity/src/proof_requester.rs:486-512 | the halves of an active request always fit |
| `RequestTables.RepeatedSplitOverlaps` | validity/src/proof_requester.rs:468-512 | a failed and replanned request that fails once more breaks disjointness |
| `RequestTables.RequestBook.Propose` | validity/src/proposer.rs:1250-1285 | moves to the end of the longest completed chain if it is long enough, and never fails in a valid table |
| `RangeSplit.Split` | fault-proof/src/config.rs:500-531 | an error if and only if the range is empty; otherwise an exact cut into at least one piece, at most count pieces and at most one piece per block |
| `RangeSplit.CutEvenly` | fault-proof/src/config.rs:514-528 | the loop's steps reach the end within the segment count |
| `RangeSplit.SplitMinimisesLargestPiece` | fault-proof/src/config.rs:486-494 | for every other cut of the range into at most count pieces of at most m blocks, the pieces of the split are at most m blocks too |
| `Aggregation.WalkHeaders` | programs/aggregation/src/main.rs:50-66 | completes if and only if the headers are linked to the checkpoint, and marks exactly the heads among them |
| `Aggregation.Guest` | programs/aggregation/src/main.rs:18-100 | accepts if and only if boots are sequential, verified, and all heads are in the linked headers; commits first pre-root, last post-root and block, and the input's key and prover |
| `Aggregation.AggregationIsSound` | programs/aggregation/src/main.rs:25-96 | an accepted claim is a chain of valid transitions under one config, each from a head at or below the checkpoint it names; every boot info was verified with the committed key, and the prover is the input's |
| `Aggregation.HeadersAreDetermined` | programs/aggregation/src/main.rs:54-66 | with an injective hash, checkpoint and length fix the header list; a shorter list is a suffix |
| `Aggregation.ConcatenationAggregates` | programs/aggregation/src/main.rs:27-83 | a concatenation is accepted if and only if both parts are and they meet, and its claim has their outer ends |
| `ProveGame.CompleteInSomeOrder` | fault-proof/src/proposer.rs:1471-1474 | the same results in an arbitrary order |
| `ProveGame.Reassemble` | fault-proof/src/proposer.rs:1476-1510 | each slot holds a result tagged with its index; an error if and only if an index has none |
| `ProveGame.ReassemblyRestoresOrder` | fault-proof/src/proposer.rs:1481-1487 | whatever the completion order, tags lead back to split order |
| `ProveGame.HonestPiecesAreAccepted` | fault-proof/src/proposer.rs:1512-1530 | the guest accepts the boot infos of any partition |
| `ProveGame.Prove` | fault-proof/src/proposer.rs:1440-1530 | for every range, count, completion order and choice of failing pieces: an error if and only if the range is empty or a piece of its split fails, and otherwise the claim of one proof of the whole range, each field written out |
| `ChallengerMachine.StepKeepsInv` | fault-proof/src/challenger.rs:208-318 | every step keeps discovery complete, flags exclusive and justified, and sent challenges deserved |
| `ChallengerMachine.DiscoveryLosesNothing` | fault-proof/src/challenger.rs:215-262 | in every run an index is at or below the cursor if and only if it was fetched or is pending, never both, and a pending one is not cached |
| `ChallengerMachine.FetchedAtMostOnce` | fault-proof/src/challenger.rs:221-262 | no index is fetched successfully twice |
| `ChallengerMachine.ChallengesFailClosed` | fault-proof/src/challenger.rs:546-613 | every challenge sent was judged invalid or had a lost parent at the pinned block, and its own contract was in progress, unchallenged and before its deadline at the latest head |
| `ChallengerMachine.FlagsComeFromTheBlock` | fault-proof/src/challenger.rs:365-460 | in every run, after a completed cycle a cached game has no flag, or its challenge, resolve, close and claim flags are each set if and only if the contract fields, its verdict and its parent's status at the pinned block call for it |
| `ChallengerMachine.UpToDateMeansExactFlags` | fault-proof/src/challenger.rs:365-460 | a refreshed game has each flag exactly when the contract's fields call for it, a lost parent included, and is not one with nothing left to do |
| `ChallengerMachine.FetchTracksOurGames` | fault-proof/src/challenger.rs:472-541 | in every run a successful fetch tracks the game if and only if it has the configured type and registry and was respected, with the chain's fields and no flag |
| `ChallengerMachine.TrackedUntilDone` | fault-proof/src/challenger.rs:293-303 | in every run a tracked game stays tracked until a refresh at whose block nothing is left to do for it |
| `ChallengerMachine.OversizedBlocksAreInvalid` | fault-proof/src/challenger.rs:462-466 | in every run a tracked game whose L2 block exceeds 64 bits is judged invalid |
| `ChallengerMachine.AtMostOneActionFlag` | fault-proof/src/challenger.rs:365-460 | a cached game never has two flags |
| `ChallengerMachine.VerdictsAreFinal` | fault-proof/src/challenger.rs:397-399 | a settled verdict never changes |
| `ChallengerMachine.TraceIsRun` | fault-proof/src/challenger.rs:104-129 | what the object does is a run of the machine |
| `Challengers.Challenger.Discover` | fault-proof/src/challenger.rs:221-260 | a success leaves the retry set, a failure enters it, and a new index moves the cursor either way |
| `Challengers.Challenger.SyncGame` | fault-proof/src/challenger.rs:365-460 | an error, removal if and only if nothing is left to do, or the game with each flag set exactly when the pinned block's fields call for it |
| `Challengers.Challenger.RefreshGame` | fault-proof/src/challenger.rs:275-303 | one game changes: it leaves only if finished, its flags come from this block or are all cleared, and with all reads answered a readable game is brought up to date |
| `Challengers.Challenger.RefreshAll` | fault-proof/src/challenger.rs:264-303 | every cached game is visited, and with all reads answered every readable one has exactly the flags of this block and none is finished |
| `Challengers.Challenger.DiscoverNew` | fault-proof/src/challenger.rs:237-262 | the cursor ends at the latest index whatever fails on the way |
| `Challengers.Challenger.SyncState` | fault-proof/src/challenger.rs:208-318 | a completed sync is at the latest index and each game has no flag or exactly those of its own block; a game leaves only if nothing is left to do; with all reads answered every checkable game has exactly the flags the fields call for, and no readable index stays in the retry set; a regressed head is refused |
| `Challengers.Challenger.RetryPending` | fault-proof/src/challenger.rs:215-236 | the retry set only shrinks, and with all reads answered every readable index leaves it |
| `Challengers.Challenger.ChallengeGame` | fault-proof/src/challenger.rs:557-613 | sends this game's challenge if and only if sending is enabled and its contract is eligible at the given latest head |
| `Challengers.Challenger.HandleGameChallenging` | fault-proof/src/challenger.rs:546-613 | a round challenges every flagged game that is eligible at its own latest head and no other, and nothing in monitor-only mode |
| `Challengers.Challenger.RunCycle` | fault-proof/src/challenger.rs:105-117 | one cycle: with all reads answered and sending enabled, every checkable game that is judged invalid or has a lost parent at the pinned block, is open there, and is still open at its latest head is challenged in it; a failed sync sends nothing |
| `SequenceTrackers.SequenceTracker.Add` | utils/common/src/sequence_tracker.rs:24-34 | the end is the end of the contiguous run in the set added so far |
| `SequenceTrackers.RunEndIsUnique` | utils/common/src/sequence_tracker.rs:3-6 | the end depends only on the set added |
| `MonitorMachine.StepKeepsInv` | scripts/utils/bin/game_monitor.rs:531-808 | every step keeps each discovered index in exactly one place with a fitting attempt count |
| `MonitorMachine.FailureKeepsInv` | scripts/utils/bin/game_monitor.rs:714-808 | a failed attempt is requeued, counted as exhausted, or left in the background queue |
| `MonitorMachine.FailedAttemptsAreCounted` | scripts/utils/bin/game_monitor.rs:783-804 | in every run a background attempt is one above its entry's count, and when it fails the entry's count becomes that attempt's number |
| `MonitorMachine.NoGameIsForgotten` | scripts/utils/bin/game_monitor.rs:1605-1672 | in every reachable state a discovered index is pending, running or recorded, and no game is twice in the background queue |
| `MonitorMachine.SavedProgressPassesOverNothing` | scripts/utils/bin/game_monitor.rs:347-357 | every index above the start and up to the saved one was recorded for a reason that an earlier step bears out, and an exhausted one failed exactly its primary attempts |
| `MonitorMachine.RecordedReasonsAreEarned` | scripts/utils/bin/game_monitor.rs:659-808 | a recorded success needs an earlier successful primary exit, a wrong type an earlier sighting, and exhaustion exactly that many failed primary exits |
| `MonitorMachine.StartIndexCountsAsDone` | scripts/utils/bin/game_monitor.rs:407-421 | a run that saves progress past the starting index while it still waits |
| `Monitors.Dedup` | scripts/utils/bin/game_monitor.rs:1170-1179 | one entry per game, the first one, and no game dropped entirely |
| `Monitors.Monitor.constructor` | scripts/utils/bin/game_monitor.rs:390-422 | a run starts with only the loaded background entries |
| `Monitors.Monitor.SaveProgress` | scripts/utils/bin/game_monitor.rs:453-468 | writes the tracker's end, or leaves the old value when the write fails |
| `Monitors.Monitor.Mark` | scripts/utils/bin/game_monitor.rs:442-450 | the index joins the tracker's set |
| `Monitors.Monitor.FinishProcess` | scripts/utils/bin/game_monitor.rs:659-808 | an ended process is exactly one exit step with the given result; the game is recorded, requeued with one more retry, moved to the background, dropped from it or counted there as kind and result demand; nothing else that waits is lost, and a moved end is saved |
| `Monitors.Monitor.CleanupFinished` | scripts/utils/bin/game_monitor.rs:531-712 | each process that ended is booked once with its own result and leaves the running map, and no other |
| `Monitors.Monitor.EvictAged` | scripts/utils/bin/game_monitor.rs:818-845 | drops exactly the aged background entries that are not running |
| `Monitors.Monitor.HandleWrongGameType` | scripts/utils/bin/game_monitor.rs:966-977 | the game leaves the queue it waited in, is recorded if it was a first-tier attempt, and no other game's entry is lost |
| `Monitors.Monitor.SpawnGame` | scripts/utils/bin/game_monitor.rs:865-977 | a failed or deferred spawn changes nothing; a started game runs with the given kind; a wrong type is recorded or leaves the background queue; no other entry is touched |
| `Monitors.Monitor.SpawnPrimary` | scripts/utils/bin/game_monitor.rs:1601-1621 | the running processes never exceed the slots unless they already did; if slots are left at the end every due waiting game was started, recorded as of the wrong type, or still waits for the L2 |
| `Monitors.Monitor.SpawnBackground` | scripts/utils/bin/game_monitor.rs:1623-1645 | processes are only added and never beyond the slots; if slots are left every due background entry whose game did not run was tried, a start carrying the entry's count plus one |
| `Monitors.Monitor.DiscoverNew` | scripts/utils/bin/game_monitor.rs:1647-1672 | every index below the factory's count is queued once |
| `Monitors.Monitor.Poll` | scripts/utils/bin/game_monitor.rs:1565-1673 | every ended process is booked with its own result; no more processes run than before or than there are slots; unless a read fails every new index is queued and, while slots last, every game whose turn has come is tried; a moved end is saved |

## Left out

- RPC transport, contract bindings, signing, transaction sending, gas estimation, metrics and logging: reads and receipts are nondeterministic answers.
- The SQL of the request database: the table is a map, a query is a filter on it, and deleting a row is not a separate step.
- SP1 proving, SHA-256, Keccak, ABI, bincode and CBOR: functions that lemmas quantify over.
- The challenger's claim validator (`op_stack_game_validator.rs`): an answer of valid, invalid or unavailable.
- Fixed-width integers: block numbers, indices and gas sums are unbounded, except the `u64` saturation in `split` and the challenger's `u64` overflow verdict; the gas sum's `u64` overflow is not modelled.
- The upward search for a free L2 block before a creation transaction: the receipt only says that the block is no lower than the requested one.
- `Proposers.Proposer.SpawnGameCreation`: the respected-type, verification-key and fast-finality checks are one nondeterministic answer, since they only hold a creation back.
- `RequestTables.RequestBook.Propose`: the aggregation request, its proof and its submission are one atomic advance to the end of the chain; a proposed block never moves back.
- The choice of L1 checkpoint for an aggregation request (`select_checkpoint_block_number`): one maximum.
- `Monitors.Monitor.EvictAged`: ages, delays and backoff durations are not modelled; which entry is due or too old is an input of each iteration, which covers every schedule.
- `Monitors.Monitor.SaveProgress`: the file holds the index only; the background entries saved beside it are not modelled.
- A crash of the monitor between a step and its save: a new run starts from the saved index plus one.
- Resolving, closing and claiming in the proposer and the challenger: their flags are modelled, the transactions are not.
- Malicious challenge mode, backup files, log-file management, cost estimation and command-line tools: no invariant of their own.
- The public `fetch_game` of the proposer: the sync loop does not use it.

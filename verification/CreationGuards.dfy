/** The duplicate-creation guard: the last game this proposer created, until the cache has caught up with it. */
module CreationGuards {
  import opened Prelude
  import opened L1Chain
  import opened GameGraph
  import opened Factory

  datatype Observation = Observation(l1Block: nat, id: ProposalId)

  datatype CreationGuard = CreationGuard(l2Block: nat, address: Address, observation: Option<Observation>)

  const NO_GUARD := CreationGuard(0, ZERO_ADDRESS, None)

  /** `tip` may overrule the guard: it is no older than the block where the game was last seen. */
  predicate MayOverrule(g: CreationGuard, tip: Header) {
    g.observation.Some? && g.observation.value.l1Block <= tip.number
  }

  /** What the factory answers for a proposal at one block: its proxy, or zero if it has none. */
  ghost predicate IsLookup(cfg: Config, snap: Snapshot, id: ProposalId, found: Address) {
    if found == ZERO_ADDRESS then forall at :: !HoldsProposal(cfg, snap, id, at)
    else HoldsProposal(cfg, snap, id, found)
  }

  /** The guard once the tip has been asked for its game. */
  function Reconciled(g: CreationGuard, tip: Header, found: Address): CreationGuard
    requires MayOverrule(g, tip)
  {
    if found == ZERO_ADDRESS then NO_GUARD
    else g.(address := found, observation := Some(g.observation.value.(l1Block := tip.number)))
  }

  /** The guarded game is the cached one at `index`. */
  predicate Guards(g: CreationGuard, games: Cache, index: nat) {
    g.address != ZERO_ADDRESS && index in games && games[index].address == g.address
  }

  /** The guard after the games in `gone` have left the cache for good. */
  ghost function Cleared(g: CreationGuard, games: Cache, gone: set<nat>): CreationGuard {
    if exists i :: i in gone && Guards(g, games, i) then NO_GUARD else g
  }
}

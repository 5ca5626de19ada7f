/**
 What the L1 contracts hold at each block: the dispute game factory's append-only list of games,
 and the anchor state registry.
 */
module Factory {
  import opened Prelude
  import opened L1Chain
  import opened GameGraph

  /** Fixed when a game is created. */
  datatype GameFacts = GameFacts(
    address: Address,
    gameType: nat,
    registry: Address,
    l2Block: nat,
    claim: nat,
    wasRespected: bool,
    parentIndex: nat,
    keys: Keys)

  /** Changes while a game is played out. `credit` is the credit of this proposer's signer. */
  datatype GameLive = GameLive(
    status: GameStatus,
    proposalStatus: ProposalStatus,
    deadline: nat,
    isFinalized: bool,
    bondUndecided: bool,
    credit: nat,
    creator: Address,
    prover: Address)

  datatype ChainGame = ChainGame(facts: GameFacts, live: GameLive)

  datatype Snapshot = Snapshot(games: seq<ChainGame>, anchorGame: Address, anchorL2Block: nat)

  /** `outputRoot` is the L2 node's answer for a block, the same at every L1 block. */
  datatype World = World(tree: BlockTree, at: map<Hash, Snapshot>, outputRoot: nat -> nat)

  datatype Config = Config(
    confirmations: nat,
    gameType: nat,
    registry: Address,
    identity: Keys,
    signer: Address,
    proposalInterval: nat)

  /** `later` keeps every game of `earlier` at its index and may append more. */
  ghost predicate Extends(earlier: Snapshot, later: Snapshot) {
    && |earlier.games| <= |later.games|
    && forall i :: 0 <= i < |earlier.games| ==> earlier.games[i].facts == later.games[i].facts
  }

  /** A block keeps the games of its parent. */
  ghost predicate ExtendsParent(w: World, h: Hash)
    requires w.tree.Keys <= w.at.Keys
  {
    h in w.tree && w.tree[h].number > 0 && w.tree[h].parentHash in w.tree ==>
      Extends(w.at[w.tree[h].parentHash], w.at[h])
  }

  ghost predicate ValidWorld(w: World) {
    && WellFormed(w.tree)
    && w.tree.Keys <= w.at.Keys
    && (forall h :: ExtendsParent(w, h))
    && forall h, i :: h in w.tree && 0 <= i < |w.at[h].games| ==>
                        w.at[h].games[i].facts.address != ZERO_ADDRESS
  }

  lemma {:induction false} ExtendsEveryAncestor(w: World, h: Hash, n: nat)
    requires ValidWorld(w) && h in w.tree && n <= w.tree[h].number
    ensures Extends(w.at[AncestorAt(w.tree, h, n)], w.at[h])
    decreases w.tree[h].number
  {
    assert GoodHeader(w.tree, h) && ExtendsParent(w, h);
    if w.tree[h].number == n {
    } else {
      ExtendsEveryAncestor(w, w.tree[h].parentHash, n);
    }
  }

  datatype FetchResult =
    | ValidGame(game: Game)
    | UnsupportedType(address: Address)
    | UnsupportedRegistry(address: Address)
    | InvalidGame(index: nat)

  /** The cache entry that a fresh read of game `i` produces. */
  function GameFrom(snap: Snapshot, i: nat): Game
    requires i < |snap.games|
  {
    var g := snap.games[i];
    Game(i, g.facts.address, g.facts.parentIndex, g.facts.l2Block, g.live.status,
         g.live.proposalStatus, g.live.deadline, NO_FLAGS, g.facts.keys)
  }

  function Classify(w: World, cfg: Config, snap: Snapshot, i: nat): FetchResult
    requires i < |snap.games|
  {
    var facts := snap.games[i].facts;
    if facts.gameType != cfg.gameType then UnsupportedType(facts.address)
    else if facts.registry != cfg.registry then UnsupportedRegistry(facts.address)
    else if !facts.wasRespected then InvalidGame(i)
    else if w.outputRoot(facts.l2Block) != facts.claim then InvalidGame(i)
    else ValidGame(GameFrom(snap, i))
  }

  /** A game of our type and registry that was respected when created and claims the L2 node's own root. */
  ghost predicate IsGenuine(w: World, cfg: Config, snap: Snapshot, i: nat) {
    && i < |snap.games|
    && var facts := snap.games[i].facts;
       && facts.gameType == cfg.gameType && facts.registry == cfg.registry
       && facts.wasRespected && facts.claim == w.outputRoot(facts.l2Block)
  }

  /** A game of our type and registry that was not respected or claims another root. */
  ghost predicate IsImpostor(w: World, cfg: Config, snap: Snapshot, i: nat) {
    && i < |snap.games|
    && var facts := snap.games[i].facts;
       && facts.gameType == cfg.gameType && facts.registry == cfg.registry
       && (!facts.wasRespected || facts.claim != w.outputRoot(facts.l2Block))
  }

  /** What a read says, in the chain's own fields: which games are valid, which invalid, and what a valid one looks like. */
  lemma ReadInFacts(w: World, cfg: Config, snap: Snapshot, i: nat)
    requires i < |snap.games|
    ensures Classify(w, cfg, snap, i).ValidGame? <==> IsGenuine(w, cfg, snap, i)
    ensures Classify(w, cfg, snap, i).InvalidGame? <==> IsImpostor(w, cfg, snap, i)
    ensures Classify(w, cfg, snap, i).ValidGame? ==>
              var g, chain := Classify(w, cfg, snap, i).game, snap.games[i];
              && g.index == i && g.address == chain.facts.address && g.parentIndex == chain.facts.parentIndex
              && g.l2Block == chain.facts.l2Block && g.keys == chain.facts.keys && g.status == chain.live.status
              && g.proposalStatus == chain.live.proposalStatus && g.deadline == chain.live.deadline && g.flags == NO_FLAGS
    ensures Classify(w, cfg, snap, i).UnsupportedType? <==> snap.games[i].facts.gameType != cfg.gameType
    ensures Classify(w, cfg, snap, i).UnsupportedType? ==> Classify(w, cfg, snap, i).address == snap.games[i].facts.address
  {
  }

  /** `read_game`: any of its calls may fail, and reading past the end always does. */
  method ReadGame(w: World, cfg: Config, snap: Snapshot, i: nat, healthy: bool) returns (r: Result<FetchResult>)
    ensures r.Ok? ==> i < |snap.games| && r.value == Classify(w, cfg, snap, i)
    ensures healthy && i < |snap.games| ==> r.Ok?
  {
    var answered: bool := *;
    r := if (healthy || answered) && i < |snap.games| then Ok(Classify(w, cfg, snap, i)) else Err;
  }

  /** The cached entry carries the creation-time facts that the chain holds at this index. */
  ghost predicate MatchesFacts(snap: Snapshot, i: nat, g: Game) {
    && i < |snap.games|
    && g.index == i
    && g.address == snap.games[i].facts.address
    && g.parentIndex == snap.games[i].facts.parentIndex
    && g.l2Block == snap.games[i].facts.l2Block
    && g.keys == snap.games[i].facts.keys
  }

  ghost predicate Admitted(w: World, cfg: Config, snap: Snapshot, i: nat, g: Game) {
    MatchesFacts(snap, i, g) && Classify(w, cfg, snap, i).ValidGame?
  }

  lemma AdmittedSurvivesExtension(w: World, cfg: Config, earlier: Snapshot, later: Snapshot, i: nat, g: Game)
    requires Extends(earlier, later) && Admitted(w, cfg, earlier, i, g)
    ensures Admitted(w, cfg, later, i, g)
  {
    assert earlier.games[i].facts == later.games[i].facts;
  }

  predicate IsOwned(keys: Keys, cfg: Config) {
    keys == cfg.identity
  }

  predicate ParentResolved(snap: Snapshot, parent: nat) {
    parent == NO_PARENT || (parent < |snap.games| && snap.games[parent].live.status != InProgress)
  }

  /** The proposal needs no more moves. */
  predicate IsOver(live: GameLive, now: nat) {
    match live.proposalStatus
    case Unchallenged => now >= live.deadline
    case UnchallengedAndProven => true
    case ChallengedAndProven => true
    case _ => false
  }

  predicate IsOwnGame(live: GameLive, signer: Address) {
    match live.proposalStatus
    case Unchallenged => live.creator == signer
    case UnchallengedAndProven => live.creator == signer || live.prover == signer
    case ChallengedAndProven => live.creator == signer || live.prover == signer
    case _ => false
  }

  /** The action flags that the chain state at one block calls for. */
  function FlagsAt(cfg: Config, snap: Snapshot, now: nat, i: nat): Flags
    requires i < |snap.games|
  {
    var facts, live := snap.games[i].facts, snap.games[i].live;
    match live.status
    case InProgress =>
      Flags(facts.gameType == cfg.gameType && ParentResolved(snap, facts.parentIndex)
            && IsOver(live, now) && IsOwnGame(live, cfg.signer), false, false)
    case DefenderWins =>
      if !live.isFinalized then NO_FLAGS
      else if IsOwned(facts.keys, cfg) && live.bondUndecided then Flags(false, true, false)
      else if live.credit > 0 then Flags(false, false, true)
      else NO_FLAGS
    case ChallengerWins => NO_FLAGS
  }

  /** Closed in the proposer's favour with nothing left to claim. */
  predicate IsSpent(cfg: Config, snap: Snapshot, i: nat)
    requires i < |snap.games|
  {
    var live := snap.games[i].live;
    && live.status == DefenderWins && live.isFinalized
    && !(IsOwned(snap.games[i].facts.keys, cfg) && live.bondUndecided)
    && live.credit == 0
  }

  datatype SyncAction =
    | Update(index: nat, status: GameStatus, proposalStatus: ProposalStatus, deadline: nat, flags: Flags)
    | Remove(index: nat)
    | RemoveSubtree(index: nat)

  /** The status pass for one cached game: refresh it, evict it, or drop its subtree. */
  function Decide(cfg: Config, snap: Snapshot, now: nat, head: Option<nat>, i: nat): SyncAction
    requires i < |snap.games|
  {
    var live := snap.games[i].live;
    var refresh := Update(i, live.status, live.proposalStatus, live.deadline, FlagsAt(cfg, snap, now, i));
    match live.status
    case InProgress => refresh
    case ChallengerWins => RemoveSubtree(i)
    case DefenderWins =>
      if !live.isFinalized then refresh
      else if IsOwned(snap.games[i].facts.keys, cfg) && live.bondUndecided then refresh
      else if live.credit > 0 then refresh
      else if head == Some(i) then refresh
      else if snap.anchorGame == snap.games[i].facts.address then refresh
      else Remove(i)
  }

  /** Everything a cached entry says is what the chain holds at this block. */
  ghost predicate Fresh(cfg: Config, snap: Snapshot, now: nat, i: nat, g: Game) {
    && i < |snap.games|
    && g == GameFrom(snap, i).(flags := FlagsAt(cfg, snap, now, i))
    && g.status != ChallengerWins
  }

  ghost predicate AllAdmitted(w: World, cfg: Config, snap: Snapshot, games: Cache) {
    forall i :: i in games ==> Admitted(w, cfg, snap, i, games[i])
  }

  ghost predicate AllFresh(cfg: Config, snap: Snapshot, now: nat, games: Cache) {
    forall i :: i in games ==> Fresh(cfg, snap, now, i, games[i])
  }

  predicate IsLost(snap: Snapshot, i: nat) {
    i < |snap.games| && snap.games[i].live.status == ChallengerWins
  }

  /** Every game of the factory, as a graph. */
  function AllGames(snap: Snapshot): Cache {
    map i: nat | i < |snap.games| :: GameFrom(snap, i)
  }

  /** What hangs below a game in the cache hangs below it in the factory. */
  lemma CachedSubtreeIsReal(w: World, cfg: Config, snap: Snapshot, games: Cache, root: nat)
    requires AllAdmitted(w, cfg, snap, games)
    ensures Descendants(games, root) <= Descendants(AllGames(snap), root)
  {
    forall i | i in games ensures i in AllGames(snap) && games[i].parentIndex == AllGames(snap)[i].parentIndex {
      assert Admitted(w, cfg, snap, i, games[i]);
    }
    DescendantsShrink(AllGames(snap), games, root);
  }

  /** A reason, in terms of one block alone, why a game need not be cached. */
  ghost predicate Excused(w: World, cfg: Config, snap: Snapshot, i: nat) {
    || |snap.games| <= i
    || !Classify(w, cfg, snap, i).ValidGame?
    || IsSpent(cfg, snap, i)
    || exists root :: IsRejected(w, cfg, snap, root) && i in Descendants(AllGames(snap), root)
  }

  /** A lost or an invalid game takes everything below it along. */
  ghost predicate IsRejected(w: World, cfg: Config, snap: Snapshot, root: nat) {
    root < |snap.games| && (IsLost(snap, root) || Classify(w, cfg, snap, root).InvalidGame?)
  }

  /** The factory's lookup key for a proposal; the extra data packs the last two fields. */
  datatype ProposalId = ProposalId(outputRoot: nat, l2Block: nat, parentIndex: nat)

  ghost predicate HoldsProposal(cfg: Config, snap: Snapshot, id: ProposalId, at: Address) {
    exists i ::
      && 0 <= i < |snap.games|
      && snap.games[i].facts.gameType == cfg.gameType
      && snap.games[i].facts.claim == id.outputRoot
      && snap.games[i].facts.l2Block == id.l2Block
      && snap.games[i].facts.parentIndex == id.parentIndex
      && snap.games[i].facts.address == at
  }

  /** `factory.games(..)`: the proxy of the proposal at one block, or the zero address. */
  method LookUpProposal(cfg: Config, snap: Snapshot, id: ProposalId, healthy: bool) returns (r: Result<Address>)
    requires forall i :: 0 <= i < |snap.games| ==> snap.games[i].facts.address != ZERO_ADDRESS
    ensures r.Ok? && r.value != ZERO_ADDRESS ==> HoldsProposal(cfg, snap, id, r.value)
    ensures r.Ok? && r.value == ZERO_ADDRESS ==> forall at :: !HoldsProposal(cfg, snap, id, at)
    ensures healthy ==> r.Ok?
  {
    var answered: bool := *;
    if !(healthy || answered) {
      return Err;
    }
    for i := 0 to |snap.games|
      invariant forall j :: 0 <= j < i ==>
                  !(&& snap.games[j].facts.gameType == cfg.gameType
                    && snap.games[j].facts.claim == id.outputRoot
                    && snap.games[j].facts.l2Block == id.l2Block
                    && snap.games[j].facts.parentIndex == id.parentIndex)
    {
      var facts := snap.games[i].facts;
      if && facts.gameType == cfg.gameType
         && facts.claim == id.outputRoot
         && facts.l2Block == id.l2Block
         && facts.parentIndex == id.parentIndex
      {
        return Ok(facts.address);
      }
    }
    r := Ok(ZERO_ADDRESS);
  }
}

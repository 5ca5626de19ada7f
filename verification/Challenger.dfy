/**
 The challenger's lifecycle: discovery with a cursor and a retry set, per-game refresh, and
 challenging, under arbitrary RPC failure. `ChallengerMachine` has the steps and what every run keeps;
 the class `Challenger` below implements them.
 */
module ChallengerMachine {
  import opened Prelude
  import opened GameGraph

  const U64_MAX: nat := 0xFFFF_FFFF_FFFF_FFFF

  datatype Verdict = Valid | Invalid | Unavailable

  /** A dispute game contract at one L1 block. `credit` is this challenger's credit. */
  datatype Contract = Contract(
    gameType: nat, registry: Address, wasRespected: bool, l2Block: nat, parentIndex: nat,
    status: GameStatus, proposalStatus: ProposalStatus, deadline: nat, counteredBy: Address,
    isFinalized: bool, bondUndecided: bool, credit: nat)

  /** The pinned block: the factory's list of game addresses, and the contracts behind them. */
  datatype Snapshot = Snapshot(number: nat, now: nat, games: seq<Address>, contracts: map<Address, Contract>)

  datatype Config = Config(gameType: nat, registry: Address, signer: Address)

  datatype ActionFlags = ActionFlags(challenge: bool, resolve: bool, close: bool, claim: bool)

  const NO_ACTIONS := ActionFlags(false, false, false, false)

  datatype TrackedGame = TrackedGame(
    address: Address, parentIndex: nat, l2Block: nat, status: GameStatus, proposalStatus: ProposalStatus,
    deadline: nat, verdict: Verdict, flags: ActionFlags)

  predicate Readable(snap: Snapshot, index: nat) {
    index < |snap.games| && snap.games[index] in snap.contracts
  }

  /** What a successful fetch of `index` adds to the cache, if anything. */
  function Admit(cfg: Config, snap: Snapshot, index: nat): Option<TrackedGame>
    requires Readable(snap, index)
  {
    var address := snap.games[index];
    var c := snap.contracts[address];
    if c.gameType != cfg.gameType || c.registry != cfg.registry || !c.wasRespected then None
    else Some(TrackedGame(address, c.parentIndex, c.l2Block, c.status, c.proposalStatus, c.deadline,
                          if c.l2Block > U64_MAX then Invalid else Unavailable, NO_ACTIONS))
  }

  predicate ParentLost(snap: Snapshot, parent: nat) {
    parent != NO_PARENT && Readable(snap, parent) && snap.contracts[snap.games[parent]].status == ChallengerWins
  }

  predicate ParentDone(snap: Snapshot, parent: nat) {
    parent == NO_PARENT || (Readable(snap, parent) && snap.contracts[snap.games[parent]].status != InProgress)
  }

  predicate CallsForVerdict(snap: Snapshot, c: Contract) {
    c.status == InProgress && c.proposalStatus == Unchallenged && snap.now < c.deadline
  }

  /** A settled verdict stands; an unavailable one may be replaced while it still matters. */
  ghost predicate VerdictMayBecome(snap: Snapshot, c: Contract, g: TrackedGame, verdict: Verdict) {
    if g.verdict == Unavailable && CallsForVerdict(snap, c)
    then g.l2Block > U64_MAX ==> verdict == Invalid
    else verdict == g.verdict
  }

  /** The flags that the chain and the verdict call for. */
  function FlagsFor(cfg: Config, snap: Snapshot, c: Contract, parent: nat, verdict: Verdict): ActionFlags {
    match c.status
    case InProgress =>
      ActionFlags(CallsForVerdict(snap, c) && (verdict == Invalid || ParentLost(snap, parent)),
                  c.proposalStatus == Challenged && snap.now >= c.deadline && c.counteredBy == cfg.signer
                  && ParentDone(snap, parent),
                  false, false)
    case ChallengerWins =>
      ActionFlags(false, false, c.isFinalized && c.bondUndecided && c.counteredBy == cfg.signer,
                  c.isFinalized && !c.bondUndecided && c.credit > 0)
    case DefenderWins => NO_ACTIONS
  }

  /** Nothing is left to do for the game. */
  predicate IsDone(cfg: Config, c: Contract) {
    || c.status == DefenderWins
    || (&& c.status == ChallengerWins && c.isFinalized
        && (if c.bondUndecided then c.counteredBy != cfg.signer else c.credit == 0))
  }

  function RefreshedGame(cfg: Config, snap: Snapshot, c: Contract, g: TrackedGame, verdict: Verdict): TrackedGame {
    g.(status := c.status, proposalStatus := c.proposalStatus, deadline := c.deadline, verdict := verdict,
       flags := FlagsFor(cfg, snap, c, g.parentIndex, verdict))
  }

  predicate PreflightReady(status: GameStatus, proposalStatus: ProposalStatus, now: nat, deadline: nat) {
    status == InProgress && proposalStatus == Unchallenged && now < deadline
  }

  /** The preflight of a game: its own contract, read at the block `latest`. */
  predicate Eligible(latest: Snapshot, g: TrackedGame) {
    && g.address in latest.contracts
    && var c := latest.contracts[g.address];
       PreflightReady(c.status, c.proposalStatus, latest.now, c.deadline)
  }

  /** A submitted challenge, with the pinned block and the latest head it was checked at. */
  datatype Challenge = Challenge(index: nat, game: TrackedGame, snap: Snapshot, latest: Snapshot)

  datatype Phase = Idle | Discovering(snap: Snapshot) | Refreshing(snap: Snapshot, stale: set<nat>) | Ready(snap: Snapshot)

  datatype State = State(
    cursor: Option<nat>, games: map<nat, TrackedGame>, pending: set<nat>, highest: nat,
    phase: Phase, fetched: set<nat>, sent: seq<Challenge>)

  const START := State(None, map[], {}, 0, Idle, {}, [])

  function NextIndex(cursor: Option<nat>): nat {
    if cursor.Some? then cursor.value + 1 else 0
  }

  datatype Step =
    | Begin(snap: Snapshot)
    | Fetched(index: nat)
    | FetchFailed(index: nat)
    | StartRefresh
    | Refreshed(index: nat, verdict: Verdict)
    | Evicted(index: nat)
    | RefreshFailed(index: nat)
    | Finish
    | Abort
    | Submitted(index: nat, latest: Snapshot, confirmed: bool)
    | LoggedOnly(index: nat, latest: Snapshot)

  ghost predicate Enabled(cfg: Config, s: State, e: Step) {
    match e
    case Begin(snap) => s.highest <= snap.number
    case Fetched(index) =>
      s.phase.Discovering? && Readable(s.phase.snap, index) && (index in s.pending || index == NextIndex(s.cursor))
    case FetchFailed(index) =>
      s.phase.Discovering? && (index in s.pending || index == NextIndex(s.cursor))
    case StartRefresh => s.phase.Discovering? && |s.phase.snap.games| <= NextIndex(s.cursor)
    case Refreshed(index, verdict) =>
      && s.phase.Refreshing? && index in s.phase.stale && index in s.games
      && s.games[index].address in s.phase.snap.contracts
      && !IsDone(cfg, s.phase.snap.contracts[s.games[index].address])
      && VerdictMayBecome(s.phase.snap, s.phase.snap.contracts[s.games[index].address], s.games[index], verdict)
    case Evicted(index) =>
      && s.phase.Refreshing? && index in s.phase.stale && index in s.games
      && s.games[index].address in s.phase.snap.contracts
      && IsDone(cfg, s.phase.snap.contracts[s.games[index].address])
    case RefreshFailed(index) => s.phase.Refreshing? && index in s.phase.stale && index in s.games
    case Finish => s.phase.Refreshing? && s.phase.stale == {}
    case Abort => true
    case Submitted(index, latest, _) =>
      s.phase.Ready? && index in s.games && s.games[index].flags.challenge && Eligible(latest, s.games[index])
    case LoggedOnly(index, latest) =>
      s.phase.Ready? && index in s.games && s.games[index].flags.challenge && Eligible(latest, s.games[index])
  }

  function ClearFlag(games: map<nat, TrackedGame>, index: nat): map<nat, TrackedGame> {
    if index in games then games[index := games[index].(flags := games[index].flags.(challenge := false))] else games
  }

  ghost function Next(cfg: Config, s: State, e: Step): State
    requires Enabled(cfg, s, e)
  {
    match e
    case Begin(snap) => s.(phase := Discovering(snap), highest := snap.number)
    case Fetched(index) =>
      var game := Admit(cfg, s.phase.snap, index);
      s.(games := if game.Some? then s.games[index := game.value] else s.games,
         cursor := if index in s.pending then s.cursor else Some(index),
         pending := s.pending - {index},
         fetched := s.fetched + {index})
    case FetchFailed(index) =>
      if index in s.pending then s else s.(cursor := Some(index), pending := s.pending + {index})
    case StartRefresh => s.(phase := Refreshing(s.phase.snap, s.games.Keys))
    case Refreshed(index, verdict) =>
      var g := s.games[index];
      s.(games := s.games[index := RefreshedGame(cfg, s.phase.snap, s.phase.snap.contracts[g.address], g, verdict)],
         phase := s.phase.(stale := s.phase.stale - {index}))
    case Evicted(index) => s.(games := s.games - {index}, phase := s.phase.(stale := s.phase.stale - {index}))
    case RefreshFailed(index) =>
      s.(games := s.games[index := s.games[index].(flags := NO_ACTIONS)],
         phase := s.phase.(stale := s.phase.stale - {index}))
    case Finish => s.(phase := Ready(s.phase.snap))
    case Abort => s.(phase := Idle)
    case Submitted(index, latest, confirmed) =>
      s.(sent := s.sent + [Challenge(index, s.games[index], s.phase.snap, latest)],
         games := if confirmed then ClearFlag(s.games, index) else s.games)
    case LoggedOnly(index, _) => s.(games := ClearFlag(s.games, index))
  }

  // ----- invariants -----

  /** Each index up to the cursor was fetched or waits for a retry; nothing beyond it was touched. */
  ghost predicate NothingSkipped(s: State) {
    && (forall i :: i in s.fetched || i in s.pending <==> 0 <= i < NextIndex(s.cursor))
    && s.fetched !! s.pending
    && s.games.Keys <= s.fetched
  }

  predicate AtMostOne(f: ActionFlags) {
    && (f.challenge ==> !f.resolve && !f.close && !f.claim)
    && (f.resolve ==> !f.close && !f.claim)
    && (f.close ==> !f.claim)
  }

  /** Why a game may be challenged: it was judged invalid, or its parent had lost at the pinned block. */
  ghost predicate Deserved(snap: Snapshot, g: TrackedGame) {
    g.verdict == Invalid || ParentLost(snap, g.parentIndex)
  }

  /** Everything a cached game says about its contract is what the contract holds at `snap`, flags included. */
  ghost predicate UpToDate(cfg: Config, snap: Snapshot, g: TrackedGame) {
    && g.address in snap.contracts
    && var c := snap.contracts[g.address];
       && !IsDone(cfg, c)
       && g.status == c.status && g.proposalStatus == c.proposalStatus && g.deadline == c.deadline
       && g.flags == FlagsFor(cfg, snap, c, g.parentIndex, g.verdict)
  }

  /** A game has exactly the flags its contract and verdict call for at `snap`, or none at all. */
  ghost predicate FlagsFromBlock(cfg: Config, snap: Snapshot, g: TrackedGame) {
    g.flags == NO_ACTIONS || UpToDate(cfg, snap, g)
  }

  /** The parent of a game that has one is a contract of the block, in this status. */
  ghost predicate ParentIs(snap: Snapshot, g: TrackedGame, status: GameStatus) {
    && g.parentIndex != NO_PARENT && g.parentIndex < |snap.games| && snap.games[g.parentIndex] in snap.contracts
    && snap.contracts[snap.games[g.parentIndex]].status == status
  }

  /** Open to a challenge at the block, and wrong: judged invalid, or resting on a lost parent. */
  ghost predicate DeservesChallenge(snap: Snapshot, g: TrackedGame) {
    && g.address in snap.contracts
    && var c := snap.contracts[g.address];
       && c.status == InProgress && c.proposalStatus == Unchallenged && snap.now < c.deadline
       && (g.verdict == Invalid || ParentIs(snap, g, ChallengerWins))
  }

  /** Challenged by this signer, past its deadline, on no parent or a resolved one. */
  ghost predicate DeservesResolution(cfg: Config, snap: Snapshot, g: TrackedGame) {
    && g.address in snap.contracts
    && var c := snap.contracts[g.address];
       && c.status == InProgress && c.proposalStatus == Challenged && c.deadline <= snap.now
       && c.counteredBy == cfg.signer
       && (g.parentIndex == NO_PARENT || ParentIs(snap, g, ChallengerWins) || ParentIs(snap, g, DefenderWins))
  }

  /** Won and final, with this signer's bond still to be settled, or settled and to be claimed. */
  ghost predicate DeservesClose(cfg: Config, snap: Snapshot, g: TrackedGame) {
    && g.address in snap.contracts
    && var c := snap.contracts[g.address];
       c.status == ChallengerWins && c.isFinalized && c.bondUndecided && c.counteredBy == cfg.signer
  }

  ghost predicate DeservesClaim(snap: Snapshot, g: TrackedGame) {
    && g.address in snap.contracts
    && var c := snap.contracts[g.address];
       c.status == ChallengerWins && c.isFinalized && !c.bondUndecided && c.credit > 0
  }

  /** Each flag is set exactly when the contracts at the block and the verdict call for it. */
  ghost predicate HasExactFlags(cfg: Config, snap: Snapshot, g: TrackedGame) {
    && (g.flags.challenge <==> DeservesChallenge(snap, g))
    && (g.flags.resolve <==> DeservesResolution(cfg, snap, g))
    && (g.flags.close <==> DeservesClose(cfg, snap, g))
    && (g.flags.claim <==> DeservesClaim(snap, g))
  }

  /** Lost to the defender, or won and final with nothing of this signer's left in it. */
  ghost predicate NothingLeft(cfg: Config, snap: Snapshot, g: TrackedGame) {
    && g.address in snap.contracts
    && var c := snap.contracts[g.address];
       || c.status == DefenderWins
       || (c.status == ChallengerWins && c.isFinalized && c.bondUndecided && c.counteredBy != cfg.signer)
       || (c.status == ChallengerWins && c.isFinalized && !c.bondUndecided && c.credit == 0)
  }

  lemma UpToDateMeansExactFlags(cfg: Config, snap: Snapshot, g: TrackedGame)
    requires UpToDate(cfg, snap, g)
    ensures HasExactFlags(cfg, snap, g) && !NothingLeft(cfg, snap, g)
  {
  }

  /** Every flag comes from the block of this cycle, as soon as the game has been visited in it. */
  ghost predicate FlagsJustified(cfg: Config, s: State) {
    match s.phase
    case Ready(snap) => forall i :: i in s.games ==> FlagsFromBlock(cfg, snap, s.games[i])
    case Refreshing(snap, stale) => forall i :: i in s.games && i !in stale ==> FlagsFromBlock(cfg, snap, s.games[i])
    case _ => true
  }

  ghost predicate Inv(cfg: Config, s: State) {
    && NothingSkipped(s)
    && (forall i :: i in s.games ==> AtMostOne(s.games[i].flags))
    && FlagsJustified(cfg, s)
    && forall k :: 0 <= k < |s.sent| ==> Deserved(s.sent[k].snap, s.sent[k].game) && Eligible(s.sent[k].latest, s.sent[k].game)
  }

  lemma RefreshKeepsInv(cfg: Config, s: State, index: nat, verdict: Verdict)
    requires Inv(cfg, s) && Enabled(cfg, s, Refreshed(index, verdict))
    ensures Inv(cfg, Next(cfg, s, Refreshed(index, verdict)))
  {
  }

  lemma SubmitKeepsInv(cfg: Config, s: State, index: nat, latest: Snapshot, confirmed: bool)
    requires Inv(cfg, s) && Enabled(cfg, s, Submitted(index, latest, confirmed))
    ensures Inv(cfg, Next(cfg, s, Submitted(index, latest, confirmed)))
  {
    var t := Next(cfg, s, Submitted(index, latest, confirmed));
    forall k | 0 <= k < |t.sent| ensures Deserved(t.sent[k].snap, t.sent[k].game) && Eligible(t.sent[k].latest, t.sent[k].game) {
      if k < |s.sent| {
        assert t.sent[k] == s.sent[k];
      }
    }
  }

  lemma StepKeepsInv(cfg: Config, s: State, e: Step)
    requires Inv(cfg, s) && Enabled(cfg, s, e)
    ensures Inv(cfg, Next(cfg, s, e))
  {
    match e {
      case Refreshed(index, verdict) => RefreshKeepsInv(cfg, s, index, verdict);
      case Submitted(index, latest, confirmed) => SubmitKeepsInv(cfg, s, index, latest, confirmed);
      case _ =>
    }
  }

  ghost predicate IsRun(cfg: Config, states: seq<State>, steps: seq<Step>) {
    && |states| == |steps| + 1
    && forall k :: 0 <= k < |steps| ==> Enabled(cfg, states[k], steps[k]) && states[k + 1] == Next(cfg, states[k], steps[k])
  }

  lemma {:induction false} RunKeepsInv(cfg: Config, states: seq<State>, steps: seq<Step>, k: nat)
    requires IsRun(cfg, states, steps) && Inv(cfg, states[0]) && k < |states|
    ensures Inv(cfg, states[k])
  {
    if k == 0 {
    } else {
      RunKeepsInv(cfg, states, steps, k - 1);
      StepKeepsInv(cfg, states[k - 1], steps[k - 1]);
    }
  }

  /** Discovery loses nothing: in every state of every run from the start. */
  lemma DiscoveryLosesNothing(cfg: Config, states: seq<State>, steps: seq<Step>, k: nat, i: nat)
    requires IsRun(cfg, states, steps) && states[0] == START && k < |states|
    ensures i < NextIndex(states[k].cursor) <==> i in states[k].fetched || i in states[k].pending
    ensures !(i in states[k].fetched && i in states[k].pending)
    ensures i in states[k].pending ==> i !in states[k].games
  {
    RunKeepsInv(cfg, states, steps, k);
  }

  lemma {:induction false} FetchedStaysFetched(cfg: Config, states: seq<State>, steps: seq<Step>, j: nat, k: nat, i: nat)
    requires IsRun(cfg, states, steps) && j <= k < |states| && i in states[j].fetched
    ensures i in states[k].fetched
  {
    if j == k {
    } else {
      FetchedStaysFetched(cfg, states, steps, j, k - 1, i);
      assert states[k] == Next(cfg, states[k - 1], steps[k - 1]);
    }
  }

  /** No index is fetched successfully twice. */
  lemma FetchedAtMostOnce(cfg: Config, states: seq<State>, steps: seq<Step>, j: nat, k: nat)
    requires IsRun(cfg, states, steps) && Inv(cfg, states[0]) && j < k < |steps|
    requires steps[j].Fetched? && steps[k].Fetched?
    ensures steps[j].index != steps[k].index
  {
    assert states[j + 1] == Next(cfg, states[j], steps[j]);
    FetchedStaysFetched(cfg, states, steps, j + 1, k, steps[j].index);
    RunKeepsInv(cfg, states, steps, k);
    assert Enabled(cfg, states[k], steps[k]);
  }

  /** Every challenge of every run was deserved and was ready at the latest head. */
  lemma ChallengesFailClosed(cfg: Config, states: seq<State>, steps: seq<Step>, k: nat, c: nat)
    requires IsRun(cfg, states, steps) && states[0] == START && k < |states| && c < |states[k].sent|
    ensures var challenge := states[k].sent[c];
            && (challenge.game.verdict == Invalid || ParentLost(challenge.snap, challenge.game.parentIndex))
            && challenge.game.address in challenge.latest.contracts
            && var c := challenge.latest.contracts[challenge.game.address];
               c.status == InProgress && c.proposalStatus == Unchallenged && challenge.latest.now < c.deadline
  {
    RunKeepsInv(cfg, states, steps, k);
  }

  /** After a completed cycle each cached game has exactly the flags its pinned block calls for, or none at all. */
  lemma FlagsComeFromTheBlock(cfg: Config, states: seq<State>, steps: seq<Step>, k: nat, i: nat)
    requires IsRun(cfg, states, steps) && states[0] == START && k < |states|
    requires states[k].phase.Ready? && i in states[k].games
    ensures states[k].games[i].flags == NO_ACTIONS || HasExactFlags(cfg, states[k].phase.snap, states[k].games[i])
  {
    RunKeepsInv(cfg, states, steps, k);
    if UpToDate(cfg, states[k].phase.snap, states[k].games[i]) {
      UpToDateMeansExactFlags(cfg, states[k].phase.snap, states[k].games[i]);
    }
  }

  /** A successful fetch tracks the game exactly if it has our type and registry and was respected, as the chain has it. */
  lemma FetchTracksOurGames(cfg: Config, states: seq<State>, steps: seq<Step>, k: nat)
    requires IsRun(cfg, states, steps) && states[0] == START && k < |steps| && steps[k].Fetched?
    ensures states[k].phase.Discovering? && Readable(states[k].phase.snap, steps[k].index)
    ensures var snap, index := states[k].phase.snap, steps[k].index;
            var c := snap.contracts[snap.games[index]];
            && (index in states[k + 1].games <==>
                c.gameType == cfg.gameType && c.registry == cfg.registry && c.wasRespected)
            && (index in states[k + 1].games ==>
                  var g := states[k + 1].games[index];
                  && g.address == snap.games[index] && g.parentIndex == c.parentIndex && g.l2Block == c.l2Block
                  && g.flags == NO_ACTIONS)
  {
    RunKeepsInv(cfg, states, steps, k);
    assert Enabled(cfg, states[k], steps[k]) && states[k + 1] == Next(cfg, states[k], steps[k]);
  }

  /** In step `k` game `i` was dropped, with nothing left to do for it at the pinned block. */
  ghost predicate DroppedAt(cfg: Config, states: seq<State>, steps: seq<Step>, i: nat, k: nat)
    requires k < |steps| && k < |states|
  {
    && steps[k] == Evicted(i) && states[k].phase.Refreshing? && i in states[k].games
    && NothingLeft(cfg, states[k].phase.snap, states[k].games[i])
  }

  /** A tracked game stays tracked until there is nothing left to do for it. */
  lemma {:induction false} TrackedUntilDone(cfg: Config, states: seq<State>, steps: seq<Step>, i: nat, j: nat, k: nat)
    requires IsRun(cfg, states, steps) && j <= k < |states| && i in states[j].games
    ensures i in states[k].games || exists m: nat :: j <= m < k && DroppedAt(cfg, states, steps, i, m)
  {
    if j < k {
      TrackedUntilDone(cfg, states, steps, i, j, k - 1);
      assert Enabled(cfg, states[k - 1], steps[k - 1]) && states[k] == Next(cfg, states[k - 1], steps[k - 1]);
      if i in states[k - 1].games && i !in states[k].games {
        assert DroppedAt(cfg, states, steps, i, k - 1);
      }
    }
  }

  /** A game whose L2 block does not fit 64 bits is judged invalid from the start. */
  lemma {:induction false} OversizedBlocksAreInvalid(cfg: Config, states: seq<State>, steps: seq<Step>, i: nat, k: nat)
    requires IsRun(cfg, states, steps) && states[0] == START && k < |states|
    requires i in states[k].games && states[k].games[i].l2Block > 18446744073709551615
    ensures states[k].games[i].verdict == Invalid
  {
    if k > 0 {
      assert Enabled(cfg, states[k - 1], steps[k - 1]) && states[k] == Next(cfg, states[k - 1], steps[k - 1]);
      if i in states[k - 1].games && states[k - 1].games[i].l2Block == states[k].games[i].l2Block {
        OversizedBlocksAreInvalid(cfg, states, steps, i, k - 1);
      }
    }
  }

  /** A cached game never has two actions flagged at once. */
  lemma AtMostOneActionFlag(cfg: Config, states: seq<State>, steps: seq<Step>, k: nat, i: nat)
    requires IsRun(cfg, states, steps) && states[0] == START && k < |states| && i in states[k].games
    ensures AtMostOne(states[k].games[i].flags)
  {
    RunKeepsInv(cfg, states, steps, k);
  }

  lemma StepKeepsVerdict(cfg: Config, s: State, e: Step, i: nat)
    requires Inv(cfg, s) && Enabled(cfg, s, e)
    requires i in s.fetched && i in Next(cfg, s, e).games
    ensures i in s.games
    ensures Next(cfg, s, e).games[i].address == s.games[i].address
    ensures s.games[i].verdict != Unavailable ==> Next(cfg, s, e).games[i].verdict == s.games[i].verdict
  {
  }

  lemma CachedIsFetched(cfg: Config, states: seq<State>, steps: seq<Step>, k: nat, i: nat)
    requires IsRun(cfg, states, steps) && Inv(cfg, states[0]) && k < |states| && i in states[k].games
    ensures i in states[k].fetched
  {
    RunKeepsInv(cfg, states, steps, k);
  }

  lemma RunStepKeepsVerdict(cfg: Config, states: seq<State>, steps: seq<Step>, k: nat, i: nat)
    requires IsRun(cfg, states, steps) && Inv(cfg, states[0]) && k < |steps|
    requires i in states[k].fetched && i in states[k + 1].games
    ensures i in states[k].games
    ensures states[k + 1].games[i].address == states[k].games[i].address
    ensures states[k].games[i].verdict != Unavailable ==> states[k + 1].games[i].verdict == states[k].games[i].verdict
  {
    RunKeepsInv(cfg, states, steps, k);
    StepKeepsVerdict(cfg, states[k], steps[k], i);
  }

  /** A settled verdict of a cached game never changes, and its address never does. */
  lemma {:induction false} VerdictsAreFinal(cfg: Config, states: seq<State>, steps: seq<Step>, j: nat, k: nat, i: nat)
    requires IsRun(cfg, states, steps) && Inv(cfg, states[0]) && j <= k < |states|
    requires i in states[j].games && i in states[k].games && states[j].games[i].verdict != Unavailable
    ensures states[k].games[i].verdict == states[j].games[i].verdict
    ensures states[k].games[i].address == states[j].games[i].address
  {
    if j < k {
      CachedIsFetched(cfg, states, steps, j, i);
      FetchedStaysFetched(cfg, states, steps, j, k - 1, i);
      RunStepKeepsVerdict(cfg, states, steps, k - 1, i);
      VerdictsAreFinal(cfg, states, steps, j, k - 1, i);
    }
  }

  /** `steps` are enabled one after the other and lead from `s` to `t`. */
  ghost predicate Traces(cfg: Config, s: State, steps: seq<Step>, t: State)
    decreases |steps|
  {
    if steps == [] then s == t
    else Enabled(cfg, s, steps[0]) && Traces(cfg, Next(cfg, s, steps[0]), steps[1..], t)
  }

  lemma {:induction false} TraceOneMore(cfg: Config, s: State, steps: seq<Step>, m: State, e: Step)
    requires Traces(cfg, s, steps, m) && Enabled(cfg, m, e)
    ensures Traces(cfg, s, steps + [e], Next(cfg, m, e))
    decreases |steps|
  {
    if steps == [] {
      assert [] + [e] == [e];
      assert [e][1..] == [];
    } else {
      TraceOneMore(cfg, Next(cfg, s, steps[0]), steps[1..], m, e);
      assert (steps + [e])[1..] == steps[1..] + [e];
    }
  }

  /** Every trace is a run, so the theorems on runs apply to what the challenger does. */
  lemma {:induction false} TraceIsRun(cfg: Config, s: State, steps: seq<Step>, t: State) returns (states: seq<State>)
    requires Traces(cfg, s, steps, t)
    ensures IsRun(cfg, states, steps) && states[0] == s && states[|steps|] == t
    decreases |steps|
  {
    if steps == [] {
      states := [s];
    } else {
      var rest := TraceIsRun(cfg, Next(cfg, s, steps[0]), steps[1..], t);
      states := [s] + rest;
      forall k | 0 <= k < |steps|
        ensures Enabled(cfg, states[k], steps[k]) && states[k + 1] == Next(cfg, states[k], steps[k])
      {
        if k > 0 {
          assert steps[k] == steps[1..][k - 1];
          assert states[k] == rest[k - 1] && states[k + 1] == rest[k];
        }
      }
    }
  }
}

/** The challenger as an object; its ghost trace shows that it only ever takes steps of the machine. */
module Challengers {
  import opened Prelude
  import opened GameGraph
  import opened ChallengerMachine

  /** A challenge of one round: of a flagged game, checked at the pinned block and at its own head. */
  ghost predicate FromRound(c: Challenge, flagged: map<nat, TrackedGame>, snap: Snapshot, heads: nat -> Option<Snapshot>) {
    && c.index in flagged && flagged[c.index] == c.game && c.game.flags.challenge
    && c.snap == snap && heads(c.index) == Some(c.latest)
  }

  ghost predicate IsChallenged(sent: seq<Challenge>, from: nat, index: nat) {
    exists k :: from <= k < |sent| && sent[k].index == index
  }

  ghost predicate CalledFor(cached: map<nat, TrackedGame>, heads: nat -> Option<Snapshot>, i: nat) {
    i in cached && cached[i].flags.challenge && heads(i).Some? && Eligible(heads(i).value, cached[i])
  }

  /** A challenge changes nothing about a game but its flags. */
  ghost predicate SameButFlags(a: TrackedGame, b: TrackedGame) {
    a == b.(flags := a.flags)
  }

  ghost predicate AllSameButFlags(games: map<nat, TrackedGame>, before: map<nat, TrackedGame>) {
    games.Keys == before.Keys && forall i :: i in games ==> SameButFlags(games[i], before[i])
  }

  /** The game's own contract is open to a challenge at this head. */
  ghost predicate OpenAt(latest: Option<Snapshot>, g: TrackedGame) {
    && latest.Some? && g.address in latest.value.contracts
    && var c := latest.value.contracts[g.address];
       c.status == InProgress && c.proposalStatus == Unchallenged && latest.value.now < c.deadline
  }

  lemma DeservingGamesAreCalledFor(
    cfg: Config, snap: Snapshot, heads: nat -> Option<Snapshot>, cached: map<nat, TrackedGame>, games: map<nat, TrackedGame>,
    i: nat)
    requires AllSameButFlags(games, cached) && i in games && OpenAt(heads(i), games[i])
    requires HasExactFlags(cfg, snap, cached[i]) && DeservesChallenge(snap, games[i])
    ensures CalledFor(cached, heads, i)
  {
    assert SameButFlags(games[i], cached[i]);
    assert DeservesChallenge(snap, cached[i]);
  }

  /** Where a round of challenges stands once the first `tried` games of `order` have been tried. */
  ghost predicate IsRound(
    cached: map<nat, TrackedGame>, order: seq<nat>, tried: nat, snap: Snapshot, heads: nat -> Option<Snapshot>,
    submit: bool, before: seq<Challenge>, sent: seq<Challenge>)
    requires tried <= |order|
  {
    && before <= sent && (!submit ==> sent == before)
    && (forall k :: |before| <= k < |sent| ==> FromRound(sent[k], cached, snap, heads))
    && (submit ==> forall j :: 0 <= j < tried && CalledFor(cached, heads, order[j]) ==>
                                 IsChallenged(sent, |before|, order[j]))
  }

  /** Every game a round calls for is challenged in it, and no other; none at all in monitor-only mode. */
  ghost predicate IsWholeRound(
    cached: map<nat, TrackedGame>, snap: Snapshot, heads: nat -> Option<Snapshot>, submit: bool,
    before: seq<Challenge>, sent: seq<Challenge>)
  {
    && before <= sent && (!submit ==> sent == before)
    && (forall k :: |before| <= k < |sent| ==> FromRound(sent[k], cached, snap, heads))
    && (submit ==> forall i :: CalledFor(cached, heads, i) ==> IsChallenged(sent, |before|, i))
  }

  lemma RoundEnds(
    cached: map<nat, TrackedGame>, order: seq<nat>, snap: Snapshot, heads: nat -> Option<Snapshot>, submit: bool,
    before: seq<Challenge>, sent: seq<Challenge>)
    requires IsRound(cached, order, |order|, snap, heads, submit, before, sent)
    requires forall i :: i in cached && cached[i].flags.challenge ==> i in order
    ensures IsWholeRound(cached, snap, heads, submit, before, sent)
  {
    forall i | submit && CalledFor(cached, heads, i) ensures IsChallenged(sent, |before|, i) {
      var j :| 0 <= j < |order| && order[j] == i;
    }
  }

  lemma RoundOneMore(
    cached: map<nat, TrackedGame>, order: seq<nat>, tried: nat, snap: Snapshot, heads: nat -> Option<Snapshot>,
    submit: bool, before: seq<Challenge>, sent: seq<Challenge>, later: seq<Challenge>)
    requires tried < |order| && IsRound(cached, order, tried, snap, heads, submit, before, sent)
    requires order[tried] in cached && cached[order[tried]].flags.challenge
    requires var index := order[tried];
             later == if submit && heads(index).Some? && Eligible(heads(index).value, cached[index])
                      then sent + [Challenge(index, cached[index], snap, heads(index).value)] else sent
    ensures IsRound(cached, order, tried + 1, snap, heads, submit, before, later)
  {
    if submit {
      forall j | 0 <= j < tried + 1 && CalledFor(cached, heads, order[j]) ensures IsChallenged(later, |before|, order[j]) {
        if j < tried {
          var k :| |before| <= k < |sent| && sent[k].index == order[j];
          assert later[k].index == order[j];
        } else {
          assert later[|sent|].index == order[j];
        }
      }
    }
  }

  /** From `k` on the candidates are as they were when the round began. */
  ghost predicate StillFlagged(order: seq<nat>, k: nat, before: map<nat, TrackedGame>, games: map<nat, TrackedGame>) {
    forall j :: k <= j < |order| ==>
      order[j] in before && order[j] in games && games[order[j]] == before[order[j]] && before[order[j]].flags.challenge
  }

  /** A refresh never changes which game this is. */
  ghost predicate SameGame(a: TrackedGame, b: TrackedGame) {
    a.address == b.address && a.parentIndex == b.parentIndex && a.l2Block == b.l2Block
  }

  /** The game's contract and its parent's, if it has one, are there to be read at this block. */
  ghost predicate Checkable(snap: Snapshot, g: TrackedGame) {
    g.address in snap.contracts && (g.parentIndex == NO_PARENT || Readable(snap, g.parentIndex))
  }

  /** Nothing is left to do for the game at this block. */
  ghost predicate IsFinished(cfg: Config, snap: Snapshot, g: TrackedGame) {
    g.address in snap.contracts && IsDone(cfg, snap.contracts[g.address])
  }

  /** Every game but those in `stale` has been refreshed: it left if finished, and its flags come from this block. */
  ghost predicate RefreshedBut(
    cfg: Config, snap: Snapshot, healthy: bool, stale: set<nat>, before: map<nat, TrackedGame>, games: map<nat, TrackedGame>)
  {
    && games.Keys <= before.Keys
    && (forall i :: i in before && i !in games ==> IsFinished(cfg, snap, before[i]))
    && (forall i :: i in games && i in stale ==> games[i] == before[i])
    && (forall i :: i in games && i !in stale ==> FlagsFromBlock(cfg, snap, games[i]))
    && (healthy ==> forall i :: i in games && i !in stale && Checkable(snap, games[i]) ==> UpToDate(cfg, snap, games[i]))
  }

  lemma RefreshedOneMore(
    cfg: Config, snap: Snapshot, healthy: bool, stale: set<nat>, before: map<nat, TrackedGame>,
    games: map<nat, TrackedGame>, index: nat, later: map<nat, TrackedGame>)
    requires RefreshedBut(cfg, snap, healthy, stale, before, games) && index in stale && index in games
    requires forall i :: i != index ==> (i in later <==> i in games) && (i in later ==> later[i] == games[i])
    requires index in later ==> SameGame(later[index], games[index]) && FlagsFromBlock(cfg, snap, later[index])
    requires index !in later ==> IsFinished(cfg, snap, games[index])
    requires healthy && Checkable(snap, games[index]) && index in later ==> UpToDate(cfg, snap, later[index])
    ensures RefreshedBut(cfg, snap, healthy, stale - {index}, before, later)
  {
  }

  class Challenger {
    const config: Config
    const submitEnabled: bool
    var cursor: Option<nat>
    var games: map<nat, TrackedGame>
    var pending: set<nat>
    var highest: nat
    /** The environment: while it holds, every RPC read is answered. */
    var healthy: bool
    ghost var phase: Phase
    ghost var fetched: set<nat>
    ghost var sent: seq<Challenge>
    ghost var trace: seq<Step>

    ghost function View(): State
      reads this
    {
      State(cursor, games, pending, highest, phase, fetched, sent)
    }

    /** The object is where some run of the machine ends. */
    ghost predicate Valid()
      reads this
    {
      Traces(config, START, trace, View())
    }

    /** Whatever holds in every state of every run holds now. */
    lemma HoldsNow()
      requires Valid()
      ensures Inv(config, View())
    {
      var states := TraceIsRun(config, START, trace, View());
      RunKeepsInv(config, states, trace, |trace|);
    }

    constructor (cfg: Config, submit: bool)
      ensures Valid() && config == cfg && submitEnabled == submit && View() == START && trace == []
    {
      config, submitEnabled := cfg, submit;
      cursor, games, pending, highest, healthy := None, map[], {}, 0, false;
      phase, fetched, sent, trace := Idle, {}, [], [];
    }

    /** Books a step of the machine that the fields have just taken. */
    ghost method Book(before: State, e: Step)
      requires Traces(config, START, trace, before)
      requires Enabled(config, before, e) && View() == Next(config, before, e)
      modifies this`trace
      ensures Valid() && trace == old(trace) + [e]
    {
      TraceOneMore(config, START, trace, before, e);
      trace := trace + [e];
    }

    method GiveUp()
      requires Valid()
      modifies this`phase, this`trace
      ensures Valid() && phase == Idle && old(trace) <= trace
    {
      ghost var before := View();
      phase := Idle;
      Book(before, Abort);
    }

    /** One discovery attempt, first or repeated; a failed one only remembers the index. */
    method Discover(snap: Snapshot, index: nat)
      requires Valid() && phase == Discovering(snap)
      requires index in pending || index == NextIndex(cursor)
      modifies this`games, this`cursor, this`pending, this`fetched, this`trace
      ensures Valid() && old(trace) <= trace
      ensures cursor == if index in old(pending) then old(cursor) else Some(index)
      ensures forall i :: i in old(games) ==> i in games && games[i] == old(games)[i]
      ensures pending == if index in fetched then old(pending) - {index} else old(pending) + {index}
      ensures healthy && Readable(snap, index) ==> index in fetched
    {
      ghost var before := View();
      assert index !in fetched && index !in games by {
        HoldsNow();
      }
      var retry := index in pending;
      var answered: bool := *;
      if (healthy || answered) && Readable(snap, index) {
        var game := Admit(config, snap, index);
        if game.Some? {
          games := games[index := game.value];
        }
        pending := pending - {index};
        fetched := fetched + {index};
        if !retry {
          cursor := Some(index);
        }
        Book(before, Fetched(index));
      } else {
        pending := pending + {index};
        if !retry {
          cursor := Some(index);
        }
        Book(before, FetchFailed(index));
      }
    }

    /** `sync_game`: an error, the refreshed game, or nothing when the game can be dropped. */
    method SyncGame(snap: Snapshot, g: TrackedGame) returns (r: Result<Option<TrackedGame>>, verdict: Verdict)
      ensures r.Ok? ==>
                && g.address in snap.contracts
                && var c := snap.contracts[g.address];
                   && VerdictMayBecome(snap, c, g, verdict)
                   && r.value == if IsDone(config, c) then None else Some(RefreshedGame(config, snap, c, g, verdict))
      ensures r.Ok? ==> (r.value.None? <==> NothingLeft(config, snap, g))
      ensures r.Ok? && r.value.Some? ==> HasExactFlags(config, snap, r.value.value)
      ensures healthy && g.address in snap.contracts && (g.parentIndex == NO_PARENT || Readable(snap, g.parentIndex)) ==>
                r.Ok?
    {
      verdict := g.verdict;
      var answered: bool := *;
      if !(healthy || answered) || g.address !in snap.contracts {
        return Err, verdict;
      }
      var c := snap.contracts[g.address];
      var flags := NO_ACTIONS;
      match c.status {
        case InProgress =>
          var over := snap.now >= c.deadline;
          if c.proposalStatus == Unchallenged && !over {
            if verdict == Unavailable {
              verdict := *;
              if g.l2Block > U64_MAX {
                verdict := Invalid;
              }
            }
            if verdict != Invalid && g.parentIndex != NO_PARENT && !Readable(snap, g.parentIndex) {
              return Err, verdict;
            }
            flags := flags.(challenge := verdict == Invalid || ParentLost(snap, g.parentIndex));
          } else if c.proposalStatus == Challenged && over && c.counteredBy == config.signer {
            if g.parentIndex != NO_PARENT && !Readable(snap, g.parentIndex) {
              return Err, verdict;
            }
            flags := flags.(resolve := ParentDone(snap, g.parentIndex));
          }
        case ChallengerWins =>
          if c.isFinalized {
            if c.bondUndecided {
              if c.counteredBy != config.signer {
                return Ok(None), verdict;
              }
              flags := flags.(close := true);
            } else if c.credit == 0 {
              return Ok(None), verdict;
            } else {
              flags := flags.(claim := true);
            }
          }
        case DefenderWins =>
          return Ok(None), verdict;
      }
      r := Ok(Some(g.(status := c.status, proposalStatus := c.proposalStatus, deadline := c.deadline,
                      verdict := verdict, flags := flags)));
    }

    /** Refreshes one cached game; a failure clears its flags and touches nothing else. */
    method RefreshGame(snap: Snapshot, index: nat)
      requires Valid() && phase.Refreshing? && phase.snap == snap && index in phase.stale && index in games
      modifies this`games, this`phase, this`trace
      ensures Valid() && old(trace) <= trace
      ensures phase == old(phase).(stale := old(phase).stale - {index})
      ensures forall i :: i != index ==> (i in games <==> i in old(games)) && (i in games ==> games[i] == old(games)[i])
      ensures |trace| == |old(trace)| + 1
      ensures trace[|trace| - 1] == RefreshFailed(index) ==> index in games && games[index].flags == NO_ACTIONS
      ensures index in games ==> SameGame(games[index], old(games)[index]) && FlagsFromBlock(config, snap, games[index])
      ensures index !in games ==> IsFinished(config, snap, old(games)[index])
      ensures healthy && Checkable(snap, old(games)[index]) ==> index in games ==> UpToDate(config, snap, games[index])
    {
      ghost var before := View();
      var result, verdict := SyncGame(snap, games[index]);
      phase := phase.(stale := phase.stale - {index});
      if result.Err? {
        games := games[index := games[index].(flags := NO_ACTIONS)];
        Book(before, RefreshFailed(index));
      } else if result.value.Some? {
        games := games[index := result.value.value];
        Book(before, Refreshed(index, verdict));
      } else {
        games := games - {index};
        Book(before, Evicted(index));
      }
    }

    /** Retries every index that an earlier cycle could not read. */
    method RetryPending(snap: Snapshot)
      requires Valid() && phase == Discovering(snap)
      modifies this`games, this`cursor, this`pending, this`fetched, this`trace
      ensures Valid() && old(trace) <= trace && cursor == old(cursor)
      ensures pending <= old(pending)
      ensures healthy ==> forall i :: i in pending ==> !Readable(snap, i)
      ensures forall i :: i in old(games) ==> i in games && games[i] == old(games)[i]
    {
      var todo := pending;
      while todo != {}
        invariant Valid() && phase == Discovering(snap) && old(trace) <= trace
        invariant todo <= pending <= old(pending) && cursor == old(cursor)
        invariant forall i :: i in old(games) ==> i in games && games[i] == old(games)[i]
        invariant healthy ==> forall i :: i in pending && i !in todo ==> !Readable(snap, i)
        decreases |todo|
      {
        var index :| index in todo;
        Discover(snap, index);
        todo := todo - {index};
      }
    }

    /** Visits every new factory index once, whatever fails on the way. */
    method DiscoverNew(snap: Snapshot)
      requires Valid() && phase == Discovering(snap)
      modifies this`games, this`cursor, this`pending, this`fetched, this`trace
      ensures Valid() && old(trace) <= trace
      ensures NextIndex(cursor) == Max(NextIndex(old(cursor)), |snap.games|)
      ensures healthy ==> forall i :: i in pending && i !in old(pending) ==> !Readable(snap, i)
      ensures forall i :: i in old(games) ==> i in games && games[i] == old(games)[i]
    {
      while NextIndex(cursor) < |snap.games|
        invariant Valid() && phase == Discovering(snap) && old(trace) <= trace
        invariant NextIndex(old(cursor)) <= NextIndex(cursor) <= Max(NextIndex(old(cursor)), |snap.games|)
        invariant healthy ==> forall i :: i in pending && i !in old(pending) ==> !Readable(snap, i)
        invariant forall i :: i in old(games) ==> i in games && games[i] == old(games)[i]
        decreases |snap.games| - NextIndex(cursor)
      {
        assert NextIndex(cursor) !in pending by {
          HoldsNow();
        }
        Discover(snap, NextIndex(cursor));
      }
    }

    /** Refreshes every cached game, each on its own. */
    method RefreshAll(snap: Snapshot)
      requires Valid() && phase == Refreshing(snap, games.Keys)
      modifies this`games, this`phase, this`trace
      ensures Valid() && old(trace) <= trace && phase == Refreshing(snap, {})
      ensures RefreshedBut(config, snap, healthy, {}, old(games), games)
    {
      var todo := games.Keys;
      while todo != {}
        invariant Valid() && phase == Refreshing(snap, todo) && old(trace) <= trace
        invariant todo <= games.Keys && RefreshedBut(config, snap, healthy, todo, old(games), games)
        decreases |todo|
      {
        var index :| index in todo;
        ghost var earlier := games;
        RefreshGame(snap, index);
        RefreshedOneMore(config, snap, healthy, todo, old(games), earlier, index, games);
        todo := todo - {index};
      }
    }

    method BeginPass(snap: Snapshot)
      requires Valid() && highest <= snap.number
      modifies this`highest, this`phase, this`trace
      ensures Valid() && old(trace) <= trace && phase == Discovering(snap) && highest == snap.number
    {
      ghost var before := View();
      highest := snap.number;
      phase := Discovering(snap);
      Book(before, Begin(snap));
    }

    /** The rest of a cycle once discovery is through: every cached game is refreshed. */
    method RefreshPass(snap: Snapshot)
      requires Valid() && phase == Discovering(snap) && |snap.games| <= NextIndex(cursor)
      modifies this`games, this`phase, this`trace
      ensures Valid() && old(trace) <= trace && phase == Ready(snap)
      ensures RefreshedBut(config, snap, healthy, {}, old(games), games)
    {
      ghost var before := View();
      phase := Refreshing(snap, games.Keys);
      Book(before, StartRefresh);
      RefreshAll(snap);
      before := View();
      phase := Ready(snap);
      Book(before, Finish);
    }

    /**
     `sync_state` at a pinned block. When it completes, the cursor is at the latest index (or stays, if
     it was already beyond it) and every flag comes from this block; when it fails the cycle is over. With all
     reads answered every checkable game has exactly the flags this block calls for, and no finished one is left.
     */
    method SyncState(snap: Snapshot) returns (ok: bool)
      requires Valid()
      modifies this`games, this`cursor, this`pending, this`highest, this`phase, this`fetched, this`trace
      ensures Valid() && old(trace) <= trace
      ensures if ok then phase == Ready(snap) && old(highest) <= snap.number == highest else phase == Idle
      ensures ok ==> NextIndex(cursor) == Max(NextIndex(old(cursor)), |snap.games|)
      ensures ok ==> forall i :: i in games ==> games[i].flags == NO_ACTIONS || HasExactFlags(config, snap, games[i])
      ensures ok ==> forall i :: i in old(games) && i !in games ==> NothingLeft(config, snap, old(games)[i])
      ensures ok && healthy ==> forall i :: i in games && Checkable(snap, games[i]) ==>
                                              HasExactFlags(config, snap, games[i]) && !NothingLeft(config, snap, games[i])
      ensures healthy && old(highest) <= snap.number ==> ok && forall i :: i in pending ==> !Readable(snap, i)
    {
      ok := *;
      if !(healthy || ok) || snap.number < highest {
        GiveUp();
        return false;
      }
      BeginPass(snap);
      RetryPending(snap);
      ok := *;
      ok := ok || healthy;
      if !ok {
        GiveUp();
        return;
      }
      DiscoverNew(snap);
      RefreshPass(snap);
      forall i | i in games && UpToDate(config, snap, games[i])
        ensures HasExactFlags(config, snap, games[i]) && !NothingLeft(config, snap, games[i])
      {
        UpToDateMeansExactFlags(config, snap, games[i]);
      }
    }

    /**
     Preflights one flagged game at the latest head and challenges it exactly if it is still eligible
     there. `latest` is None when the head or the contract could not be read.
     */
    method ChallengeGame(index: nat, latest: Option<Snapshot>)
      requires Valid() && phase.Ready? && index in games && games[index].flags.challenge
      modifies this`games, this`sent, this`trace
      ensures Valid() && old(trace) <= trace
      ensures games.Keys == old(games).Keys && forall i :: i in games && i != index ==> games[i] == old(games)[i]
      ensures SameButFlags(games[index], old(games)[index])
      ensures sent == if submitEnabled && latest.Some? && Eligible(latest.value, old(games)[index])
                      then old(sent) + [Challenge(index, old(games)[index], phase.snap, latest.value)] else old(sent)
    {
      ghost var before := View();
      if latest.None? || !Eligible(latest.value, games[index]) {
        return;
      }
      if !submitEnabled {
        games := ClearFlag(games, index);
        Book(before, LoggedOnly(index, latest.value));
        return;
      }
      sent := sent + [Challenge(index, games[index], phase.snap, latest.value)];
      var confirmed: bool := *;
      if confirmed {
        games := ClearFlag(games, index);
      }
      Book(before, Submitted(index, latest.value, confirmed));
    }

    /**
     `handle_game_challenging`, honest part: runs only after a sync that completed. `heads` is the latest
     head each preflight reads. Every flagged game that is eligible at its head is challenged, and no other.
     */
    method HandleGameChallenging(heads: nat -> Option<Snapshot>)
      requires Valid() && phase.Ready?
      modifies this`games, this`sent, this`trace
      ensures Valid() && old(trace) <= trace
      ensures IsWholeRound(old(games), phase.snap, heads, submitEnabled, old(sent), sent)
      ensures AllSameButFlags(games, old(games))
    {
      var flagged: set<nat> := set i | i in games && games[i].flags.challenge;
      var order: seq<nat> := Enumerate(flagged);
      ghost var snap := phase.snap;
      assert forall j :: 0 <= j < |order| ==> order[j] in flagged;
      for k := 0 to |order|
        invariant Valid() && old(trace) <= trace
        invariant StillFlagged(order, k, old(games), games)
        invariant IsRound(old(games), order, k, snap, heads, submitEnabled, old(sent), sent)
        invariant AllSameButFlags(games, old(games))
      {
        ghost var before := sent;
        ChallengeGame(order[k], heads(order[k]));
        RoundOneMore(old(games), order, k, snap, heads, submitEnabled, old(sent), before, sent);
      }
      RoundEnds(old(games), order, snap, heads, submitEnabled, old(sent), sent);
    }

    /**
     One cycle of the main loop. With all reads answered and sending enabled, every readable game that
     deserves a challenge at the pinned block and is still open at its latest head is challenged in it.
     */
    method RunCycle(snap: Snapshot, heads: nat -> Option<Snapshot>) returns (ok: bool)
      requires Valid()
      modifies this`games, this`cursor, this`pending, this`highest, this`phase, this`fetched, this`sent, this`trace
      ensures Valid() && old(trace) <= trace
      ensures !ok || !submitEnabled ==> sent == old(sent)
      ensures ok && healthy && submitEnabled ==>
                forall i :: (&& i in games && Checkable(snap, games[i]) && DeservesChallenge(snap, games[i])
                             && OpenAt(heads(i), games[i])) ==> IsChallenged(sent, |old(sent)|, i)
    {
      ok := SyncState(snap);
      if !ok {
        return;
      }
      ghost var cached := games;
      HandleGameChallenging(heads);
      if healthy && submitEnabled {
        forall i | i in games && Checkable(snap, games[i]) && DeservesChallenge(snap, games[i]) && OpenAt(heads(i), games[i])
          ensures IsChallenged(sent, |old(sent)|, i)
        {
          assert SameButFlags(games[i], cached[i]) && Checkable(snap, cached[i]);
          DeservingGamesAreCalledFor(config, snap, heads, cached, games, i);
        }
      }
    }
  }
}

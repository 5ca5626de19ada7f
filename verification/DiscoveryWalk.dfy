/** The backward discovery walk of `sync_games`: what it collects, where it stops, and what its commit adds. */
module DiscoveryWalk {
  import opened Prelude
  import opened GameGraph
  import opened Factory

  /** `MAX_GAME_DEADLINE_LAG`: 14 days in seconds. */
  const MAX_GAME_DEADLINE_LAG: nat := 60 * 60 * 24 * 14

  /** Outcome of a walk that visited `floor..latest` from the top down. */
  datatype Discovery = Discovery(fetched: seq<Game>, invalid: seq<nat>, floor: nat, cut: bool)

  /** The index just above a cursor. */
  function Above(cursor: Option<nat>): nat {
    if cursor.Some? then cursor.value + 1 else 0
  }

  /** Where a walk over `count` games ends, given the cursor before the pass. */
  function WalkFloor(cursor: Option<nat>, count: nat): nat {
    if cursor.Some? && count <= cursor.value then 0 else Above(cursor)
  }

  function AbsDiff(a: nat, b: nat): nat {
    if a < b then b - a else a - b
  }

  /** What loading index `i` answers: a cached game answers for itself. */
  function Loaded(w: World, cfg: Config, snap: Snapshot, games: Cache, i: nat): FetchResult
    requires i < |snap.games|
  {
    if i in games then ValidGame(games[i]) else Classify(w, cfg, snap, i)
  }

  /** The anchor deadline after seeing one more load result. */
  function NoteAnchor(snap: Snapshot, result: FetchResult, seen: Option<nat>): Option<nat> {
    if result.ValidGame? && result.game.address == snap.anchorGame then Some(result.game.deadline) else seen
  }

  /** The walk's two stop rules, once the anchor deadline has been noted. */
  predicate StopsWalk(snap: Snapshot, result: FetchResult, anchorDeadline: Option<nat>) {
    match result
    case ValidGame(game) =>
      anchorDeadline.Some? && AbsDiff(anchorDeadline.value, game.deadline) > MAX_GAME_DEADLINE_LAG
    case UnsupportedType(address) => address == snap.anchorGame
    case _ => false
  }

  /** The anchor deadline a walk from `hi` has noted once it has visited `i`. */
  ghost function Noted(w: World, cfg: Config, snap: Snapshot, games: Cache, i: nat, hi: nat): Option<nat>
    requires hi < |snap.games|
    decreases hi + 1 - i
  {
    if hi < i then None
    else NoteAnchor(snap, Loaded(w, cfg, snap, games, i), Noted(w, cfg, snap, games, i + 1, hi))
  }

  ghost predicate StopsAt(w: World, cfg: Config, snap: Snapshot, games: Cache, i: nat, hi: nat)
    requires i <= hi < |snap.games|
  {
    StopsWalk(snap, Loaded(w, cfg, snap, games, i), Noted(w, cfg, snap, games, i, hi))
  }

  /** The deadline that was noted is that of a visited game at the anchor's address. */
  lemma {:induction false} NotedIsTheAnchors(w: World, cfg: Config, snap: Snapshot, games: Cache, i: nat, hi: nat)
    requires hi < |snap.games| && Noted(w, cfg, snap, games, i, hi).Some?
    ensures exists a ::
              && i <= a <= hi
              && var result := Loaded(w, cfg, snap, games, a);
                 result.ValidGame? && result.game.address == snap.anchorGame
                 && Noted(w, cfg, snap, games, i, hi) == Some(result.game.deadline)
    decreases hi + 1 - i
  {
    var result := Loaded(w, cfg, snap, games, i);
    if !(result.ValidGame? && result.game.address == snap.anchorGame) {
      NotedIsTheAnchors(w, cfg, snap, games, i + 1, hi);
    }
  }

  /** A walk is cut short only at an unsupported anchor, or at a game too far in time from the anchor. */
  lemma CutMeansFarFromAnchor(w: World, cfg: Config, snap: Snapshot, games: Cache, i: nat, hi: nat)
    requires i <= hi < |snap.games| && StopsAt(w, cfg, snap, games, i, hi)
    ensures || Loaded(w, cfg, snap, games, i) == UnsupportedType(snap.anchorGame)
            || (&& Loaded(w, cfg, snap, games, i).ValidGame?
                && exists a ::
                     && i <= a <= hi
                     && var result := Loaded(w, cfg, snap, games, a);
                        result.ValidGame? && result.game.address == snap.anchorGame
                        && AbsDiff(result.game.deadline, Loaded(w, cfg, snap, games, i).game.deadline)
                           > MAX_GAME_DEADLINE_LAG)
  {
    if Loaded(w, cfg, snap, games, i).ValidGame? {
      NotedIsTheAnchors(w, cfg, snap, games, i, hi);
    }
  }

  // ----- the stop rules in the chain's fields -----

  /** The walk sees a valid game at `i`: a cached one, or a genuine one. */
  ghost predicate SeenValid(w: World, cfg: Config, snap: Snapshot, games: Cache, i: nat) {
    i in games || IsGenuine(w, cfg, snap, i)
  }

  function SeenAddress(snap: Snapshot, games: Cache, i: nat): Address
    requires i < |snap.games|
  {
    if i in games then games[i].address else snap.games[i].facts.address
  }

  function SeenDeadline(snap: Snapshot, games: Cache, i: nat): nat
    requires i < |snap.games|
  {
    if i in games then games[i].deadline else snap.games[i].live.deadline
  }

  ghost predicate SeesAnchor(w: World, cfg: Config, snap: Snapshot, games: Cache, a: nat)
    requires a < |snap.games|
  {
    SeenValid(w, cfg, snap, games, a) && SeenAddress(snap, games, a) == snap.anchorGame
  }

  /** Of the games in `i..=hi`, `a` is the lowest one seen at the anchor's address. */
  ghost predicate IsNotedAnchor(w: World, cfg: Config, snap: Snapshot, games: Cache, a: nat, i: nat, hi: nat)
    requires hi < |snap.games|
  {
    && i <= a <= hi && SeesAnchor(w, cfg, snap, games, a)
    && forall b :: i <= b < a ==> !SeesAnchor(w, cfg, snap, games, b)
  }

  lemma LoadedInFacts(w: World, cfg: Config, snap: Snapshot, games: Cache, i: nat)
    requires i < |snap.games|
    ensures var result := Loaded(w, cfg, snap, games, i);
            && (result.ValidGame? <==> SeenValid(w, cfg, snap, games, i))
            && (result.ValidGame? ==> result.game.address == SeenAddress(snap, games, i)
                                      && result.game.deadline == SeenDeadline(snap, games, i))
            && (result.UnsupportedType? <==> i !in games && snap.games[i].facts.gameType != cfg.gameType)
            && (result.UnsupportedType? ==> result.address == snap.games[i].facts.address)
  {
    ReadInFacts(w, cfg, snap, i);
  }

  lemma {:induction false} NotedInFacts(w: World, cfg: Config, snap: Snapshot, games: Cache, i: nat, hi: nat)
    requires hi < |snap.games|
    ensures Noted(w, cfg, snap, games, i, hi).Some? <==> exists a :: IsNotedAnchor(w, cfg, snap, games, a, i, hi)
    ensures forall a :: IsNotedAnchor(w, cfg, snap, games, a, i, hi) ==>
                          Noted(w, cfg, snap, games, i, hi) == Some(SeenDeadline(snap, games, a))
    decreases hi + 1 - i
  {
    if i <= hi {
      LoadedInFacts(w, cfg, snap, games, i);
      NotedInFacts(w, cfg, snap, games, i + 1, hi);
      if SeesAnchor(w, cfg, snap, games, i) {
        assert IsNotedAnchor(w, cfg, snap, games, i, i, hi);
      } else {
        var next := i + 1;
        forall a ensures IsNotedAnchor(w, cfg, snap, games, a, i, hi) <==> IsNotedAnchor(w, cfg, snap, games, a, next, hi) {
        }
        if a :| IsNotedAnchor(w, cfg, snap, games, a, next, hi) {
          assert IsNotedAnchor(w, cfg, snap, games, a, i, hi);
        }
      }
    }
  }

  /**
   The walk stops exactly at an uncached game of another type at the anchor's address, and at a valid game
   more than 14 days in deadline from the last anchor it has seen.
   */
  lemma WalkStopsIff(w: World, cfg: Config, snap: Snapshot, games: Cache, i: nat, hi: nat)
    requires i <= hi < |snap.games|
    ensures StopsAt(w, cfg, snap, games, i, hi) <==>
            || (&& i !in games && snap.games[i].facts.gameType != cfg.gameType
                && snap.games[i].facts.address == snap.anchorGame)
            || (&& SeenValid(w, cfg, snap, games, i)
                && exists a ::
                     && IsNotedAnchor(w, cfg, snap, games, a, i, hi)
                     && (|| SeenDeadline(snap, games, a) + 1209600 < SeenDeadline(snap, games, i)
                         || SeenDeadline(snap, games, i) + 1209600 < SeenDeadline(snap, games, a)))
  {
    LoadedInFacts(w, cfg, snap, games, i);
    NotedInFacts(w, cfg, snap, games, i, hi);
  }

  /** `fetched` holds each valid game of `lo..=hi` that was not cached, once, from the top down. */
  ghost predicate FetchedExactly(
    w: World, cfg: Config, snap: Snapshot, games: Cache, lo: nat, hi: nat, fetched: seq<Game>)
    requires hi < |snap.games|
  {
    && (forall k :: 0 <= k < |fetched| ==>
          && lo <= fetched[k].index <= hi && fetched[k].index !in games
          && Classify(w, cfg, snap, fetched[k].index) == ValidGame(fetched[k]))
    && (forall j, k :: 0 <= j < k < |fetched| ==> fetched[k].index < fetched[j].index)
    && forall i :: lo <= i <= hi && i !in games && Classify(w, cfg, snap, i).ValidGame? ==>
                     GameFrom(snap, i) in fetched
  }

  ghost predicate InvalidExactly(
    w: World, cfg: Config, snap: Snapshot, games: Cache, lo: nat, hi: nat, invalid: seq<nat>)
    requires hi < |snap.games|
  {
    forall i :: i in invalid <==> lo <= i <= hi && i !in games && Classify(w, cfg, snap, i).InvalidGame?
  }

  ghost predicate NoStop(w: World, cfg: Config, snap: Snapshot, games: Cache, lo: nat, hi: nat)
    requires hi < |snap.games|
  {
    forall i :: lo <= i <= hi ==> !StopsAt(w, cfg, snap, games, i, hi)
  }

  /** A walk that has visited `lo..=hi` has collected exactly this. */
  ghost predicate Walked(
    w: World, cfg: Config, snap: Snapshot, games: Cache, lo: nat, hi: nat, fetched: seq<Game>, invalid: seq<nat>)
    requires hi < |snap.games|
  {
    FetchedExactly(w, cfg, snap, games, lo, hi, fetched) && InvalidExactly(w, cfg, snap, games, lo, hi, invalid)
  }

  /** A finished walk from `latest` down: it goes to the cursor unless a stop rule holds, and then to the first such game. */
  ghost predicate IsWalk(
    w: World, cfg: Config, snap: Snapshot, games: Cache, cursor: Option<nat>, latest: nat, d: Discovery)
    requires latest < |snap.games|
  {
    && WalkFloor(cursor, latest + 1) <= d.floor <= latest + 1
    && Walked(w, cfg, snap, games, d.floor, latest, d.fetched, d.invalid)
    && NoStop(w, cfg, snap, games, d.floor + 1, latest)
    && (if d.cut then d.floor <= latest && StopsAt(w, cfg, snap, games, d.floor, latest)
        else d.floor == WalkFloor(cursor, latest + 1) && NoStop(w, cfg, snap, games, d.floor, latest))
  }

  function Collect(games: Cache, i: nat, result: FetchResult, fetched: seq<Game>): seq<Game> {
    if i !in games && result.ValidGame? then fetched + [result.game] else fetched
  }

  function CollectInvalid(result: FetchResult, invalid: seq<nat>): seq<nat> {
    if result.InvalidGame? then invalid + [result.index] else invalid
  }

  /** Index `i` gave nothing new: it is cached or not a valid game. */
  lemma FetchedNoMore(w: World, cfg: Config, snap: Snapshot, games: Cache, i: nat, hi: nat, fetched: seq<Game>)
    requires i <= hi < |snap.games|
    requires FetchedExactly(w, cfg, snap, games, i + 1, hi, fetched)
    requires i in games || !Classify(w, cfg, snap, i).ValidGame?
    ensures FetchedExactly(w, cfg, snap, games, i, hi, fetched)
  {
  }

  lemma FetchedPush(w: World, cfg: Config, snap: Snapshot, games: Cache, i: nat, hi: nat, fetched: seq<Game>)
    requires i <= hi < |snap.games|
    requires FetchedExactly(w, cfg, snap, games, i + 1, hi, fetched)
    requires i !in games && Classify(w, cfg, snap, i) == ValidGame(GameFrom(snap, i))
    ensures FetchedExactly(w, cfg, snap, games, i, hi, fetched + [GameFrom(snap, i)])
  {
    var more := fetched + [GameFrom(snap, i)];
    forall x | i <= x <= hi && x !in games && Classify(w, cfg, snap, x).ValidGame?
      ensures GameFrom(snap, x) in more
    {
      assert x == i || GameFrom(snap, x) in fetched;
    }
  }

  lemma FetchedOneMore(w: World, cfg: Config, snap: Snapshot, games: Cache, i: nat, hi: nat, fetched: seq<Game>)
    requires i <= hi < |snap.games|
    requires FetchedExactly(w, cfg, snap, games, i + 1, hi, fetched)
    ensures FetchedExactly(w, cfg, snap, games, i, hi,
                           Collect(games, i, Loaded(w, cfg, snap, games, i), fetched))
  {
    if i in games || !Classify(w, cfg, snap, i).ValidGame? {
      FetchedNoMore(w, cfg, snap, games, i, hi, fetched);
    } else {
      FetchedPush(w, cfg, snap, games, i, hi, fetched);
    }
  }

  lemma InvalidOneMore(w: World, cfg: Config, snap: Snapshot, games: Cache, i: nat, hi: nat, invalid: seq<nat>)
    requires i <= hi < |snap.games|
    requires InvalidExactly(w, cfg, snap, games, i + 1, hi, invalid)
    ensures InvalidExactly(w, cfg, snap, games, i, hi, CollectInvalid(Loaded(w, cfg, snap, games, i), invalid))
  {
  }

  lemma WalkedOneMore(
    w: World, cfg: Config, snap: Snapshot, games: Cache, i: nat, hi: nat, fetched: seq<Game>, invalid: seq<nat>)
    requires i <= hi < |snap.games|
    requires Walked(w, cfg, snap, games, i + 1, hi, fetched, invalid)
    ensures var result := Loaded(w, cfg, snap, games, i);
            Walked(w, cfg, snap, games, i, hi, Collect(games, i, result, fetched), CollectInvalid(result, invalid))
  {
    FetchedOneMore(w, cfg, snap, games, i, hi, fetched);
    InvalidOneMore(w, cfg, snap, games, i, hi, invalid);
  }

  /** What a walk knows after visiting `lo..=hi` without stopping. */
  ghost predicate Visited(
    w: World, cfg: Config, snap: Snapshot, games: Cache, lo: nat, hi: nat, fetched: seq<Game>, invalid: seq<nat>,
    noted: Option<nat>)
    requires hi < |snap.games|
  {
    && Walked(w, cfg, snap, games, lo, hi, fetched, invalid)
    && NoStop(w, cfg, snap, games, lo, hi) && noted == Noted(w, cfg, snap, games, lo, hi)
  }

  /** The state of the walk after one more index, and whether it stops there. */
  lemma VisitOneMore(
    w: World, cfg: Config, snap: Snapshot, games: Cache, cursor: Option<nat>, i: nat, hi: nat, fetched: seq<Game>,
    invalid: seq<nat>, noted: Option<nat>)
    requires WalkFloor(cursor, hi + 1) <= i <= hi < |snap.games|
    requires Visited(w, cfg, snap, games, i + 1, hi, fetched, invalid, noted)
    ensures var result := Loaded(w, cfg, snap, games, i);
            var more, bad := Collect(games, i, result, fetched), CollectInvalid(result, invalid);
            var deadline := NoteAnchor(snap, result, noted);
            if StopsWalk(snap, result, deadline) then IsWalk(w, cfg, snap, games, cursor, hi, Discovery(more, bad, i, true))
            else Visited(w, cfg, snap, games, i, hi, more, bad, deadline)
  {
    WalkedOneMore(w, cfg, snap, games, i, hi, fetched, invalid);
    assert Noted(w, cfg, snap, games, i, hi) == NoteAnchor(snap, Loaded(w, cfg, snap, games, i), noted);
  }

  lemma VisitStarts(w: World, cfg: Config, snap: Snapshot, games: Cache, hi: nat)
    requires hi < |snap.games|
    ensures Visited(w, cfg, snap, games, hi + 1, hi, [], [], None)
  {
  }

  lemma VisitEnds(
    w: World, cfg: Config, snap: Snapshot, games: Cache, cursor: Option<nat>, hi: nat, fetched: seq<Game>,
    invalid: seq<nat>, noted: Option<nat>)
    requires hi < |snap.games| && WalkFloor(cursor, hi + 1) <= hi + 1
    requires Visited(w, cfg, snap, games, WalkFloor(cursor, hi + 1), hi, fetched, invalid, noted)
    ensures IsWalk(w, cfg, snap, games, cursor, hi, Discovery(fetched, invalid, WalkFloor(cursor, hi + 1), false))
  {
  }

  /** `load_game`: a cached game answers for itself, any other index is read from the chain. */
  method LoadGame(w: World, cfg: Config, snap: Snapshot, games: Cache, i: nat, healthy: bool)
    returns (r: Result<FetchResult>)
    requires i < |snap.games|
    ensures r.Ok? ==> r.value == Loaded(w, cfg, snap, games, i)
    ensures healthy ==> r.Ok?
  {
    if i in games {
      r := Ok(ValidGame(games[i]));
    } else {
      r := ReadGame(w, cfg, snap, i, healthy);
    }
  }

  /** Where a walk stands above `index`: it is on its way to the floor and has visited everything in between. */
  ghost predicate IsWalking(
    w: World, cfg: Config, snap: Snapshot, games: Cache, cursor: Option<nat>, latest: nat, index: Option<nat>,
    fetched: seq<Game>, invalid: seq<nat>, noted: Option<nat>)
    requires latest < |snap.games|
  {
    && WalkFloor(cursor, latest + 1) <= Above(index) <= latest + 1
    && Visited(w, cfg, snap, games, Above(index), latest, fetched, invalid, noted)
  }

  /**
   The backward walk over the factory, from the latest index down to the cursor. It only reads: a failed
   read returns nothing, so nothing of a broken walk can reach the cache.
   */
  method WalkBack(
    w: World, cfg: Config, snap: Snapshot, games: Cache, cursor: Option<nat>, latest: nat, healthy: bool)
    returns (r: Result<Discovery>)
    requires latest < |snap.games|
    ensures r.Ok? ==> IsWalk(w, cfg, snap, games, cursor, latest, r.value)
    ensures healthy ==> r.Ok?
  {
    var stop := if cursor.Some? && latest < cursor.value then None else cursor;
    var index := Some(latest);
    var anchorDeadline: Option<nat> := None;
    var fetched: seq<Game>, invalid: seq<nat> := [], [];
    VisitStarts(w, cfg, snap, games, latest);
    while index != stop
      invariant IsWalking(w, cfg, snap, games, cursor, latest, index, fetched, invalid, anchorDeadline)
      decreases Above(index)
    {
      var i := index.value;
      var answer := LoadGame(w, cfg, snap, games, i, healthy);
      if answer.Err? {
        return Err;
      }
      var result := answer.value;
      var stops;
      fetched, invalid, anchorDeadline, stops :=
        TakeResult(w, cfg, snap, games, cursor, i, latest, result, fetched, invalid, anchorDeadline);
      if stops {
        return Ok(Discovery(fetched, invalid, i, true));
      }
      index := if i > 0 then Some(i - 1) else None;
    }
    VisitEnds(w, cfg, snap, games, cursor, latest, fetched, invalid, anchorDeadline);
    r := Ok(Discovery(fetched, invalid, Above(index), false));
  }

  /** One iteration of the walk: what the load result adds, and whether the walk stops here. */
  method TakeResult(
    ghost w: World, ghost cfg: Config, snap: Snapshot, games: Cache, ghost cursor: Option<nat>, i: nat, ghost hi: nat,
    result: FetchResult, fetched: seq<Game>, invalid: seq<nat>, noted: Option<nat>)
    returns (more: seq<Game>, bad: seq<nat>, deadline: Option<nat>, stops: bool)
    requires WalkFloor(cursor, hi + 1) <= i <= hi < |snap.games| && result == Loaded(w, cfg, snap, games, i)
    requires Visited(w, cfg, snap, games, i + 1, hi, fetched, invalid, noted)
    ensures if stops then IsWalk(w, cfg, snap, games, cursor, hi, Discovery(more, bad, i, true))
            else Visited(w, cfg, snap, games, i, hi, more, bad, deadline)
  {
    VisitOneMore(w, cfg, snap, games, cursor, i, hi, fetched, invalid, noted);
    more := Collect(games, i, result, fetched);
    bad := CollectInvalid(result, invalid);
    deadline := NoteAnchor(snap, result, noted);
    stops := StopsWalk(snap, result, deadline);
  }

  /** The cache once the first `n` fetched games are in it. */
  function WithFirst(games: Cache, fetched: seq<Game>, n: nat): Cache
    requires n <= |fetched|
  {
    if n == 0 then games else WithFirst(games, fetched, n - 1)[fetched[n - 1].index := fetched[n - 1]]
  }

  /** The cache once all fetched games are in it. */
  function WithFetched(games: Cache, fetched: seq<Game>): Cache {
    WithFirst(games, fetched, |fetched|)
  }

  /** One of the first `n` fetched games has index `i`. */
  ghost predicate FetchedBy(fetched: seq<Game>, n: nat, i: nat)
    requires n <= |fetched|
  {
    exists k :: 0 <= k < n && fetched[k].index == i
  }

  /** Old entries are kept, and exactly the first `n` fetched games are added. */
  ghost predicate CommittedFirst(before: Cache, fetched: seq<Game>, n: nat, after: Cache)
    requires n <= |fetched|
  {
    && (forall i :: i in after <==> i in before || FetchedBy(fetched, n, i))
    && (forall i :: i in before ==> after[i] == before[i])
    && forall k :: 0 <= k < n ==> fetched[k].index in after && after[fetched[k].index] == fetched[k]
  }

  ghost predicate Committed(before: Cache, fetched: seq<Game>, after: Cache) {
    CommittedFirst(before, fetched, |fetched|, after)
  }

  /** New indices, each once. */
  ghost predicate AllNew(games: Cache, fetched: seq<Game>) {
    && (forall k :: 0 <= k < |fetched| ==> fetched[k].index !in games)
    && forall j, k :: 0 <= j < k < |fetched| ==> fetched[k].index < fetched[j].index
  }

  lemma FetchedByOneMore(fetched: seq<Game>, n: nat)
    requires n < |fetched|
    ensures forall i :: FetchedBy(fetched, n + 1, i) <==> FetchedBy(fetched, n, i) || i == fetched[n].index
  {
    assert FetchedBy(fetched, n + 1, fetched[n].index);
    forall i | FetchedBy(fetched, n, i) ensures FetchedBy(fetched, n + 1, i) {
      var k :| 0 <= k < n && fetched[k].index == i;
    }
  }

  lemma CommittedOneMore(before: Cache, fetched: seq<Game>, n: nat, after: Cache, later: Cache)
    requires AllNew(before, fetched) && n < |fetched| && CommittedFirst(before, fetched, n, after)
    requires later == after[fetched[n].index := fetched[n]]
    ensures CommittedFirst(before, fetched, n + 1, later)
  {
    FetchedByOneMore(fetched, n);
  }

  lemma WithFirstOneMore(games: Cache, fetched: seq<Game>, n: nat)
    requires n < |fetched| && fetched[n].index !in games
    ensures WithFirst(games, fetched, n + 1) == WithFirst(games, fetched, n)[fetched[n].index := fetched[n]]
    ensures WithFirst(games, fetched, n + 1).Keys - games.Keys ==
            (WithFirst(games, fetched, n).Keys - games.Keys) + {fetched[n].index}
  {
  }

  lemma {:induction false} FirstCommit(games: Cache, fetched: seq<Game>, n: nat, after: Cache)
    requires AllNew(games, fetched) && n <= |fetched| && after == WithFirst(games, fetched, n)
    ensures CommittedFirst(games, fetched, n, after)
  {
    if n > 0 {
      var earlier := WithFirst(games, fetched, n - 1);
      FirstCommit(games, fetched, n - 1, earlier);
      CommittedOneMore(games, fetched, n - 1, earlier, after);
    }
  }

  lemma WithFetchedCommits(games: Cache, fetched: seq<Game>)
    requires AllNew(games, fetched)
    ensures Committed(games, fetched, WithFetched(games, fetched))
  {
    FirstCommit(games, fetched, |fetched|, WithFetched(games, fetched));
  }

  /** After the commit every entry still has the block's facts. */
  lemma CommitIsAdmitted(
    w: World, cfg: Config, snap: Snapshot, games: Cache, lo: nat, hi: nat, fetched: seq<Game>, after: Cache)
    requires hi < |snap.games| && AllAdmitted(w, cfg, snap, games)
    requires FetchedExactly(w, cfg, snap, games, lo, hi, fetched) && Committed(games, fetched, after)
    ensures AllAdmitted(w, cfg, snap, after)
  {
    forall i | i in after ensures Admitted(w, cfg, snap, i, after[i]) {
      if i !in games {
        var k :| 0 <= k < |fetched| && fetched[k].index == i;
        assert Classify(w, cfg, snap, i) == ValidGame(fetched[k]);
      }
    }
  }

  /** After the commit every valid game that was visited is cached. */
  lemma CommitIsComplete(
    w: World, cfg: Config, snap: Snapshot, games: Cache, lo: nat, hi: nat, fetched: seq<Game>, after: Cache)
    requires hi < |snap.games|
    requires FetchedExactly(w, cfg, snap, games, lo, hi, fetched) && Committed(games, fetched, after)
    ensures forall i :: lo <= i <= hi && Classify(w, cfg, snap, i).ValidGame? ==> i in after
  {
    forall i | lo <= i <= hi && Classify(w, cfg, snap, i).ValidGame? ensures i in after {
      if i !in games {
        assert GameFrom(snap, i) in fetched;
        var k :| 0 <= k < |fetched| && fetched[k] == GameFrom(snap, i);
      }
    }
  }
}

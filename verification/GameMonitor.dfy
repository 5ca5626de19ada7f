/**
 The game monitor's two-tier retries. Each discovered game is attempted up to a primary budget; after
 that it counts as processed and moves to a background queue. The saved index must not pass over a
 game that was never processed.
 */
module MonitorMachine {
  import opened Prelude
  import opened SequenceTrackers

  /** A queued game with its retry or attempt counter. */
  datatype Entry = Entry(index: nat, count: nat)

  datatype Kind = Primary(retries: nat) | Background(attempts: nat)

  /** Why an index was handed to the tracker. */
  datatype Outcome = Succeeded | WrongType | Exhausted(attempts: nat)

  /**
   `recorded` is the tracker's set with the reason for each index; `spawns` counts primary attempts;
   `end` is the tracker's end and `saved` the last value written to disk.
   */
  datatype State = State(
    running: map<nat, Kind>,
    pending: seq<Entry>,
    background: seq<Entry>,
    next: nat,
    recorded: map<nat, Outcome>,
    spawns: map<nat, nat>,
    end: nat,
    saved: Option<nat>)

  datatype Config = Config(start: nat, maxRetries: nat)

  function Without(q: seq<Entry>, index: nat): (r: seq<Entry>)
    ensures forall e :: e in r <==> e in q && e.index != index
  {
    if q == [] then [] else (if q[0].index == index then [] else [q[0]]) + Without(q[1..], index)
  }

  predicate Queued(q: seq<Entry>, index: nat) {
    exists k :: 0 <= k < |q| && q[k].index == index
  }

  ghost predicate NoTwice(q: seq<Entry>) {
    forall j, k :: 0 <= j < k < |q| ==> q[j].index != q[k].index
  }

  lemma {:induction false} WithoutKeepsNoTwice(q: seq<Entry>, index: nat)
    requires NoTwice(q)
    ensures NoTwice(Without(q, index)) && !Queued(Without(q, index), index)
    ensures forall i :: i != index ==> (Queued(Without(q, index), i) <==> Queued(q, i))
  {
    if q == [] {
    } else {
      WithoutKeepsNoTwice(q[1..], index);
      var rest := Without(q[1..], index);
      var r := Without(q, index);
      forall k | 0 <= k < |rest| ensures rest[k].index != q[0].index {
        assert rest[k] in q[1..];
      }
      QueuedFirst(q);
      if q[0].index == index {
        assert r == rest;
      } else {
        assert r == [q[0]] + rest;
        QueuedFirst(r);
        assert r[1..] == rest;
      }
    }
  }

  lemma QueuedFirst(q: seq<Entry>)
    requires q != []
    ensures forall i :: Queued(q, i) <==> q[0].index == i || Queued(q[1..], i)
  {
    forall i ensures Queued(q, i) <==> q[0].index == i || Queued(q[1..], i) {
      if Queued(q, i) && q[0].index != i {
        var k :| 0 <= k < |q| && q[k].index == i;
        assert q[1..][k - 1].index == i;
      }
      if Queued(q[1..], i) {
        var k :| 0 <= k < |q[1..]| && q[1..][k].index == i;
        assert q[k + 1].index == i;
      }
    }
  }

  lemma PushFront(q: seq<Entry>, e: Entry)
    requires NoTwice(q) && !Queued(q, e.index)
    ensures NoTwice([e] + q)
    ensures forall i :: Queued([e] + q, i) <==> i == e.index || Queued(q, i)
    ensures forall x :: x in [e] + q <==> x == e || x in q
  {
    QueuedFirst([e] + q);
    assert ([e] + q)[1..] == q;
  }

  lemma PushBack(q: seq<Entry>, e: Entry)
    requires NoTwice(q) && !Queued(q, e.index)
    ensures NoTwice(q + [e])
  {
  }

  /** A background entry after another failed attempt. */
  function Bumped(q: seq<Entry>, index: nat, attempts: nat): (r: seq<Entry>)
    ensures |r| == |q| && forall k :: 0 <= k < |q| ==> r[k].index == q[k].index
  {
    seq(|q|, k requires 0 <= k < |q| => if q[k].index == index then q[k].(count := attempts) else q[k])
  }

  function Count(spawns: map<nat, nat>, index: nat): nat {
    if index in spawns then spawns[index] else 0
  }

  datatype Step =
    | Discovered
    | Spawned(index: nat, kind: Kind)
    | FoundWrongType(index: nat, kind: Kind)
    | Exited(index: nat, success: bool)
    | Aged(index: nat)
    | Saved

  /** The queue has an entry for the game with one attempt less. */
  ghost predicate IsNextAttempt(q: seq<Entry>, index: nat, attempts: nat) {
    attempts > 0 && Entry(index, attempts - 1) in q
  }

  ghost predicate Enabled(s: State, e: Step) {
    match e
    case Discovered => true
    case Spawned(index, Primary(retries)) => Entry(index, retries) in s.pending
    case Spawned(index, Background(attempts)) => IsNextAttempt(s.background, index, attempts) && index !in s.running
    case FoundWrongType(index, Primary(retries)) => Entry(index, retries) in s.pending
    case FoundWrongType(index, Background(attempts)) =>
      IsNextAttempt(s.background, index, attempts) && index !in s.running
    case Exited(index, _) => index in s.running
    case Aged(index) => index !in s.running
    case Saved => true
  }

  /** Hands an index to the tracker; the first reason stands. */
  ghost predicate MarkedAs(s: State, index: nat, outcome: Outcome, t: State, start: nat) {
    && t.recorded == (if index in s.recorded then s.recorded else s.recorded[index := outcome])
    && IsRunEnd(start, t.recorded.Keys, t.end)
  }

  /** The effect of a failed attempt. */
  ghost predicate Requeued(cfg: Config, s: State, index: nat, kind: Kind, t: State) {
    match kind
    case Primary(retries) =>
      if retries < cfg.maxRetries then
        t == s.(running := s.running - {index}, pending := [Entry(index, retries + 1)] + s.pending)
      else
        && MarkedAs(s, index, Exhausted(retries + 1), t, cfg.start)
        && t == s.(running := s.running - {index}, recorded := t.recorded, end := t.end,
                   background := if Queued(s.background, index) then s.background
                                 else s.background + [Entry(index, 0)])
    case Background(attempts) =>
      t == s.(running := s.running - {index}, background := Bumped(s.background, index, attempts))
  }

  ghost predicate Becomes(cfg: Config, s: State, e: Step, t: State) {
    match e
    case Discovered => t == s.(next := s.next + 1, pending := [Entry(s.next, 0)] + s.pending)
    case Spawned(index, kind) =>
      if kind.Primary? then
        t == s.(running := s.running[index := kind], pending := Without(s.pending, index),
                spawns := s.spawns[index := Count(s.spawns, index) + 1])
      else
        t == s.(running := s.running[index := kind])
    case FoundWrongType(index, kind) =>
      if kind.Primary? then
        && MarkedAs(s, index, WrongType, t, cfg.start)
        && t == s.(pending := Without(s.pending, index), recorded := t.recorded, end := t.end)
      else
        t == s.(background := Without(s.background, index))
    case Exited(index, success) =>
      index in s.running &&
      (if !success then Requeued(cfg, s, index, s.running[index], t)
       else if s.running[index].Primary? then
         && MarkedAs(s, index, Succeeded, t, cfg.start)
         && t == s.(running := s.running - {index}, recorded := t.recorded, end := t.end)
       else
         t == s.(running := s.running - {index}, background := Without(s.background, index)))
    case Aged(index) => t == s.(background := Without(s.background, index))
    case Saved => t == s.(saved := Some(s.end))
  }

  // ----- invariant -----

  predicate RunsPrimary(s: State, index: nat) {
    index in s.running && s.running[index].Primary?
  }

  /** Each discovered index is in exactly one place, with an attempt count that fits. */
  ghost predicate Accounted(cfg: Config, s: State, i: nat) {
    && (cfg.start <= i < s.next <==> Queued(s.pending, i) || RunsPrimary(s, i) || i in s.recorded)
    && !(Queued(s.pending, i) && RunsPrimary(s, i))
    && !(Queued(s.pending, i) && i in s.recorded)
    && !(RunsPrimary(s, i) && i in s.recorded)
    && (RunsPrimary(s, i) ==>
          s.running[i].retries <= cfg.maxRetries && Count(s.spawns, i) == s.running[i].retries + 1)
    && (i in s.recorded && s.recorded[i].Exhausted? ==>
          s.recorded[i].attempts == cfg.maxRetries + 1 == Count(s.spawns, i))
    && (i !in s.recorded ==> Count(s.spawns, i) <= cfg.maxRetries + 1)
    && (s.next <= i ==> Count(s.spawns, i) == 0)
  }

  /** A background process is the next attempt of its queue entry. */
  ghost predicate CountsAttempts(s: State) {
    forall i :: i in s.running && s.running[i].Background? ==> IsNextAttempt(s.background, i, s.running[i].attempts)
  }

  ghost predicate Inv(cfg: Config, s: State) {
    && cfg.start <= s.next
    && (forall i: nat :: Accounted(cfg, s, i))
    && (forall e :: e in s.pending ==> e.count <= cfg.maxRetries && Count(s.spawns, e.index) == e.count)
    && NoTwice(s.pending)
    && NoTwice(s.background) && CountsAttempts(s)
    && IsRunEnd(cfg.start, s.recorded.Keys, s.end)
    && (s.saved.Some? ==> forall i :: cfg.start < i <= s.saved.value ==> i in s.recorded)
  }

  lemma EntryIsQueued(q: seq<Entry>, e: Entry)
    requires e in q
    ensures Queued(q, e.index)
  {
  }

  lemma QueuedHasEntry(q: seq<Entry>, index: nat) returns (e: Entry)
    requires Queued(q, index)
    ensures e in q && e.index == index
  {
    var k :| 0 <= k < |q| && q[k].index == index;
    e := q[k];
  }

  lemma DiscoverKeepsInv(cfg: Config, s: State, t: State)
    requires Inv(cfg, s) && Becomes(cfg, s, Discovered, t)
    ensures Inv(cfg, t)
  {
    assert Accounted(cfg, s, s.next);
    PushFront(s.pending, Entry(s.next, 0));
    forall i: nat ensures Accounted(cfg, t, i) {
      assert Accounted(cfg, s, i);
    }
  }

  lemma SpawnKeepsInv(cfg: Config, s: State, index: nat, kind: Kind, t: State)
    requires Inv(cfg, s) && Enabled(s, Spawned(index, kind)) && Becomes(cfg, s, Spawned(index, kind), t)
    ensures Inv(cfg, t)
  {
    if kind.Primary? {
      EntryIsQueued(s.pending, Entry(index, kind.retries));
      WithoutKeepsNoTwice(s.pending, index);
    }
    forall i: nat ensures Accounted(cfg, t, i) {
      assert Accounted(cfg, s, i);
    }
  }

  lemma WrongTypeKeepsInv(cfg: Config, s: State, index: nat, kind: Kind, t: State)
    requires Inv(cfg, s) && Enabled(s, FoundWrongType(index, kind)) && Becomes(cfg, s, FoundWrongType(index, kind), t)
    ensures Inv(cfg, t)
  {
    if kind.Primary? {
      EntryIsQueued(s.pending, Entry(index, kind.retries));
      WithoutKeepsNoTwice(s.pending, index);
    } else {
      WithoutKeepsNoTwice(s.background, index);
    }
    forall i: nat ensures Accounted(cfg, t, i) {
      assert Accounted(cfg, s, i);
    }
  }

  lemma BumpedKeepsOthers(q: seq<Entry>, index: nat, attempts: nat)
    ensures forall e :: e in q && e.index != index ==> e in Bumped(q, index, attempts)
  {
    forall e | e in q && e.index != index ensures e in Bumped(q, index, attempts) {
      var k :| 0 <= k < |q| && q[k] == e;
      assert Bumped(q, index, attempts)[k] == e;
    }
  }

  lemma FailureKeepsInv(cfg: Config, s: State, index: nat, t: State)
    requires Inv(cfg, s) && index in s.running && Requeued(cfg, s, index, s.running[index], t)
    ensures Inv(cfg, t)
  {
    assert Accounted(cfg, s, index);
    match s.running[index] {
      case Primary(retries) =>
        if retries < cfg.maxRetries {
          PushFront(s.pending, Entry(index, retries + 1));
        } else if !Queued(s.background, index) {
          PushBack(s.background, Entry(index, 0));
        }
      case Background(attempts) =>
        BumpedKeepsOthers(s.background, index, attempts);
    }
    forall i: nat ensures Accounted(cfg, t, i) {
      assert Accounted(cfg, s, i);
    }
  }

  lemma SuccessKeepsInv(cfg: Config, s: State, index: nat, t: State)
    requires Inv(cfg, s) && index in s.running && Becomes(cfg, s, Exited(index, true), t)
    ensures Inv(cfg, t)
  {
    WithoutKeepsNoTwice(s.background, index);
    forall i: nat ensures Accounted(cfg, t, i) {
      assert Accounted(cfg, s, i);
    }
  }

  lemma StepKeepsInv(cfg: Config, s: State, e: Step, t: State)
    requires Inv(cfg, s) && Enabled(s, e) && Becomes(cfg, s, e, t)
    ensures Inv(cfg, t)
  {
    match e {
      case Discovered => DiscoverKeepsInv(cfg, s, t);
      case Spawned(index, kind) => SpawnKeepsInv(cfg, s, index, kind, t);
      case FoundWrongType(index, kind) => WrongTypeKeepsInv(cfg, s, index, kind, t);
      case Exited(index, success) =>
        if success {
          SuccessKeepsInv(cfg, s, index, t);
        } else {
          FailureKeepsInv(cfg, s, index, t);
        }
      case Aged(index) =>
        WithoutKeepsNoTwice(s.background, index);
        forall i: nat ensures Accounted(cfg, t, i) {
          assert Accounted(cfg, s, i);
        }
      case Saved =>
        forall i: nat ensures Accounted(cfg, t, i) {
          assert Accounted(cfg, s, i);
        }
    }
  }

  /** A run starts with nothing queued but the background entries loaded from disk. */
  ghost predicate IsStart(cfg: Config, s: State) {
    && s.running == map[] && s.pending == [] && NoTwice(s.background) && s.next == cfg.start
    && s.recorded == map[] && s.spawns == map[] && s.end == cfg.start && s.saved == None
  }

  ghost predicate TookAt(cfg: Config, states: seq<State>, steps: seq<Step>, k: nat)
    requires k < |steps| && k + 1 < |states|
  {
    Enabled(states[k], steps[k]) && Becomes(cfg, states[k], steps[k], states[k + 1])
  }

  ghost predicate IsRun(cfg: Config, states: seq<State>, steps: seq<Step>) {
    && |states| == |steps| + 1
    && IsStart(cfg, states[0])
    && forall k: nat :: k < |steps| ==> TookAt(cfg, states, steps, k)
  }

  lemma RunOneMore(cfg: Config, states: seq<State>, steps: seq<Step>, e: Step, t: State)
    requires IsRun(cfg, states, steps) && Enabled(states[|steps|], e) && Becomes(cfg, states[|steps|], e, t)
    ensures IsRun(cfg, states + [t], steps + [e])
  {
    var more, longer := states + [t], steps + [e];
    forall k: nat | k < |longer| ensures TookAt(cfg, more, longer, k) {
      if k < |steps| {
        assert TookAt(cfg, states, steps, k);
      }
    }
  }

  lemma StartHasInv(cfg: Config, s: State)
    requires IsStart(cfg, s)
    ensures Inv(cfg, s)
  {
  }

  lemma {:induction false} RunKeepsInv(cfg: Config, states: seq<State>, steps: seq<Step>, k: nat)
    requires IsRun(cfg, states, steps) && k < |states|
    ensures Inv(cfg, states[k])
  {
    if k == 0 {
      StartHasInv(cfg, states[0]);
    } else {
      RunKeepsInv(cfg, states, steps, k - 1);
      assert TookAt(cfg, states, steps, k - 1);
      StepKeepsInv(cfg, states[k - 1], steps[k - 1], states[k]);
    }
  }

  /** In every reachable state each discovered index is pending, running as primary, or recorded. */
  lemma NoGameIsForgotten(cfg: Config, states: seq<State>, steps: seq<Step>, k: nat, i: nat)
    requires IsRun(cfg, states, steps) && k < |states| && cfg.start <= i < states[k].next
    ensures Queued(states[k].pending, i) || RunsPrimary(states[k], i) || i in states[k].recorded
    ensures NoTwice(states[k].background)
  {
    RunKeepsInv(cfg, states, steps, k);
    assert Accounted(cfg, states[k], i);
  }

  /** Step `m` ends a primary attempt on `i`. */
  ghost predicate PrimaryExit(states: seq<State>, steps: seq<Step>, m: nat, i: nat, success: bool)
    requires m < |steps| && m < |states|
  {
    steps[m] == Exited(i, success) && RunsPrimary(states[m], i)
  }

  /** How many primary attempts on `i` have failed in the first `k` steps. */
  ghost function Failures(states: seq<State>, steps: seq<Step>, i: nat, k: nat): nat
    requires k <= |steps| && |steps| <= |states|
  {
    if k == 0 then 0
    else Failures(states, steps, i, k - 1) + if PrimaryExit(states, steps, k - 1, i, false) then 1 else 0
  }

  /** The retry counters are the number of failed attempts, wherever the game is. */
  ghost predicate CountsFailures(cfg: Config, s: State, i: nat, failures: nat) {
    && (forall e :: e in s.pending && e.index == i ==> e.count == failures)
    && (RunsPrimary(s, i) ==> s.running[i].retries == failures)
    && (i in s.recorded && s.recorded[i].Exhausted? ==> s.recorded[i].attempts == failures)
    && (!(cfg.start <= i < s.next) ==> failures == 0)
  }

  lemma StepCountsFailures(cfg: Config, s: State, e: Step, t: State, i: nat, failures: nat)
    requires Inv(cfg, s) && Enabled(s, e) && Becomes(cfg, s, e, t) && CountsFailures(cfg, s, i, failures)
    ensures CountsFailures(cfg, t, i, failures + if e == Exited(i, false) && RunsPrimary(s, i) then 1 else 0)
  {
    assert Accounted(cfg, s, i);
    if Queued(s.pending, i) {
      var x := QueuedHasEntry(s.pending, i);
    }
    forall x | x in s.pending && x.index == i ensures Queued(s.pending, i) {
      EntryIsQueued(s.pending, x);
    }
  }

  lemma {:induction false} RunCountsFailures(
    cfg: Config, states: seq<State>, steps: seq<Step>, i: nat, k: nat, failures: nat)
    requires IsRun(cfg, states, steps) && k < |states| && failures == Failures(states, steps, i, k)
    ensures CountsFailures(cfg, states[k], i, failures)
  {
    if k > 0 {
      var earlier := Failures(states, steps, i, k - 1);
      RunCountsFailures(cfg, states, steps, i, k - 1, earlier);
      RunKeepsInv(cfg, states, steps, k - 1);
      assert TookAt(cfg, states, steps, k - 1);
      StepCountsFailures(cfg, states[k - 1], steps[k - 1], states[k], i, earlier);
    }
  }

  /** A failed background attempt is counted: the entry goes up by one, to the number of that attempt. */
  lemma FailedAttemptsAreCounted(cfg: Config, states: seq<State>, steps: seq<Step>, i: nat, k: nat)
    requires IsRun(cfg, states, steps) && k < |steps| && steps[k] == Exited(i, false)
    requires i in states[k].running && states[k].running[i].Background?
    ensures var attempts := states[k].running[i].attempts;
            && attempts > 0 && Entry(i, attempts - 1) in states[k].background && Entry(i, attempts) in states[k + 1].background
  {
    RunKeepsInv(cfg, states, steps, k);
    assert TookAt(cfg, states, steps, k);
    var q, attempts := states[k].background, states[k].running[i].attempts;
    var j :| 0 <= j < |q| && q[j] == Entry(i, attempts - 1);
    assert Bumped(q, i, attempts)[j] == Entry(i, attempts);
  }

  /** What must have happened before for index `i` to be recorded with this reason. */
  ghost predicate Earned(states: seq<State>, steps: seq<Step>, i: nat, k: nat, outcome: Outcome)
    requires k <= |steps| && |steps| <= |states|
  {
    match outcome
    case Succeeded => exists m: nat :: m < k && PrimaryExit(states, steps, m, i, true)
    case WrongType => exists m: nat, retries :: m < k && steps[m] == FoundWrongType(i, Primary(retries))
    case Exhausted(attempts) => attempts == Failures(states, steps, i, k)
  }

  lemma RecordedByStep(cfg: Config, states: seq<State>, steps: seq<Step>, i: nat, k: nat)
    requires IsRun(cfg, states, steps) && k < |steps|
    requires i !in states[k].recorded && i in states[k + 1].recorded
    ensures Earned(states, steps, i, k + 1, states[k + 1].recorded[i])
  {
    RunCountsFailures(cfg, states, steps, i, k + 1, Failures(states, steps, i, k + 1));
    assert TookAt(cfg, states, steps, k);
    if states[k + 1].recorded[i].Succeeded? {
      assert PrimaryExit(states, steps, k, i, true);
    }
  }

  /**
   The recorded reason is what happened: a success needs an earlier successful primary exit, a wrong type
   an earlier sighting of it, and exhaustion exactly as many failed primary exits as it says.
   */
  lemma {:induction false} RecordedReasonsAreEarned(cfg: Config, states: seq<State>, steps: seq<Step>, i: nat, k: nat)
    requires IsRun(cfg, states, steps) && k < |states| && i in states[k].recorded
    ensures Earned(states, steps, i, k, states[k].recorded[i])
  {
    if k > 0 {
      if i in states[k - 1].recorded {
        RecordedReasonsAreEarned(cfg, states, steps, i, k - 1);
        RunCountsFailures(cfg, states, steps, i, k, Failures(states, steps, i, k));
        assert TookAt(cfg, states, steps, k - 1);
        assert states[k].recorded[i] == states[k - 1].recorded[i];
      } else {
        RecordedByStep(cfg, states, steps, i, k - 1);
      }
    }
  }

  /**
   Every index above the starting one and at or below the saved progress was processed: it succeeded,
   had the wrong type, or used up exactly its primary attempts.
   */
  lemma SavedProgressPassesOverNothing(cfg: Config, states: seq<State>, steps: seq<Step>, k: nat, i: nat)
    requires IsRun(cfg, states, steps) && k < |states|
    requires states[k].saved.Some? && cfg.start < i <= states[k].saved.value
    ensures i in states[k].recorded
    ensures Earned(states, steps, i, k, states[k].recorded[i])
    ensures states[k].recorded[i].Exhausted? ==>
              Failures(states, steps, i, k) == cfg.maxRetries + 1 == Count(states[k].spawns, i)
  {
    RunKeepsInv(cfg, states, steps, k);
    assert Accounted(cfg, states[k], i);
    RecordedReasonsAreEarned(cfg, states, steps, i, k);
  }

  /**
   The starting index itself is the exception: the tracker begins with it as its end, so progress can
   be saved past it while it still waits in the queue.
   */
  lemma StartIndexCountsAsDone(cfg: Config)
    ensures exists states: seq<State>, steps: seq<Step> ::
              && IsRun(cfg, states, steps) && |steps| == 4
              && states[4].saved == Some(cfg.start + 1)
              && cfg.start !in states[4].recorded && Count(states[4].spawns, cfg.start) == 0
  {
    var states, steps := SkippingRun(cfg), SkippingSteps(cfg);
    forall k: nat | k < 4 ensures TookAt(cfg, states, steps, k) {
      SkippingRunSteps(cfg, k);
    }
    assert IsStart(cfg, states[0]);
    assert IsRun(cfg, states, steps);
  }

  /** Two games are discovered, and the second one has the wrong type. */
  function SkippingSteps(cfg: Config): seq<Step> {
    [Discovered, Discovered, FoundWrongType(cfg.start + 1, Primary(0)), Saved]
  }

  function SkippingRun(cfg: Config): seq<State> {
    var n := cfg.start;
    var s0 := State(map[], [], [], n, map[], map[], n, None);
    var s1 := s0.(next := n + 1, pending := [Entry(n, 0)] + s0.pending);
    var s2 := s1.(next := n + 2, pending := [Entry(n + 1, 0)] + s1.pending);
    var s3 := s2.(pending := Without(s2.pending, n + 1), recorded := map[n + 1 := WrongType], end := n + 1);
    [s0, s1, s2, s3, s3.(saved := Some(n + 1))]
  }

  lemma SkippingRunSteps(cfg: Config, k: nat)
    requires k < 4
    ensures TookAt(cfg, SkippingRun(cfg), SkippingSteps(cfg), k)
  {
    if k == 2 {
      var s2 := SkippingRun(cfg)[2];
      assert s2.pending[0] == Entry(cfg.start + 1, 0);
    }
  }
}

/** The daemon's state as an object; its ghost history shows that it only takes steps of the machine. */
module Monitors {
  import opened Prelude
  import opened SequenceTrackers
  import opened MonitorMachine

  /** The first entry of each game among the first `n` is in `kept`. */
  ghost predicate FirstsKept(entries: seq<Entry>, n: nat, kept: seq<Entry>)
    requires n <= |entries|
  {
    forall k :: 0 <= k < n && !Queued(entries[..k], entries[k].index) ==> entries[k] in kept
  }

  lemma SeenBefore(entries: seq<Entry>, k: nat)
    requires k < |entries| && Queued(entries[..k], entries[k].index)
    ensures !NoTwice(entries)
  {
    var j :| 0 <= j < |entries[..k]| && entries[..k][j].index == entries[k].index;
    assert entries[j].index == entries[k].index;
  }

  /** Keeps the first entry for each game. */
  method Dedup(entries: seq<Entry>) returns (kept: seq<Entry>, dropped: nat)
    ensures NoTwice(kept)
    ensures forall i :: Queued(kept, i) <==> Queued(entries, i)
    ensures forall e :: e in kept ==> e in entries
    ensures dropped == |entries| - |kept|
    ensures NoTwice(entries) ==> kept == entries
    ensures FirstsKept(entries, |entries|, kept)
  {
    kept := [];
    var seen: set<nat> := {};
    for k := 0 to |entries|
      invariant NoTwice(kept) && |kept| <= k
      invariant forall i :: i in seen <==> Queued(kept, i)
      invariant forall i :: i in seen <==> Queued(entries[..k], i)
      invariant forall e :: e in kept ==> e in entries
      invariant NoTwice(entries) ==> kept == entries[..k]
      invariant FirstsKept(entries, k, kept)
    {
      assert entries[..k + 1] == entries[..k] + [entries[k]];
      QueuedLast(entries[..k], entries[k]);
      QueuedLast(kept, entries[k]);
      if entries[k].index !in seen {
        seen := seen + {entries[k].index};
        kept := kept + [entries[k]];
      } else {
        SeenBefore(entries, k);
      }
    }
    assert entries[..|entries|] == entries;
    dropped := |entries| - |kept|;
  }

  lemma QueuedLast(q: seq<Entry>, e: Entry)
    ensures forall i :: Queued(q + [e], i) <==> Queued(q, i) || e.index == i
  {
    forall i ensures Queued(q + [e], i) <==> Queued(q, i) || e.index == i {
      if Queued(q, i) {
        var k :| 0 <= k < |q| && q[k].index == i;
        assert (q + [e])[k].index == i;
      }
      if e.index == i {
        assert (q + [e])[|q|].index == i;
      }
      if Queued(q + [e], i) && e.index != i {
        var k :| 0 <= k < |q + [e]| && (q + [e])[k].index == i;
        assert q[k].index == i;
      }
    }
  }

  datatype SpawnOutcome = Started | WrongGameType | FetchFailed | L2Behind

  /**
   What one iteration of the poll loop sees: the processes that ended or were killed, with their success;
   the entries past their age; the entries whose wait is over; how each spawn would go; the factory's count.
   */
  datatype Tick = Tick(
    exits: map<nat, bool>,
    aged: set<nat>,
    due: set<nat>,
    retryDue: set<nat>,
    spawn: nat -> SpawnOutcome,
    respawn: nat -> SpawnOutcome,
    count: Option<nat>)

  /** Only writes of the progress file follow. */
  ghost predicate OnlySaves(before: seq<Step>, after: seq<Step>) {
    before <= after && forall k :: |before| <= k < |after| ==> after[k].Saved?
  }

  /** No process ends in what follows. */
  ghost predicate NoExits(before: seq<Step>, after: seq<Step>) {
    before <= after && forall k :: |before| <= k < |after| ==> !after[k].Exited?
  }

  lemma NoExitsOn(before: seq<Step>, middle: seq<Step>, after: seq<Step>)
    requires NoExits(before, middle) && NoExits(middle, after)
    ensures NoExits(before, after)
  {
  }

  /** Exactly one step since `before` ends the process of `i`, with this result. */
  ghost predicate BookedOnce(before: seq<Step>, after: seq<Step>, i: nat, success: bool) {
    exists k ::
      && |before| <= k < |after| && after[k] == Exited(i, success)
      && forall j :: |before| <= j < |after| && j != k ==> !(after[j].Exited? && after[j].index == i)
  }

  /** The processes in `done` have ended since `before`, each once and with its own result, and no other has. */
  ghost predicate ExitsBooked(before: seq<Step>, after: seq<Step>, exits: map<nat, bool>, done: set<nat>)
    requires done <= exits.Keys
  {
    && before <= after
    && (forall k :: |before| <= k < |after| && after[k].Exited? ==> after[k].index in done)
    && forall i {:trigger BookedOnce(before, after, i, exits[i])} :: i in done ==> BookedOnce(before, after, i, exits[i])
  }

  lemma BookedStays(before: seq<Step>, middle: seq<Step>, after: seq<Step>, i: nat, success: bool)
    requires BookedOnce(before, middle, i, success) && middle <= after
    requires forall k :: |middle| <= k < |after| ==> !(after[k].Exited? && after[k].index == i)
    ensures BookedOnce(before, after, i, success)
  {
    var k :| && |before| <= k < |middle| && middle[k] == Exited(i, success)
             && forall j :: |before| <= j < |middle| && j != k ==> !(middle[j].Exited? && middle[j].index == i);
    assert after[k] == Exited(i, success);
  }

  lemma ExitsOneMore(
    before: seq<Step>, middle: seq<Step>, after: seq<Step>, exits: map<nat, bool>, done: set<nat>, i: nat)
    requires done <= exits.Keys && i in exits && i !in done && ExitsBooked(before, middle, exits, done)
    requires OnlySaves(middle + [Exited(i, exits[i])], after)
    ensures ExitsBooked(before, after, exits, done + {i})
  {
    assert after[|middle|] == Exited(i, exits[i]) && middle <= after;
    forall x | x in done ensures BookedOnce(before, after, x, exits[x]) {
      assert BookedOnce(before, middle, x, exits[x]);
      BookedStays(before, middle, after, x, exits[x]);
    }
  }

  lemma ExitsStay(before: seq<Step>, middle: seq<Step>, after: seq<Step>, exits: map<nat, bool>, done: set<nat>)
    requires done <= exits.Keys && ExitsBooked(before, middle, exits, done) && NoExits(middle, after)
    ensures ExitsBooked(before, after, exits, done)
  {
    forall x | x in done ensures BookedOnce(before, after, x, exits[x]) {
      assert BookedOnce(before, middle, x, exits[x]);
      BookedStays(before, middle, after, x, exits[x]);
    }
  }

  /** A waiting game whose turn has come: started, recorded as of the wrong type, or still waiting for the L2. */
  ghost predicate Tried(
    e: Entry, outcome: SpawnOutcome, running: map<nat, Kind>, pending: seq<Entry>, recorded: map<nat, Outcome>)
  {
    match outcome
    case Started => e.index in running && running[e.index] == Primary(e.count)
    case WrongGameType => e.index in recorded
    case L2Behind => e in pending
    case FetchFailed => false
  }

  ghost predicate TriedFirst(
    todo: seq<Entry>, n: nat, due: set<nat>, spawn: nat -> SpawnOutcome, running: map<nat, Kind>, pending: seq<Entry>,
    recorded: map<nat, Outcome>)
    requires n <= |todo|
  {
    forall k :: 0 <= k < n && todo[k].index in due ==> Tried(todo[k], spawn(todo[k].index), running, pending, recorded)
  }

  /** A background entry whose turn has come: its next attempt runs, or it is gone, or it still waits for the L2. */
  ghost predicate Retried(e: Entry, outcome: SpawnOutcome, running: map<nat, Kind>, background: seq<Entry>) {
    match outcome
    case Started => e.index in running && running[e.index] == Background(e.count + 1)
    case WrongGameType => !Queued(background, e.index)
    case L2Behind => e in background
    case FetchFailed => false
  }

  /** The first `n` entries whose turn has come and whose game was not running have been tried. */
  ghost predicate RetriedFirst(
    todo: seq<Entry>, n: nat, due: set<nat>, respawn: nat -> SpawnOutcome, ran: map<nat, Kind>, running: map<nat, Kind>,
    background: seq<Entry>)
    requires n <= |todo|
  {
    && (forall i: nat :: OnlyFirstsAdded(todo, n, ran, running, i))
    && forall k: nat :: k < n ==> RetriedAt(todo, k, due, respawn, ran, running, background)
  }

  /** What ran runs on as it was, and what runs beside it is one of the first `n` entries. */
  ghost predicate OnlyFirstsAdded(todo: seq<Entry>, n: nat, ran: map<nat, Kind>, running: map<nat, Kind>, i: nat)
    requires n <= |todo|
  {
    && (i in ran ==> i in running && running[i] == ran[i])
    && (i in running && i !in ran ==> IsAmongFirst(todo, n, i))
  }

  ghost predicate IsAmongFirst(todo: seq<Entry>, n: nat, i: nat)
    requires n <= |todo|
  {
    Queued(todo[..n], i)
  }

  ghost predicate RetriedAt(
    todo: seq<Entry>, k: nat, due: set<nat>, respawn: nat -> SpawnOutcome, ran: map<nat, Kind>, running: map<nat, Kind>,
    background: seq<Entry>)
    requires k < |todo|
  {
    todo[k].index in due && todo[k].index !in ran ==> Retried(todo[k], respawn(todo[k].index), running, background)
  }

  ghost predicate StillQueued(todo: seq<Entry>, k: nat, background: seq<Entry>)
    requires k < |todo|
  {
    todo[k] in background
  }

  /** The first `n` of a list. */
  ghost function Firsts(order: seq<nat>, n: nat): set<nat>
    requires n <= |order|
  {
    if n == 0 then {} else Firsts(order, n - 1) + {order[n - 1]}
  }

  lemma {:induction false} FirstsAre(order: seq<nat>, n: nat, x: nat)
    requires n <= |order|
    ensures x in Firsts(order, n) <==> x in order[..n]
  {
    if n > 0 {
      FirstsAre(order, n - 1, x);
      assert order[..n] == order[..n - 1] + [order[n - 1]];
    }
  }

  lemma NotAmongFirsts(order: seq<nat>, n: nat)
    requires n < |order| && forall j, k :: 0 <= j < k < |order| ==> order[j] != order[k]
    ensures order[n] !in Firsts(order, n)
  {
    FirstsAre(order, n, order[n]);
  }

  lemma FirstsAreAll(order: seq<nat>, all: set<nat>)
    requires forall x :: x in order <==> x in all
    ensures Firsts(order, |order|) == all
  {
    forall x: nat ensures x in Firsts(order, |order|) <==> x in all {
      FirstsAre(order, |order|, x);
      assert order[..|order|] == order;
    }
  }

  /** The queues and steps at some moment. */
  datatype Situation = Situation(
    steps: seq<Step>, running: map<nat, Kind>, pending: seq<Entry>, background: seq<Entry>)

  /**
   The processes in `done` have ended, each once and with its own result, and are off the map; nothing that
   waits is gone, nor any background entry of a game that was not running.
   */
  ghost predicate CleanedUp(begun: Situation, exits: map<nat, bool>, done: set<nat>, now: Situation)
    requires done <= exits.Keys
  {
    && ExitsBooked(begun.steps, now.steps, exits, done)
    && now.running == begun.running - done
    && (forall e :: e in begun.pending ==> e in now.pending)
    && forall e :: e in begun.background && e.index !in begun.running ==> e in now.background
  }

  ghost predicate CleanedFirst(begun: Situation, exits: map<nat, bool>, order: seq<nat>, n: nat, now: Situation)
    requires n <= |order|
  {
    Firsts(order, n) <= exits.Keys && CleanedUp(begun, exits, Firsts(order, n), now)
  }

  /** `order` lists each ended process once. */
  ghost predicate IsOrderOf(order: seq<nat>, exits: map<nat, bool>, running: map<nat, Kind>) {
    && (forall x :: x in order <==> x in exits.Keys * running.Keys)
    && forall j, k :: 0 <= j < k < |order| ==> order[j] != order[k]
  }

  lemma CleanedOneMore(
    begun: Situation, exits: map<nat, bool>, order: seq<nat>, n: nat, before: Situation, now: Situation)
    requires n < |order| && CleanedFirst(begun, exits, order, n, before)
    requires order[n] in exits && order[n] in begun.running && order[n] !in Firsts(order, n)
    requires OnlySaves(before.steps + [Exited(order[n], exits[order[n]])], now.steps)
    requires now.running == before.running - {order[n]} && forall e :: e in before.pending ==> e in now.pending
    requires forall e :: e in before.background && e.index != order[n] ==> e in now.background
    ensures CleanedFirst(begun, exits, order, n + 1, now)
  {
    ExitsOneMore(begun.steps, before.steps, now.steps, exits, Firsts(order, n), order[n]);
  }

  /** No read of this iteration fails. */
  ghost predicate AllRead(seen: Tick) {
    forall i :: seen.spawn(i) != FetchFailed && seen.respawn(i) != FetchFailed
  }

  /** Every due game of both queues has been tried. */
  ghost predicate TurnsTaken(
    seen: Tick, waiting: seq<Entry>, queue: seq<Entry>, ran: map<nat, Kind>, running: map<nat, Kind>, pending: seq<Entry>,
    recorded: map<nat, Outcome>, background: seq<Entry>)
  {
    && TriedFirst(waiting, |waiting|, seen.due, seen.spawn, running, pending, recorded)
    && AllRetried(seen, queue, ran, running, background)
  }

  /** Every due entry of `queue` whose game did not run has been tried, or its game has a primary attempt running. */
  ghost predicate AllRetried(
    seen: Tick, queue: seq<Entry>, ran: map<nat, Kind>, running: map<nat, Kind>, background: seq<Entry>)
  {
    forall e :: e in queue && e.index !in ran && e.index !in seen.aged && e.index in seen.retryDue ==>
      || (e.index in running && running[e.index].Primary?)
      || Retried(e, seen.respawn(e.index), running, background)
  }

  lemma AllRetriedAfterPrimary(
    seen: Tick, queue: seq<Entry>, ran: map<nat, Kind>, between: map<nat, Kind>, running: map<nat, Kind>, background: seq<Entry>)
    requires RetriedFirst(queue, |queue|, seen.retryDue, seen.respawn, between, running, background)
    requires forall i :: i in between && i !in ran ==> between[i].Primary?
    ensures AllRetried(seen, queue, ran, running, background)
  {
    forall e | e in queue && e.index !in ran && e.index in seen.retryDue && e.index !in between
      ensures Retried(e, seen.respawn(e.index), running, background)
    {
      var k :| 0 <= k < |queue| && queue[k] == e;
      assert RetriedAt(queue, k, seen.retryDue, seen.respawn, between, running, background);
    }
    forall i | i in between && i !in ran ensures i in running && running[i].Primary? {
      assert OnlyFirstsAdded(queue, |queue|, between, running, i);
    }
  }

  lemma TurnsTakenSince(
    seen: Tick, waiting: seq<Entry>, queue: seq<Entry>, ran: map<nat, Kind>, running: map<nat, Kind>, pending: seq<Entry>,
    recorded: map<nat, Outcome>, background: seq<Entry>, waited: seq<Entry>, pending': seq<Entry>, queued: seq<Entry>,
    earlier: map<nat, Kind>)
    requires TurnsTaken(seen, waiting, queue, ran, running, pending, recorded, background)
    requires ran.Keys <= earlier.Keys
    requires forall e :: e in waited ==> e in waiting
    requires forall e :: e in pending ==> e in pending'
    requires forall e :: e in queued && e.index !in earlier && e.index !in seen.aged ==> e in queue
    ensures TriedFirst(waited, |waited|, seen.due, seen.spawn, running, pending', recorded)
    ensures AllRetried(seen, queued, earlier, running, background)
  {
    TriedStays(waiting, waited, seen.due, seen.spawn, running, pending, recorded, running, pending');
  }

  lemma TriedOneMore(
    todo: seq<Entry>, n: nat, due: set<nat>, spawn: nat -> SpawnOutcome, running: map<nat, Kind>, pending: seq<Entry>,
    recorded: map<nat, Outcome>, running': map<nat, Kind>, pending': seq<Entry>, recorded': map<nat, Outcome>)
    requires n < |todo| && NoTwice(todo) && TriedFirst(todo, n, due, spawn, running, pending, recorded)
    requires Tried(todo[n], spawn(todo[n].index), running', pending', recorded')
    requires forall i :: i in running && i != todo[n].index ==> i in running' && running'[i] == running[i]
    requires forall e :: e in pending && e.index != todo[n].index ==> e in pending'
    requires forall i :: i in recorded ==> i in recorded'
    ensures TriedFirst(todo, n + 1, due, spawn, running', pending', recorded')
  {
  }

  /** What was tried stays so while processes are only added and nothing waiting is dropped. */
  lemma TriedStays(
    todo: seq<Entry>, fewer: seq<Entry>, due: set<nat>, spawn: nat -> SpawnOutcome, running: map<nat, Kind>,
    pending: seq<Entry>, recorded: map<nat, Outcome>, running': map<nat, Kind>, pending': seq<Entry>)
    requires TriedFirst(todo, |todo|, due, spawn, running, pending, recorded)
    requires forall e :: e in fewer ==> e in todo
    requires forall i :: i in running ==> i in running' && running'[i] == running[i]
    requires forall e :: e in pending ==> e in pending'
    ensures TriedFirst(fewer, |fewer|, due, spawn, running', pending', recorded)
  {
    forall k | 0 <= k < |fewer| && fewer[k].index in due
      ensures Tried(fewer[k], spawn(fewer[k].index), running', pending', recorded)
    {
      assert fewer[k] in todo;
      var j :| 0 <= j < |todo| && todo[j] == fewer[k];
    }
  }

  /** And those from `n` on are still queued. */
  ghost predicate Retrying(
    todo: seq<Entry>, n: nat, due: set<nat>, respawn: nat -> SpawnOutcome, ran: map<nat, Kind>, running: map<nat, Kind>,
    background: seq<Entry>)
    requires n <= |todo|
  {
    && RetriedFirst(todo, n, due, respawn, ran, running, background)
    && forall j: nat :: n <= j < |todo| ==> StillQueued(todo, j, background)
  }

  lemma RetriedOneMore(
    todo: seq<Entry>, n: nat, due: set<nat>, respawn: nat -> SpawnOutcome, ran: map<nat, Kind>, running: map<nat, Kind>,
    background: seq<Entry>, running': map<nat, Kind>, background': seq<Entry>)
    requires n < |todo| && NoTwice(todo) && Retrying(todo, n, due, respawn, ran, running, background)
    requires RetriedAt(todo, n, due, respawn, ran, running', background')
    requires forall i :: i in running ==> i in running' && running'[i] == running[i]
    requires running'.Keys <= running.Keys + {todo[n].index}
    requires forall e :: e in background && e.index != todo[n].index ==> e in background'
    requires forall e :: e in background' ==> e in background
    ensures Retrying(todo, n + 1, due, respawn, ran, running', background')
  {
    forall i: nat {:trigger OnlyFirstsAdded(todo, n + 1, ran, running', i)}
      ensures OnlyFirstsAdded(todo, n + 1, ran, running', i)
    {
      assert OnlyFirstsAdded(todo, n, ran, running, i);
      assert todo[..n + 1] == todo[..n] + [todo[n]];
      QueuedLast(todo[..n], todo[n]);
    }
    forall k: nat | k < n ensures RetriedAt(todo, k, due, respawn, ran, running', background') {
      assert RetriedAt(todo, k, due, respawn, ran, running, background) && todo[k].index != todo[n].index;
      if !Queued(background, todo[k].index) {
        FewerQueued(background, background', todo[k].index);
      }
    }
    forall j: nat | n + 1 <= j < |todo| ensures StillQueued(todo, j, background') {
      assert StillQueued(todo, j, background) && todo[n].index != todo[j].index;
    }
  }

  /** A game that was not running before its turn is not running when it comes. */
  lemma NotYetRunning(
    todo: seq<Entry>, n: nat, due: set<nat>, respawn: nat -> SpawnOutcome, ran: map<nat, Kind>, running: map<nat, Kind>,
    background: seq<Entry>)
    requires n < |todo| && NoTwice(todo) && RetriedFirst(todo, n, due, respawn, ran, running, background)
    ensures todo[n].index in running <==> todo[n].index in ran
  {
    FirstOfItsGame(todo, n);
    assert OnlyFirstsAdded(todo, n, ran, running, todo[n].index) && !IsAmongFirst(todo, n, todo[n].index);
  }

  lemma FirstOfItsGame(todo: seq<Entry>, n: nat)
    requires n < |todo| && NoTwice(todo)
    ensures !Queued(todo[..n], todo[n].index)
  {
    forall k | 0 <= k < |todo[..n]| ensures todo[..n][k].index != todo[n].index {
      assert todo[k].index != todo[n].index;
    }
  }

  lemma FewerRun(before: map<nat, Kind>, after: map<nat, Kind>, gone: set<nat>)
    requires after == before - gone
    ensures |after| <= |before| && after.Keys <= before.Keys
  {
    assert before.Keys == after.Keys + before.Keys * gone;
  }

  lemma MoreRun(before: map<nat, Kind>, after: map<nat, Kind>)
    requires before.Keys <= after.Keys
    ensures |before| <= |after|
  {
    assert after.Keys == before.Keys + (after.Keys - before.Keys);
  }

  lemma FewerQueued(q: seq<Entry>, fewer: seq<Entry>, index: nat)
    requires !Queued(q, index) && forall e :: e in fewer ==> e in q
    ensures !Queued(fewer, index)
  {
    forall k | 0 <= k < |fewer| ensures fewer[k].index != index {
      assert fewer[k] in q;
    }
  }

  /** The entries of `todo` are left, less those in `gone` among its first `n`. */
  ghost predicate KeptAfter(todo: seq<Entry>, n: nat, gone: set<nat>, left: seq<Entry>)
    requires n <= |todo|
  {
    forall e :: e in left <==> e in todo && !(e.index in gone && Queued(todo[..n], e.index))
  }

  lemma KeptOneMore(todo: seq<Entry>, n: nat, gone: set<nat>, left: seq<Entry>, later: seq<Entry>)
    requires n < |todo| && KeptAfter(todo, n, gone, left)
    requires later == if todo[n].index in gone then Without(left, todo[n].index) else left
    ensures KeptAfter(todo, n + 1, gone, later)
  {
    assert todo[..n + 1] == todo[..n] + [todo[n]];
    QueuedLast(todo[..n], todo[n]);
  }

  lemma KeptInTheEnd(todo: seq<Entry>, gone: set<nat>, left: seq<Entry>)
    requires KeptAfter(todo, |todo|, gone, left)
    ensures forall e :: e in left <==> e in todo && e.index !in gone
  {
    assert todo[..|todo|] == todo;
    forall e | e in todo ensures Queued(todo, e.index) {
      EntryIsQueued(todo, e);
    }
  }

  /** Where the game of an ended process is afterwards. */
  ghost predicate IsSettled(
    cfg: Config, index: nat, success: bool, kind: Kind, pending: seq<Entry>, background: seq<Entry>,
    recorded: map<nat, Outcome>)
  {
    if kind.Primary? then
      if success then index in recorded
      else if kind.retries < cfg.maxRetries then Entry(index, kind.retries + 1) in pending
      else index in recorded && Queued(background, index)
    else
      if success then !Queued(background, index) else Entry(index, kind.attempts) in background
  }

  /** What an exit does to the background entry of its game. */
  lemma QueueAfterExit(
    cfg: Config, states: seq<State>, steps: seq<Step>, index: nat, success: bool, kind: Kind, queue: seq<Entry>,
    after: seq<Entry>)
    requires IsRun(cfg, states, steps)
    requires index in states[|steps|].running && states[|steps|].running[index] == kind && states[|steps|].background == queue
    requires kind.Primary? && !success && kind.retries >= cfg.maxRetries ==>
               after == if Queued(queue, index) then queue else queue + [Entry(index, 0)]
    requires kind.Background? ==> after == if success then Without(queue, index) else Bumped(queue, index, kind.attempts)
    ensures kind.Primary? && !success && kind.retries >= cfg.maxRetries ==> Queued(after, index)
    ensures kind.Background? && success ==> !Queued(after, index)
    ensures kind.Background? && !success ==> Entry(index, kind.attempts) in after
  {
    RunKeepsInv(cfg, states, steps, |steps|);
    if kind.Primary? {
      QueuedLast(queue, Entry(index, 0));
    } else {
      WithoutLacks(queue, index);
      var j :| 0 <= j < |queue| && queue[j] == Entry(index, kind.attempts - 1);
      assert Bumped(queue, index, kind.attempts)[j] == Entry(index, kind.attempts);
    }
  }

  lemma WithoutLacks(q: seq<Entry>, index: nat)
    ensures !Queued(Without(q, index), index)
  {
    var rest := Without(q, index);
    forall k | 0 <= k < |rest| ensures rest[k].index != index {
      assert rest[k] in rest;
    }
  }

  class Monitor {
    const config: Config
    const tracker: SequenceTracker
    var running: map<nat, Kind>
    var pending: seq<Entry>
    var background: seq<Entry>
    var next: nat
    var saved: Option<nat>
    /** The environment: while it holds, every write to disk succeeds. */
    var healthy: bool
    ghost var recorded: map<nat, Outcome>
    ghost var spawns: map<nat, nat>
    ghost var history: seq<State>
    ghost var steps: seq<Step>

    ghost function View(): State
      reads this, tracker
    {
      State(running, pending, background, next, recorded, spawns, tracker.end, saved)
    }

    ghost predicate TrackerMatches()
      reads this, tracker
    {
      tracker.Valid() && tracker.start == config.start && tracker.added == recorded.Keys
    }

    /** The object is where some run of the machine ends. */
    ghost predicate Valid()
      reads this, tracker
    {
      && TrackerMatches()
      && IsRun(config, history, steps) && history[|steps|] == View()
    }

    ghost function Now(): Situation
      reads this
    {
      Situation(steps, running, pending, background)
    }

    /** With a healthy disk the file has the tracker's end, or that has not moved since it was `end`. */
    ghost predicate Persisted(end: nat)
      reads this, tracker
    {
      healthy ==> saved == Some(tracker.end) || tracker.end == end
    }

    constructor (cfg: Config, loaded: seq<Entry>)
      ensures Valid() && config == cfg && steps == [] && fresh(tracker)
      ensures next == cfg.start && pending == [] && running == map[]
      ensures forall i :: Queued(background, i) <==> Queued(loaded, i)
    {
      var kept, _ := Dedup(loaded);
      config := cfg;
      tracker := new SequenceTracker(cfg.start);
      running, pending, background, next, saved, healthy := map[], [], kept, cfg.start, None, false;
      recorded, spawns, steps := map[], map[], [];
      history := [State(map[], [], kept, cfg.start, map[], map[], cfg.start, None)];
    }

    /** Books a step of the machine that the fields have just taken. */
    ghost method Book(before: State, e: Step)
      requires TrackerMatches() && IsRun(config, history, steps) && history[|steps|] == before
      requires Enabled(before, e) && Becomes(config, before, e, View())
      modifies this`history, this`steps
      ensures Valid() && steps == old(steps) + [e]
    {
      RunOneMore(config, history, steps, e, View());
      history := history + [View()];
      steps := steps + [e];
    }

    /** `save_progress`: the write may fail, and then the old value stays on disk. */
    method SaveProgress()
      requires Valid()
      modifies this`saved, this`history, this`steps
      ensures Valid() && OnlySaves(old(steps), steps)
      ensures saved == old(saved) || saved == Some(tracker.end)
      ensures healthy ==> saved == Some(tracker.end)
    {
      var written: bool := *;
      if healthy || written {
        ghost var before := View();
        saved := Some(tracker.end);
        Book(before, Saved);
      }
    }

    /** Adds a processed index to the tracker. */
    method Mark(index: nat, ghost outcome: Outcome)
      requires TrackerMatches()
      modifies this`recorded, tracker
      ensures TrackerMatches()
      ensures recorded == if index in old(recorded) then old(recorded) else old(recorded)[index := outcome]
    {
      tracker.Add(index);
      if index !in recorded {
        recorded := recorded[index := outcome];
      }
    }

    /** The success branch and `maybe_requeue` for a process that was taken off the running map. */
    method SettleProcess(index: nat, kind: Kind, success: bool)
      requires TrackerMatches()
      modifies this`pending, this`background, this`recorded, tracker
      ensures TrackerMatches()
      ensures match kind
              case Primary(retries) =>
                if success then
                  && pending == old(pending) && background == old(background)
                  && recorded == (if index in old(recorded) then old(recorded) else old(recorded)[index := Succeeded])
                else if retries < config.maxRetries then
                  && pending == [Entry(index, retries + 1)] + old(pending) && background == old(background)
                  && recorded == old(recorded) && tracker.end == old(tracker.end)
                else
                  && pending == old(pending)
                  && background == (if Queued(old(background), index) then old(background)
                                    else old(background) + [Entry(index, 0)])
                  && recorded == (if index in old(recorded) then old(recorded)
                                  else old(recorded)[index := Exhausted(retries + 1)])
              case Background(attempts) =>
                && pending == old(pending) && recorded == old(recorded) && tracker.end == old(tracker.end)
                && background == if success then Without(old(background), index) else Bumped(old(background), index, attempts)
    {
      match kind {
        case Primary(retries) =>
          if success {
            Mark(index, Succeeded);
          } else if retries < config.maxRetries {
            pending := [Entry(index, retries + 1)] + pending;
          } else {
            if !Queued(background, index) {
              background := background + [Entry(index, 0)];
            }
            Mark(index, Exhausted(retries + 1));
          }
        case Background(attempts) =>
          background := if success then Without(background, index) else Bumped(background, index, attempts);
      }
    }

    /** A running process has ended with this result: exactly that step, and a save if there is something new. */
    method FinishProcess(index: nat, success: bool)
      requires Valid() && index in running
      modifies this`running, this`pending, this`background, this`recorded, this`saved, this`history, this`steps, tracker
      ensures Valid() && OnlySaves(old(steps) + [Exited(index, success)], steps)
      ensures running == old(running) - {index}
      ensures IsSettled(config, index, success, old(running)[index], pending, background, recorded)
      ensures forall e :: e in old(pending) ==> e in pending
      ensures forall e :: e in old(background) && e.index != index ==> e in background
      ensures healthy && tracker.end != old(tracker.end) ==> saved == Some(tracker.end)
      ensures tracker.end == old(tracker.end) ==> saved == old(saved) || saved == Some(tracker.end)
    {
      var end, queue := tracker.end, background;
      BookExit(index, success);
      if tracker.end != end || background != queue {
        SaveProgress();
      }
    }

    /** What the exit does, before anything is saved. */
    method BookExit(index: nat, success: bool)
      requires Valid() && index in running
      modifies this`running, this`pending, this`background, this`recorded, this`history, this`steps, tracker
      ensures Valid() && steps == old(steps) + [Exited(index, success)]
      ensures running == old(running) - {index}
      ensures IsSettled(config, index, success, old(running)[index], pending, background, recorded)
      ensures forall e :: e in old(pending) ==> e in pending
      ensures forall e :: e in old(background) && e.index != index ==> e in background
    {
      ghost var before := View();
      var kind, queue := running[index], background;
      running := running - {index};
      ghost var was := history;
      SettleProcess(index, kind, success);
      QueueAfterExit(config, was, steps, index, success, kind, queue, background);
      Book(before, Exited(index, success));
      BumpedKeepsOthers(queue, index, if kind.Background? then kind.attempts else 0);
    }

    /** The next ended process. */
    method FinishNext(exits: map<nat, bool>, order: seq<nat>, k: nat, ghost begun: Situation, ghost from: nat)
      requires k < |order| && IsOrderOf(order, exits, begun.running)
      requires Valid() && Persisted(from) && CleanedFirst(begun, exits, order, k, Now())
      modifies this`running, this`pending, this`background, this`recorded, this`saved, this`history, this`steps, tracker
      ensures Valid() && Persisted(from) && CleanedFirst(begun, exits, order, k + 1, Now())
    {
      ghost var before := Now();
      NotAmongFirsts(order, k);
      assert order[k] in exits.Keys * begun.running.Keys;
      FinishProcess(order[k], exits[order[k]]);
      CleanedOneMore(begun, exits, order, k, before, Now());
    }

    /**
     Phase 1: `exits` has each process that succeeded, failed or was killed; the others still run. Each of
     them is one step with its own result, and nothing else ends.
     */
    method CleanupFinished(exits: map<nat, bool>, ghost from: nat)
      requires Valid() && Persisted(from)
      modifies this`running, this`pending, this`background, this`recorded, this`saved, this`history, this`steps, tracker
      ensures Valid() && Persisted(from)
      ensures CleanedUp(old(Now()), exits, exits.Keys * old(running).Keys, Now())
    {
      var order: seq<nat> := Enumerate(exits.Keys * running.Keys);
      ghost var begun := Now();
      for k := 0 to |order|
        invariant Valid() && Persisted(from) && CleanedFirst(begun, exits, order, k, Now())
      {
        FinishNext(exits, order, k, begun, from);
      }
      FirstsAreAll(order, exits.Keys * begun.running.Keys);
    }

    /** Phase 2: drops exactly the background entries past their age that are not running right now. */
    method EvictAged(aged: set<nat>)
      requires Valid()
      modifies this`background, this`saved, this`history, this`steps
      ensures Valid() && NoExits(old(steps), steps)
      ensures forall e :: e in background <==> e in old(background) && !(e.index in aged && e.index !in running)
      ensures saved == old(saved) || saved == Some(tracker.end)
    {
      var todo := background;
      ghost var gone := aged - running.Keys;
      for k := 0 to |todo|
        invariant Valid() && NoExits(old(steps), steps) && saved == old(saved)
        invariant KeptAfter(todo, k, gone, background)
      {
        ghost var before, queue := steps, background;
        EvictOne(todo[k].index, aged);
        KeptOneMore(todo, k, gone, queue, background);
        NoExitsOn(old(steps), before, steps);
      }
      KeptInTheEnd(todo, gone, background);
      if background != todo {
        SaveProgress();
      }
    }

    method EvictOne(index: nat, aged: set<nat>)
      requires Valid()
      modifies this`background, this`history, this`steps
      ensures Valid() && NoExits(old(steps), steps)
      ensures background == if index in aged - running.Keys then Without(old(background), index) else old(background)
    {
      if index in aged && index !in running {
        ghost var before := View();
        background := Without(background, index);
        Book(before, Aged(index));
      }
    }

    /** The process of a game has been started: a primary attempt leaves the waiting queue. */
    method StartProcess(index: nat, kind: Kind)
      requires Valid()
      requires kind.Primary? ==> Entry(index, kind.retries) in pending
      requires kind.Background? ==> IsNextAttempt(background, index, kind.attempts) && index !in running
      modifies this`running, this`pending, this`spawns, this`history, this`steps
      ensures Valid() && steps == old(steps) + [Spawned(index, kind)]
      ensures forall e :: e in old(pending) && e.index != index ==> e in pending
      ensures kind.Background? ==> pending == old(pending)
      ensures running == old(running)[index := kind]
    {
      ghost var before := View();
      running := running[index := kind];
      if kind.Primary? {
        pending := Without(pending, index);
        spawns := spawns[index := Count(spawns, index) + 1];
      }
      Book(before, Spawned(index, kind));
    }

    /** `handle_wrong_game_type`: the game is done with, in whichever queue it waited. */
    method HandleWrongGameType(index: nat, kind: Kind)
      requires Valid()
      requires kind.Primary? ==> Entry(index, kind.retries) in pending
      requires kind.Background? ==> IsNextAttempt(background, index, kind.attempts) && index !in running
      modifies this`pending, this`background, this`recorded, this`saved, this`history, this`steps, tracker
      ensures Valid() && OnlySaves(old(steps) + [FoundWrongType(index, kind)], steps)
      ensures forall e :: e in old(pending) && e.index != index ==> e in pending
      ensures forall e :: e in old(background) && e.index != index ==> e in background
      ensures forall i :: i in old(recorded) ==> i in recorded
      ensures if kind.Primary? then background == old(background) && index in recorded
              else pending == old(pending) && recorded == old(recorded) && !Queued(background, index)
      ensures forall e :: e in background ==> e in old(background)
      ensures healthy && tracker.end != old(tracker.end) ==> saved == Some(tracker.end)
      ensures saved == old(saved) || saved == Some(tracker.end)
    {
      ghost var before := View();
      var end := tracker.end;
      if kind.Primary? {
        pending := Without(pending, index);
        Mark(index, WrongType);
      } else {
        WithoutLacks(background, index);
        background := Without(background, index);
      }
      Book(before, FoundWrongType(index, kind));
      if kind.Background? || tracker.end != end {
        SaveProgress();
      }
    }

    /** `spawn_game` with its queue-specific cleanup; `outcome` is how its reads and the spawn itself go. */
    method SpawnGame(index: nat, kind: Kind, outcome: SpawnOutcome)
      requires Valid()
      requires kind.Primary? ==> Entry(index, kind.retries) in pending
      requires kind.Background? ==> IsNextAttempt(background, index, kind.attempts) && index !in running
      modifies this`running, this`pending, this`background, this`recorded, this`spawns, this`saved, this`history,
               this`steps, tracker
      ensures Valid() && NoExits(old(steps), steps)
      ensures forall e :: e in old(pending) && e.index != index ==> e in pending
      ensures forall e :: e in old(background) && e.index != index ==> e in background
      ensures forall i :: i in old(recorded) ==> i in recorded
      ensures forall e :: e in background ==> e in old(background)
      ensures if kind.Primary? then background == old(background) else pending == old(pending) && recorded == old(recorded)
      ensures running == if outcome == Started then old(running)[index := kind] else old(running)
      ensures outcome == FetchFailed || outcome == L2Behind ==> View() == old(View())
      ensures outcome == WrongGameType ==> if kind.Primary? then index in recorded else !Queued(background, index)
      ensures healthy && tracker.end != old(tracker.end) ==> saved == Some(tracker.end)
      ensures saved == old(saved) || saved == Some(tracker.end)
    {
      match outcome {
        case FetchFailed =>
        case L2Behind =>
        case Started =>
          StartProcess(index, kind);
        case WrongGameType =>
          HandleWrongGameType(index, kind);
      }
    }

    /**
     Phase 4: starts waiting games while there are free slots; false when a read failed. If slots are left
     at the end, every due game has been tried.
     */
    method SpawnPrimary(slots: nat, due: set<nat>, spawn: nat -> SpawnOutcome, ghost from: nat) returns (proceed: bool)
      requires Valid() && Persisted(from)
      modifies this`running, this`pending, this`background, this`recorded, this`spawns, this`saved, this`history,
               this`steps, tracker
      ensures Valid() && Persisted(from) && NoExits(old(steps), steps) && background == old(background)
      ensures running.Keys >= old(running).Keys && |running| <= Max(|old(running)|, slots)
      ensures forall i :: i in running && i !in old(running) ==> running[i].Primary?
      ensures !proceed ==> exists i :: i in due && spawn(i) == FetchFailed
      ensures proceed && |running| < slots ==>
                TriedFirst(old(pending), |old(pending)|, due, spawn, running, pending, recorded)
    {
      var todo, k := pending, 0;
      assert NoTwice(todo) by {
        RunKeepsInv(config, history, steps, |steps|);
      }
      while k < |todo| && |running| < slots
        invariant 0 <= k <= |todo| && Valid() && Persisted(from) && NoExits(old(steps), steps)
        invariant background == old(background) && running.Keys >= old(running).Keys
        invariant |running| <= Max(|old(running)|, slots)
        invariant forall i :: i in running && i !in old(running) ==> running[i].Primary?
        invariant forall j :: k <= j < |todo| ==> todo[j] in pending
        invariant TriedFirst(todo, k, due, spawn, running, pending, recorded)
      {
        var e := todo[k];
        if e.index in due {
          ghost var r, p, rec := running, pending, recorded;
          SpawnGame(e.index, Primary(e.count), spawn(e.index));
          if spawn(e.index) == FetchFailed {
            return false;
          }
          TriedOneMore(todo, k, due, spawn, r, p, rec, running, pending, recorded);
        }
        k := k + 1;
      }
      proceed := true;
    }

    /**
     Phase 5: background retries with the slots that are left. If slots are still left at the end, every
     due entry whose game was not running has been tried.
     */
    method SpawnBackground(slots: nat, due: set<nat>, respawn: nat -> SpawnOutcome, ghost from: nat) returns (proceed: bool)
      requires Valid() && Persisted(from)
      modifies this`running, this`pending, this`background, this`recorded, this`spawns, this`saved, this`history,
               this`steps, tracker
      ensures Valid() && Persisted(from) && NoExits(old(steps), steps)
      ensures pending == old(pending) && recorded == old(recorded)
      ensures forall i :: i in old(running) ==> i in running && running[i] == old(running)[i]
      ensures |old(running)| <= |running| <= Max(|old(running)|, slots)
      ensures !proceed ==> exists i :: i in due && respawn(i) == FetchFailed
      ensures proceed && |running| < slots ==>
                RetriedFirst(old(background), |old(background)|, due, respawn, old(running), running, background)
    {
      assert NoTwice(background) by {
        RunKeepsInv(config, history, steps, |steps|);
      }
      var k;
      proceed, k := RetryAll(background, slots, due, respawn, steps, running, from);
      forall i | i in old(running) ensures i in running && running[i] == old(running)[i] {
        assert OnlyFirstsAdded(old(background), k, old(running), running, i);
      }
      MoreRun(old(running), running);
    }

    /** Tries the entries of `todo` one after the other until a read fails or the slots are full. */
    method RetryAll(
      todo: seq<Entry>, slots: nat, due: set<nat>, respawn: nat -> SpawnOutcome, ghost begun: seq<Step>,
      ghost ran: map<nat, Kind>, ghost from: nat)
      returns (proceed: bool, k: nat)
      requires Valid() && Persisted(from) && NoTwice(todo) && NoExits(begun, steps)
      requires Retrying(todo, 0, due, respawn, ran, running, background)
      modifies this`running, this`pending, this`background, this`recorded, this`spawns, this`saved, this`history,
               this`steps, tracker
      ensures Valid() && Persisted(from) && NoExits(begun, steps)
      ensures pending == old(pending) && recorded == old(recorded)
      ensures |running| <= Max(|old(running)|, slots)
      ensures k <= |todo| && Retrying(todo, k, due, respawn, ran, running, background)
      ensures if proceed then k == |todo| || slots <= |running|
              else k < |todo| && todo[k].index in due && respawn(todo[k].index) == FetchFailed
    {
      proceed, k := true, 0;
      while proceed && k < |todo| && |running| < slots
        invariant Valid() && Persisted(from) && NoExits(begun, steps)
        invariant pending == old(pending) && recorded == old(recorded) && |running| <= Max(|old(running)|, slots)
        invariant k <= |todo| && Retrying(todo, k, due, respawn, ran, running, background)
        invariant proceed || (k < |todo| && todo[k].index in due && respawn(todo[k].index) == FetchFailed)
        decreases proceed, |todo| - k
      {
        proceed := RetryNext(todo, k, due, respawn, begun, ran, from);
        k := if proceed then k + 1 else k;
      }
    }

    /** The next background entry: tried if its turn has come and its game does not run. */
    method RetryNext(
      todo: seq<Entry>, k: nat, due: set<nat>, respawn: nat -> SpawnOutcome, ghost begun: seq<Step>,
      ghost ran: map<nat, Kind>, ghost from: nat)
      returns (proceed: bool)
      requires Valid() && Persisted(from) && k < |todo| && NoTwice(todo) && NoExits(begun, steps)
      requires Retrying(todo, k, due, respawn, ran, running, background)
      modifies this`running, this`pending, this`background, this`recorded, this`spawns, this`saved, this`history,
               this`steps, tracker
      ensures Valid() && Persisted(from) && NoExits(begun, steps)
      ensures pending == old(pending) && recorded == old(recorded) && |running| <= |old(running)| + 1
      ensures Retrying(todo, if proceed then k + 1 else k, due, respawn, ran, running, background)
      ensures !proceed ==> todo[k].index in due && respawn(todo[k].index) == FetchFailed && running == old(running)
    {
      var e := todo[k];
      NotYetRunning(todo, k, due, respawn, ran, running, background);
      assert StillQueued(todo, k, background);
      if e.index in due && e.index !in running {
        SpawnGame(e.index, Background(e.count + 1), respawn(e.index));
        NoExitsOn(begun, old(steps), steps);
        if respawn(e.index) == FetchFailed {
          return false;
        }
      }
      RetriedOneMore(todo, k, due, respawn, ran, old(running), old(background), running, background);
      proceed := true;
    }

    /** Phase 6: queues every new index of the factory. */
    method DiscoverNew(count: nat)
      requires Valid()
      modifies this`next, this`pending, this`history, this`steps
      ensures Valid() && NoExits(old(steps), steps) && next == Max(old(next), count)
      ensures forall e :: e in old(pending) ==> e in pending
    {
      while next < count
        invariant Valid() && NoExits(old(steps), steps) && old(next) <= next <= Max(old(next), count)
        invariant forall e :: e in old(pending) ==> e in pending
        decreases count - next
      {
        ghost var before := View();
        pending := [Entry(next, 0)] + pending;
        next := next + 1;
        Book(before, Discovered);
      }
    }

    /**
     One iteration of the poll loop; a failed read ends it early. Every process that ended is booked with its
     own result. If all reads succeed, every new index is queued, and unless the slots run out every game
     whose turn has come has been tried.
     */
    method Poll(slots: nat, seen: Tick)
      requires Valid()
      modifies this`running, this`pending, this`background, this`next, this`recorded, this`spawns, this`saved,
               this`history, this`steps, tracker
      ensures Valid() && Persisted(old(tracker.end))
      ensures ExitsBooked(old(steps), steps, seen.exits, seen.exits.Keys * old(running).Keys)
      ensures |running| <= Max(|old(running)|, slots)
      ensures next == old(next) || (seen.count.Some? && next == Max(old(next), seen.count.value))
      ensures AllRead(seen) ==> next == if seen.count.Some? then Max(old(next), seen.count.value) else old(next)
      ensures AllRead(seen) && |running| < slots ==>
                && TriedFirst(old(pending), |old(pending)|, seen.due, seen.spawn, running, pending, recorded)
                && AllRetried(seen, old(background), old(running), running, background)
    {
      ghost var from := tracker.end;
      SettleAndEvict(seen, from);
      ghost var settled, waiting, queue, ran := steps, pending, background, running;
      FewerRun(old(running), ran, seen.exits.Keys);
      ghost var left := SpawnAndDiscover(slots, seen, from);
      ExitsStay(old(steps), settled, steps, seen.exits, seen.exits.Keys * old(running).Keys);
      if AllRead(seen) && |running| < slots {
        TurnsTakenSince(seen, waiting, queue, ran, running, left, recorded, background, old(pending), pending,
                        old(background), old(running));
      }
    }

    /** Phases 1 and 2. */
    method SettleAndEvict(seen: Tick, ghost from: nat)
      requires Valid() && Persisted(from)
      modifies this`running, this`pending, this`background, this`recorded, this`saved, this`history, this`steps, tracker
      ensures Valid() && Persisted(from) && running == old(running) - seen.exits.Keys
      ensures ExitsBooked(old(steps), steps, seen.exits, seen.exits.Keys * old(running).Keys)
      ensures forall e :: e in old(pending) ==> e in pending
      ensures forall e :: e in old(background) && e.index !in old(running) && e.index !in seen.aged ==> e in background
    {
      CleanupFinished(seen.exits, from);
      ghost var cleaned := steps;
      assert old(running) - seen.exits.Keys * old(running).Keys == old(running) - seen.exits.Keys;
      EvictAged(seen.aged);
      ExitsStay(old(steps), cleaned, steps, seen.exits, seen.exits.Keys * old(running).Keys);
    }

    /** Phases 4 to 6; `left` is what waits after the spawns, before the new indices come in. */
    method SpawnAndDiscover(slots: nat, seen: Tick, ghost from: nat) returns (ghost left: seq<Entry>)
      requires Valid() && Persisted(from)
      modifies this`running, this`pending, this`background, this`next, this`recorded, this`spawns, this`saved,
               this`history, this`steps, tracker
      ensures Valid() && Persisted(from) && NoExits(old(steps), steps)
      ensures |running| <= Max(|old(running)|, slots)
      ensures next == old(next) || (seen.count.Some? && next == Max(old(next), seen.count.value))
      ensures AllRead(seen) ==> next == if seen.count.Some? then Max(old(next), seen.count.value) else old(next)
      ensures forall e :: e in left ==> e in pending
      ensures AllRead(seen) && |running| < slots ==>
                TurnsTaken(seen, old(pending), old(background), old(running), running, left, recorded, background)
    {
      var proceed := SpawnBoth(slots, seen, from);
      left := pending;
      if proceed && seen.count.Some? {
        ghost var spawned := steps;
        DiscoverNew(seen.count.value);
        NoExitsOn(old(steps), spawned, steps);
      }
    }

    /** Phases 4 and 5. */
    method SpawnBoth(slots: nat, seen: Tick, ghost from: nat) returns (proceed: bool)
      requires Valid() && Persisted(from)
      modifies this`running, this`pending, this`background, this`recorded, this`spawns, this`saved, this`history,
               this`steps, tracker
      ensures Valid() && Persisted(from) && NoExits(old(steps), steps)
      ensures AllRead(seen) ==> proceed
      ensures |running| <= Max(|old(running)|, slots)
      ensures proceed && |running| < slots ==>
                TurnsTaken(seen, old(pending), old(background), old(running), running, pending, recorded, background)
    {
      proceed := SpawnPrimary(slots, seen.due, seen.spawn, from);
      if proceed {
        ghost var r, p := running, pending;
        proceed := SpawnBackground(slots, seen.retryDue, seen.respawn, from);
        if proceed && |running| < slots {
          TriedStays(old(pending), old(pending), seen.due, seen.spawn, r, p, recorded, running, pending);
          AllRetriedAfterPrimary(seen, old(background), old(running), r, running, background);
        }
      }
    }
  }
}

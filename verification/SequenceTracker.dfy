/** Tracks the end of a contiguous run of indices that arrive in any order. */
module SequenceTrackers {

  /** `e` ends the contiguous run after `start` in `added`. */
  ghost predicate IsRunEnd(start: nat, added: set<nat>, e: nat) {
    && start <= e
    && (forall i :: start < i <= e ==> i in added)
    && e + 1 !in added
  }

  /** The end depends on the set of added indices alone, not on order or repetition. */
  lemma RunEndIsUnique(start: nat, added: set<nat>, a: nat, b: nat)
    requires IsRunEnd(start, added, a) && IsRunEnd(start, added, b)
    ensures a == b
  {
    assert a < b ==> a + 1 in added;
    assert b < a ==> b + 1 in added;
  }

  class SequenceTracker {
    ghost const start: nat
    ghost var added: set<nat>
    var end: nat
    var pending: set<nat>

    ghost predicate Valid()
      reads this
    {
      && IsRunEnd(start, added, end)
      && forall i :: i in pending <==> i in added && end < i
    }

    constructor (from: nat)
      ensures Valid() && start == from && end == from && added == {}
    {
      start, added, end, pending := from, {}, from, {};
    }

    method Add(index: nat)
      requires Valid()
      modifies this
      ensures Valid() && added == old(added) + {index}
    {
      added := added + {index};
      if index <= end {
        return;
      }
      pending := pending + {index};
      var next := end + 1;
      while next in pending
        invariant added == old(added) + {index}
        invariant next == end + 1 && start <= end
        invariant forall i :: start < i <= end ==> i in added
        invariant forall i :: i in pending <==> i in added && end < i
        decreases |pending|
      {
        pending := pending - {next};
        end := next;
        next := next + 1;
      }
    }
  }
}

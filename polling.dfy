// The end-of-call detector both controllers run every two seconds, as a
// function over the sequence of tick observations. An observation is
// `None` for a failed tick (it leaves the closure untouched) and
// `Some(present)` for a tick that read the room list. The closure keeps a
// latch, `lastRoomPresent`, that starts false; a good tick first ends the
// call when the room is absent and the latch is set, then stores
// `present` in the latch.

module Polling {
  import opened Json

  /** The latch after a run of ticks: the last good observation, or the
      starting latch when there was none. */
  function LatchAfter(latch: bool, obs: seq<Option<bool>>): bool
    decreases |obs|
  {
    if obs == [] then latch
    else LatchAfter(if obs[0].Some? then obs[0].value else latch, obs[1..])
  }

  function Shift(r: Option<nat>): Option<nat> {
    match r
    case None => None
    case Some(i) => Some(i + 1)
  }

  /** The index of the tick that ends the call, scanning forward from the
      latch `latch`; `None` when no tick ends it. */
  function EndIndex(latch: bool, obs: seq<Option<bool>>): (r: Option<nat>)
    ensures r.Some? ==> r.value < |obs| && obs[r.value] == Some(false)
    decreases |obs|
  {
    if obs == [] then None
    else match obs[0]
      case None => Shift(EndIndex(latch, obs[1..]))
      case Some(present) =>
        if !present && latch then Some(0) else Shift(EndIndex(present, obs[1..]))
  }

  /** Tick `i` found the room absent after the room was seen present,
      either by an earlier good tick or by the starting latch. */
  predicate EndCandidate(latch: bool, obs: seq<Option<bool>>, i: int) {
    0 <= i < |obs| && obs[i] == Some(false) &&
    (latch || exists j :: 0 <= j < i && obs[j] == Some(true))
  }

  /** The latch a closure holds after its first tick. */
  function NextLatch(latch: bool, o: Option<bool>): bool {
    if o.Some? then o.value else latch
  }

  lemma CandidateShift(latch: bool, obs: seq<Option<bool>>, k: int)
    requires obs != [] && !(obs[0] == Some(false) && latch) && 1 <= k
    ensures EndCandidate(latch, obs, k) <==> EndCandidate(NextLatch(latch, obs[0]), obs[1..], k - 1)
  {
    var tail := obs[1..];
    var l' := NextLatch(latch, obs[0]);
    if k < |obs| {
      assert obs[k] == tail[k - 1];
      if obs[0] == Some(true) {
        assert 0 <= 0 < k && obs[0] == Some(true);
      } else {
        assert l' == latch;
        if exists j :: 0 <= j < k && obs[j] == Some(true) {
          var j :| 0 <= j < k && obs[j] == Some(true);
          assert j > 0 && tail[j - 1] == Some(true);
        }
        if exists j :: 0 <= j < k - 1 && tail[j] == Some(true) {
          var j :| 0 <= j < k - 1 && tail[j] == Some(true);
          assert obs[j + 1] == Some(true);
        }
      }
    }
  }

  /** The scan ends the call exactly at the first candidate tick, and
      never when there is none. */
  lemma {:induction false} EndIndexIsFirstCandidate(latch: bool, obs: seq<Option<bool>>)
    ensures EndIndex(latch, obs).None? ==> forall k :: !EndCandidate(latch, obs, k)
    ensures EndIndex(latch, obs).Some? ==>
      EndCandidate(latch, obs, EndIndex(latch, obs).value) &&
      forall k :: 0 <= k < EndIndex(latch, obs).value ==> !EndCandidate(latch, obs, k)
    decreases |obs|
  {
    if obs != [] && !(obs[0] == Some(false) && latch) {
      var l' := NextLatch(latch, obs[0]);
      EndIndexIsFirstCandidate(l', obs[1..]);
      assert EndIndex(latch, obs) == Shift(EndIndex(l', obs[1..]));
      assert !EndCandidate(latch, obs, 0);
      forall k | 1 <= k
        ensures EndCandidate(latch, obs, k) <==> EndCandidate(l', obs[1..], k - 1)
      {
        CandidateShift(latch, obs, k);
      }
    }
  }

  /** The polling contract from a fresh closure (latch false): the call
      ends at tick `i` exactly when tick `i` is the first tick that finds
      the room absent after some earlier good tick found it present, and
      it never ends when there is no such tick. */
  lemma EndsOnFirstAbsenceAfterPresence(obs: seq<Option<bool>>, i: nat)
    ensures EndIndex(false, obs) == Some(i) <==>
      EndCandidate(false, obs, i) && forall k :: 0 <= k < i ==> !EndCandidate(false, obs, k)
    ensures EndIndex(false, obs).None? <==> forall k :: !EndCandidate(false, obs, k)
  {
    EndIndexIsFirstCandidate(false, obs);
  }

  /** A failed tick leaves the latch where it was; a good tick replaces it. */
  lemma {:induction false} LatchAfterSnoc(latch: bool, obs: seq<Option<bool>>, o: Option<bool>)
    ensures LatchAfter(latch, obs + [o]) == NextLatch(LatchAfter(latch, obs), o)
    decreases |obs|
  {
    if obs == [] {
      assert obs + [o] == [o];
    } else {
      assert (obs + [o])[1..] == obs[1..] + [o];
      LatchAfterSnoc(NextLatch(latch, obs[0]), obs[1..], o);
    }
  }

  /** Extending the run by one tick: an end already found stays where it
      was; otherwise the new tick ends the call exactly when it finds the
      room absent while the latch is set. */
  lemma {:induction false} EndIndexSnoc(latch: bool, obs: seq<Option<bool>>, o: Option<bool>)
    ensures EndIndex(latch, obs + [o]) ==
      if EndIndex(latch, obs).Some? then EndIndex(latch, obs)
      else if o == Some(false) && LatchAfter(latch, obs) then Some(|obs|)
      else None
    decreases |obs|
  {
    if obs == [] {
      assert obs + [o] == [o];
    } else {
      assert (obs + [o])[1..] == obs[1..] + [o];
      assert (obs + [o])[0] == obs[0];
      EndIndexSnoc(NextLatch(latch, obs[0]), obs[1..], o);
    }
  }

  /** The scenarios of a call that is seen, then gone, with and without a
      failed tick in between, and of a call never seen. */
  lemma EndIndexExamples()
    ensures EndIndex(false, [Some(true), Some(true), Some(false)]) == Some(2)
    ensures EndIndex(false, [Some(true), None, Some(false)]) == Some(2)
    ensures EndIndex(false, [Some(false), None, Some(false)]).None?
    ensures EndIndex(false, [None, Some(false), Some(true), Some(false), Some(false)]) == Some(3)
  {
  }
}

/**
 * The dispatcher of GestureControlApp: a gesture label fires its mapped
 * action only when the cooldown since the last executed action has passed,
 * and only an action that does not raise advances the timestamp. The clock
 * is a parameter (`now`) and so is the failure of the system call behind the
 * action (`failure`).
 */
module GestureControl {
  import opened Wrappers
  import opened GestureDetector
  import opened SpotifyControl

  /** Minimum time, in seconds, between two executed actions. */
  const GestureCooldown: real := 1.5

  /** The timestamp the app starts with and the reset key restores. */
  const InitialGestureTime: real := 0.0

  /** The fixed map from gesture label to action, built once at start-up. */
  const GestureActions: map<string, Action> := map[
    "thumbs_up" := NextTrack,
    "thumbs_down" := PreviousTrack,
    "three_fingers" := PlayPause,
    "four_fingers" := OpenSpotify,
    "victory" := MuteUnmute,
    "index_up" := VolumeUp,
    "index_down" := VolumeDown,
    "rock" := LikeTrack,
    "ok" := Shuffle
  ]

  /** The cooldown check of the dispatcher passes. */
  predicate CooldownElapsed(last: real, now: real) {
    !(now - last < GestureCooldown)
  }

  /**
   * Whether a call with label `gesture` at time `now` executes, given the
   * time of the last executed action: the cooldown has passed, the label is
   * mapped, and its action does not raise.
   */
  predicate Fires(last: real, gesture: string, now: real, failure: bool) {
    CooldownElapsed(last, now) && gesture in GestureActions
      && !Raises(GestureActions[gesture], failure)
  }

  /** The remaining cooldown the overlay shows: max(0, cooldown - elapsed). */
  function CooldownLeft(last: real, now: real): (r: real)
    ensures r >= 0.0
    ensures now >= last ==> r <= GestureCooldown
    ensures r == 0.0 <==> CooldownElapsed(last, now)
    ensures r > 0.0 ==> r == last + GestureCooldown - now
  {
    if GestureCooldown - (now - last) > 0.0 then GestureCooldown - (now - last) else 0.0
  }

  class GestureControlApp {
    const controller: SpotifyController
    /** Time of the last executed action. */
    var lastGestureTime: real

    constructor ()
      ensures fresh(controller) && !controller.isSpotifyOpen
      ensures lastGestureTime == InitialGestureTime
    {
      controller := new SpotifyController();
      lastGestureTime := InitialGestureTime;
    }

    /**
     * execute_gesture: within the cooldown nothing happens; otherwise a mapped
     * label performs its action and, unless the action raises, records `now`
     * and reports true. An unmapped label or a raising action reports false
     * and changes nothing in the dispatcher.
     */
    method ExecuteGesture(gesture: string, now: real, failure: bool) returns (executed: bool)
      modifies this, controller
      ensures executed == Fires(old(lastGestureTime), gesture, now, failure)
      ensures !CooldownElapsed(old(lastGestureTime), now) ==> !executed
      ensures lastGestureTime == if executed then now else old(lastGestureTime)
      ensures controller.isSpotifyOpen == (old(controller.isSpotifyOpen)
        || (CooldownElapsed(old(lastGestureTime), now) && gesture in GestureActions
            && GestureActions[gesture] == OpenSpotify && !failure))
    {
      if now - lastGestureTime < GestureCooldown {
        return false;
      }
      if gesture in GestureActions {
        var raised := controller.Perform(GestureActions[gesture], failure);
        if !raised {
          lastGestureTime := now;
          return true;
        }
        return false;
      }
      return false;
    }

    /** The reset key: forget the last action, so the cooldown no longer blocks. */
    method Reset()
      modifies this
      ensures lastGestureTime == InitialGestureTime
      ensures forall now :: now >= GestureCooldown ==> CooldownElapsed(lastGestureTime, now)
    {
      lastGestureTime := InitialGestureTime;
    }

    /**
     * One frame with at most one hand: classify it and dispatch the label if
     * there is one. Every label the detector produces is mapped, so whether
     * it executes depends only on the cooldown and on the action raising.
     */
    method HandleHand(hand: Option<seq<Landmark>>, now: real, failure: bool)
      returns (detected: Option<Gesture>, executed: bool)
      requires hand.Some? ==> hand.value == [] || IsHand(hand.value)
      modifies this, controller
      ensures detected == if hand.Some? then DetectGesture(hand.value) else None
      ensures detected.Some? ==> detected.value.Name() in GestureActions
      ensures executed <==> detected.Some? && CooldownElapsed(old(lastGestureTime), now)
                            && !Raises(GestureActions[detected.value.Name()], failure)
      ensures lastGestureTime == if executed then now else old(lastGestureTime)
      ensures controller.isSpotifyOpen == (old(controller.isSpotifyOpen)
        || (detected == Some(FourFingers) && CooldownElapsed(old(lastGestureTime), now) && !failure))
    {
      detected, executed := None, false;
      if hand.Some? {
        var gesture := DetectGesture(hand.value);
        if gesture.Some? {
          EveryGestureMapped(gesture.value);
          detected := gesture;
          executed := ExecuteGesture(gesture.value.Name(), now, failure);
        }
      }
    }
  }

  /** Every label the detector can return is a key of the action map. */
  lemma EveryGestureMapped(g: Gesture)
    ensures g.Name() in GestureActions
  {
  }

  /** A call of the dispatcher, as the model sees it. */
  datatype Call = Call(gesture: string, now: real, failure: bool)

  /** The times at which a run of calls executes an action, starting from `last`. */
  function FireTimes(last: real, calls: seq<Call>): seq<real>
    decreases |calls|
  {
    if calls == [] then []
    else
      var c := calls[0];
      if Fires(last, c.gesture, c.now, c.failure) then [c.now] + FireTimes(c.now, calls[1..])
      else FireTimes(last, calls[1..])
  }

  /**
   * Over any run of calls without a reset, executed actions are at least the
   * cooldown apart from each other and from the starting timestamp, whatever
   * order the clock readings come in.
   */
  lemma {:induction false} FireTimesSpaced(last: real, calls: seq<Call>)
    ensures forall i :: 0 <= i < |FireTimes(last, calls)| ==> FireTimes(last, calls)[i] - last >= GestureCooldown
    ensures forall i, j :: 0 <= i < j < |FireTimes(last, calls)| ==>
              FireTimes(last, calls)[j] - FireTimes(last, calls)[i] >= GestureCooldown
    decreases |calls|
  {
    if calls != [] {
      var c := calls[0];
      var rest := FireTimes(if Fires(last, c.gesture, c.now, c.failure) then c.now else last, calls[1..]);
      FireTimesSpaced(if Fires(last, c.gesture, c.now, c.failure) then c.now else last, calls[1..]);
      if Fires(last, c.gesture, c.now, c.failure) {
        var r := FireTimes(last, calls);
        assert r == [c.now] + rest;
        forall i, j | 0 <= i < j < |r| ensures r[j] - r[i] >= GestureCooldown {
          if i > 0 {
            assert r[i] == rest[i - 1] && r[j] == rest[j - 1];
          } else {
            assert r[j] == rest[j - 1];
          }
        }
      }
    }
  }

  /** A run of calls none of whose labels is mapped never executes anything. */
  lemma {:induction false} UnmappedNeverFires(last: real, calls: seq<Call>)
    requires forall k :: 0 <= k < |calls| ==> calls[k].gesture !in GestureActions
    ensures FireTimes(last, calls) == []
    decreases |calls|
  {
    if calls != [] {
      UnmappedNeverFires(last, calls[1..]);
    }
  }

  /**
   * The same mapped gesture shown at three moments: it executes, is held back
   * one second later, and executes again 1.6 seconds after the first.
   */
  lemma CooldownScenario()
    ensures FireTimes(0.0, [Call("thumbs_up", 100.0, false), Call("thumbs_up", 101.0, false),
                            Call("thumbs_up", 101.6, false)]) == [100.0, 101.6]
  {
  }
}

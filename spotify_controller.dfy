/**
 * The media actions of SpotifyController. The key presses, hotkeys, window
 * lookup and browser launch are effects on the operating system; each is
 * modelled only by whether it fails (raises), passed in as `failure`.
 */
module SpotifyControl {

  /** The nine actions a gesture can trigger. */
  datatype Action =
    | NextTrack | PreviousTrack | PlayPause | VolumeUp | VolumeDown
    | MuteUnmute | LikeTrack | Shuffle | OpenSpotify

  /**
   * An action whose failure reaches its caller: the plain media-key presses
   * have no handler of their own, while liking, shuffling and opening the
   * player catch their own errors.
   */
  predicate Propagates(a: Action) {
    a in {NextTrack, PreviousTrack, PlayPause, VolumeUp, VolumeDown, MuteUnmute}
  }

  /** Whether performing `a` raises into the caller when the system call fails. */
  predicate Raises(a: Action, failure: bool) {
    failure && Propagates(a)
  }

  class SpotifyController {
    /** Whether the player has been focused or opened; it is never cleared. */
    var isSpotifyOpen: bool

    constructor ()
      ensures !isSpotifyOpen
    {
      isSpotifyOpen := false;
    }

    /**
     * Focus the player window or, when there is none, open it in the browser;
     * either way the flag is set and true returned. A failure is caught and
     * reported as false, leaving the flag as it was.
     */
    method Open(failure: bool) returns (ok: bool)
      modifies this
      ensures ok == !failure
      ensures isSpotifyOpen == (old(isSpotifyOpen) || ok)
    {
      if failure {
        ok := false;
      } else {
        isSpotifyOpen := true;
        ok := true;
      }
    }

    /**
     * Perform action `a` as the action map calls it (its return value is
     * dropped); `raised` says whether an error escaped to the caller.
     */
    method Perform(a: Action, failure: bool) returns (raised: bool)
      modifies this
      ensures raised == Raises(a, failure)
      ensures isSpotifyOpen == (old(isSpotifyOpen) || (a == OpenSpotify && !failure))
    {
      match a
      case OpenSpotify =>
        var _ := Open(failure);
        raised := false;
      case LikeTrack =>
        raised := false;
      case Shuffle =>
        raised := false;
      case _ =>
        raised := failure;
    }
  }
}

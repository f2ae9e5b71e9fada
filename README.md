# Gesturify core in Dafny

Gesturify turns hand gestures seen by a webcam into media-control actions for the Spotify player. This project models its decision logic, all of it in `main.py`. It has three parts.

- **The gesture classifier** (`GestureDetector.get_finger_state`, `detect_gesture`), in module `GestureDetector`.
  - A hand's 21 landmarks become a finger vector of five flags: thumb, index, middle, ring and pinky, with 1 meaning extended.
  - An ordered, first-match rule table maps the vector to one of nine gestures, or to no gesture (`None`).
- **The Spotify controller's state**, in module `SpotifyControl`.
  - The nine actions are modelled only by whether their system call fails, and whether that failure escapes to the caller.
  - The controller keeps an `is_spotify_open` flag, which is only ever set.
- **The cooldown dispatcher** (`GestureControlApp.execute_gesture`, the reset key and the overlay's `cooldown_left`), in module `GestureControl`.
  - It is a class with one mutable timestamp, `lastGestureTime`, and a fixed cooldown of 1.5 seconds.
  - An action fires only when the cooldown has passed. Only an action that does not raise advances the timestamp.

Landmarks are pairs of reals. The landmark's depth coordinate is never read, so it is dropped. The clock reading (`time.time()`) and the failure of the operating-system call behind an action are parameters.

Four points of main.py's behaviour the model keeps:
- The "ok" rule (main.py:157) checks the tip distance and a folded middle, ring and pinky. Because it is tried last, "ok" is returned only for the finger vector [1,1,0,0,0]; `ClassifyByShape` proves this.
- `execute_gesture` checks the cooldown (main.py:196) before it looks the label up (main.py:200). An unmapped label returns false either way.
- Only the five media-key actions and mute can raise into the dispatcher (main.py:41-69). Liking, shuffling and opening the player catch their own errors (main.py:21-39, 73-85), so a failure of theirs still counts as executed.
- The timestamp starts at 0 (main.py:174) while the clock reads seconds since the epoch, so the first gesture after start-up passes the cooldown. The cooldown scenario uses clock readings above 1.5 for that reason.

## Model

| member | source | states |
|---|---|---|
| GestureDetector.FingerState | main.py:96-112 | The finger vector has exactly five flags, each 0 or 1. Flag 0 is 1 iff thumb-tip x < thumb-IP x. Flags 1..4 are 1 iff tip y < PIP y for the landmark pairs (8,6), (12,10), (16,14), (20,18). |
| GestureDetector.GetFingerState | main.py:96-112 | The append loop over the zipped tip/PIP lists returns a five-flag vector equal to FingerState of the landmarks. |
| GestureDetector.DetectGesture | main.py:114-160 | An empty landmark list gives no gesture. "ok" is returned only when the tips touch and the finger vector is exactly [1,1,0,0,0]. |
| GestureDetector.RuleIsShape | main.py:121-151 | On a 0/1 vector, each of the first eight rules, written with the source's slice sums, holds exactly on its written-out pattern. Three and four fingers leave the thumb free. |
| GestureDetector.ClassifyByShape | main.py:121-160 | The first-match table names gesture g iff the vector has g's pattern, for every g. It names nothing iff no pattern matches. "ok" needs [1,1,0,0,0] together with touching tips. |
| GestureDetector.DetectByShape | main.py:114-160 | For a 21-point hand, detect_gesture returns g iff the hand's finger vector and tip distance have g's pattern. |
| GestureDetector.RulesDisjoint | main.py:121-151 | No two of the first eight rules hold on the same finger vector, so only the position of the "ok" rule is order-sensitive. |
| GestureDetector.OkOverlapsOnly | main.py:122-158 | On a finger vector where "ok" and an earlier rule both hold, the earlier rule is thumbs up, thumbs down or index up. |
| GestureDetector.OkOverlapsOccur | main.py:122-158 | Each of those three overlaps happens on some finger vector. |
| GestureDetector.ExtendedFingerNeverOk | main.py:153-158 | An extended middle, ring or pinky finger never yields "ok", however close the tips are. |
| SpotifyControl.SpotifyController.constructor | main.py:16-17 | The player flag starts false. |
| SpotifyControl.SpotifyController.Open | main.py:19-39 | Opening returns true and sets the flag unless the system call fails. A failure returns false and leaves the flag unchanged. |
| SpotifyControl.SpotifyController.Perform | main.py:41-85 | A failure escapes to the caller only for the five media keys and mute. The flag is set only by a successful open and is never cleared. |
| GestureControl.CooldownLeft | main.py:196-221 | max(0, cooldown - elapsed) is never negative. It is at most the cooldown when now >= last. It is 0 exactly when execute_gesture's cooldown check lets a gesture through. |
| GestureControl.GestureControlApp.constructor | main.py:163-189 | The timestamp starts at 0 and the controller is new with its flag false. |
| GestureControl.GestureControlApp.ExecuteGesture | main.py:191-209 | A call within the cooldown returns false and changes nothing. Otherwise a mapped label whose action does not raise returns true and records now. An unmapped label or a raising action returns false with the timestamp unchanged. The player flag changes only by a successful open. |
| GestureControl.GestureControlApp.Reset | main.py:312-314 | The reset key puts the timestamp back to 0, after which any clock reading of at least 1.5 passes the cooldown. |
| GestureControl.GestureControlApp.HandleHand | main.py:280-300 | A frame's hand is classified. A detected label is always mapped. It executes iff the cooldown has passed and its action does not raise. The player flag is set only when four fingers pass the cooldown and opening succeeds. No hand or no gesture changes nothing. |
| GestureControl.EveryGestureMapped | main.py:179-189 | Every label the detector can return is a key of the gesture-to-action map, so the unmapped branch of execute_gesture is never reached from the detector. |
| GestureControl.FireTimesSpaced | main.py:196-204 | Over any run of execute_gesture calls without a reset, every two executed actions are at least 1.5 apart. Each is also at least 1.5 after the starting timestamp. |
| GestureControl.UnmappedNeverFires | main.py:199-209 | A run of calls with unmapped labels never executes anything. |
| GestureControl.CooldownScenario | main.py:191-204 | A mapped gesture shown at 100.0, 101.0 and 101.6 seconds executes at 100.0 and 101.6 only. |

## Left out

- Webcam capture, frame mirroring and colour conversion, the MediaPipe hand model and landmark drawing. These are external I/O and a foreign ML library; landmarks are an input.
- The bodies of the controller's actions: `pyautogui` key presses and hotkeys, the window lookup and `webbrowser.open`. These are operating-system effects. Each is reduced to one boolean, whether its call fails. Focusing an existing window and opening the browser are not told apart, since both set the flag and return true.
- The overlay's text layout, `cv2.imshow`/`waitKey` key polling and all printed messages. These are UI. Only the `cooldown_left` arithmetic is kept.
- The `while True` frame loop, the quit key, capture failure and the top-level exception and cleanup handling. These are I/O orchestration. One iteration's classify-and-dispatch step is `HandleHand`. The reset key is `Reset`. The manual open key is `SpotifyController.Open`.
- The `current_gesture` field, which is set at start-up and never read.
- Floating-point rounding of coordinates and times. Reals are used throughout. The square root of the "ok" distance test is replaced by comparing the squared distance with 0.05², which over the reals is equivalent.
- GestureDetector.DetectGesture: requires a landmark list that is empty or has at least 21 points. A shorter non-empty list would raise an index error in the source; the hand model never produces one.
- GestureControl.FireTimesSpaced: covers runs without a reset. A reset sets the timestamp back to 0, after which the next action may follow the previous one immediately.

/**
 * The gesture classifier of GestureDetector: a hand's landmarks become a
 * five-flag finger vector (thumb, index, middle, ring, pinky; 1 = extended),
 * and the vector is matched against an ordered table of rules whose first
 * match names the gesture.
 */
module GestureDetector {
  import opened Wrappers

  /** One hand landmark in normalised image coordinates (the depth is never read). */
  datatype Landmark = Landmark(x: real, y: real)

  /** The gesture vocabulary; `None` of Option stands for "no gesture". */
  datatype Gesture =
    | ThumbsUp | ThumbsDown | ThreeFingers | FourFingers
    | Victory | IndexUp | IndexDown | Rock | Ok
  {
    /** The label the detector returns and the action map is keyed by. */
    function Name(): string {
      match this
      case ThumbsUp => "thumbs_up"
      case ThumbsDown => "thumbs_down"
      case ThreeFingers => "three_fingers"
      case FourFingers => "four_fingers"
      case Victory => "victory"
      case IndexUp => "index_up"
      case IndexDown => "index_down"
      case Rock => "rock"
      case Ok => "ok"
    }
  }

  // Landmark indices of the hand model
  const HandLandmarkCount: nat := 21
  const ThumbIp: nat := 3
  const ThumbTip: nat := 4
  const IndexFingerTip: nat := 8
  const FingerTips: seq<nat> := [8, 12, 16, 20]  // index, middle, ring, pinky
  const FingerPips: seq<nat> := [6, 10, 14, 18]  // their PIP joints

  /** Thumb tip and index tip closer than this make the "ok" sign. */
  const OkDistance: real := 0.05

  /** A landmark list the detector can index: every hand the model reports has 21 points. */
  predicate IsHand(landmarks: seq<Landmark>) {
    |landmarks| >= HandLandmarkCount
  }

  /** A finger vector: exactly five flags, each 0 or 1. */
  predicate IsFingerVector(f: seq<int>) {
    |f| == 5 && forall k :: 0 <= k < |f| ==> f[k] == 0 || f[k] == 1
  }

  function Flag(b: bool): int {
    if b then 1 else 0
  }

  /** Python's `sum` over a list of ints. */
  function Sum(s: seq<int>): int {
    if s == [] then 0 else s[0] + Sum(s[1..])
  }

  /**
   * The finger vector of a hand: the thumb is extended when its tip lies left
   * of its IP joint (the frame is mirrored), any other finger when its tip lies
   * above its PIP joint (smaller y).
   */
  function FingerState(landmarks: seq<Landmark>): (r: seq<int>)
    requires IsHand(landmarks)
    ensures IsFingerVector(r)
    ensures r[0] == 1 <==> landmarks[4].x < landmarks[3].x
    ensures r[1] == 1 <==> landmarks[8].y < landmarks[6].y
    ensures r[2] == 1 <==> landmarks[12].y < landmarks[10].y
    ensures r[3] == 1 <==> landmarks[16].y < landmarks[14].y
    ensures r[4] == 1 <==> landmarks[20].y < landmarks[18].y
  {
    [Flag(landmarks[ThumbTip].x < landmarks[ThumbIp].x)]
      + seq(4, j requires 0 <= j < 4 => Flag(landmarks[FingerTips[j]].y < landmarks[FingerPips[j]].y))
  }

  /** get_finger_state: the thumb flag, then one flag per (tip, PIP) pair, appended in a loop. */
  method GetFingerState(landmarks: seq<Landmark>) returns (fingers: seq<int>)
    requires IsHand(landmarks)
    ensures IsFingerVector(fingers)
    ensures fingers == FingerState(landmarks)
  {
    fingers := [Flag(landmarks[ThumbTip].x < landmarks[ThumbIp].x)];
    var i := 0;
    while i < |FingerTips|
      invariant 0 <= i <= |FingerTips|
      invariant fingers == FingerState(landmarks)[..i + 1]
    {
      var tip, pip := FingerTips[i], FingerPips[i];
      fingers := fingers + [Flag(landmarks[tip].y < landmarks[pip].y)];
      i := i + 1;
    }
  }

  function SquaredDistance(a: Landmark, b: Landmark): (d: real)
    ensures d >= 0.0
  {
    (a.x - b.x) * (a.x - b.x) + (a.y - b.y) * (a.y - b.y)
  }

  /**
   * Thumb tip and index tip are within OkDistance of each other.
   * detect_gesture's square root is dropped: over the reals, sqrt(d) < c iff d < c * c.
   */
  predicate TipsTouch(landmarks: seq<Landmark>)
    requires IsHand(landmarks)
  {
    SquaredDistance(landmarks[ThumbTip], landmarks[IndexFingerTip]) < OkDistance * OkDistance
  }

  /** The rule of one gesture, written over sums of slices as the detector writes it. */
  predicate Rule(g: Gesture, f: seq<int>, touch: bool)
    requires |f| == 5
  {
    match g
    case ThumbsUp => f[0] == 1 && Sum(f[1..]) == 0
    case ThumbsDown => f[0] == 0 && Sum(f[1..]) == 0
    case ThreeFingers => Sum(f[1..4]) == 3 && f[4] == 0
    case FourFingers => Sum(f[1..]) == 4
    case Victory => f[1] == 1 && f[2] == 1 && Sum(f[3..]) == 0 && f[0] == 0
    case IndexUp => f[1] == 1 && Sum(f[2..]) == 0 && f[0] == 0
    case IndexDown => f[1] == 0 && Sum(f[2..]) == 3 && f[0] == 1
    case Rock => f[1] == 1 && f[4] == 1 && Sum(f[2..4]) == 0 && f[0] == 0
    case Ok => touch && Sum(f[2..]) == 0
  }

  /**
   * The decision table of detect_gesture on a finger vector: the rules are
   * tried in the detector's order and the first that holds names the gesture.
   */
  function Classify(f: seq<int>, touch: bool): Option<Gesture>
    requires |f| == 5
  {
    if Rule(ThumbsUp, f, touch) then Some(ThumbsUp)
    else if Rule(ThumbsDown, f, touch) then Some(ThumbsDown)
    else if Rule(ThreeFingers, f, touch) then Some(ThreeFingers)
    else if Rule(FourFingers, f, touch) then Some(FourFingers)
    else if Rule(Victory, f, touch) then Some(Victory)
    else if Rule(IndexUp, f, touch) then Some(IndexUp)
    else if Rule(IndexDown, f, touch) then Some(IndexDown)
    else if Rule(Rock, f, touch) then Some(Rock)
    else if Rule(Ok, f, touch) then Some(Ok)
    else None
  }

  /** detect_gesture: no gesture for an empty landmark list, else the first matching rule. */
  function DetectGesture(landmarks: seq<Landmark>): (r: Option<Gesture>)
    requires landmarks == [] || IsHand(landmarks)
    ensures landmarks == [] ==> r == None
    ensures r == Some(Ok) ==> TipsTouch(landmarks) && FingerState(landmarks) == [1, 1, 0, 0, 0]
  {
    if landmarks == [] then None
    else
      var r := Classify(FingerState(landmarks), TipsTouch(landmarks));
      ClassifyByShape(FingerState(landmarks), TipsTouch(landmarks));
      r
  }

  // ---------------------------------------------------------------------
  // The rule table, stated pattern by pattern

  /**
   * The finger vectors each gesture stands for, written out: the thumb is
   * free for three and four fingers, every other pattern fixes all five flags.
   */
  predicate Shape(g: Gesture, f: seq<int>, touch: bool)
    requires |f| == 5
  {
    match g
    case ThumbsUp => f == [1, 0, 0, 0, 0]
    case ThumbsDown => f == [0, 0, 0, 0, 0]
    case ThreeFingers => f[1..] == [1, 1, 1, 0]
    case FourFingers => f[1..] == [1, 1, 1, 1]
    case Victory => f == [0, 1, 1, 0, 0]
    case IndexUp => f == [0, 1, 0, 0, 0]
    case IndexDown => f == [1, 0, 1, 1, 1]
    case Rock => f == [0, 1, 0, 0, 1]
    case Ok => touch && f == [1, 1, 0, 0, 0]
  }

  /** The sums the rules take, spelled out flag by flag. */
  lemma SliceSums(f: seq<int>)
    requires |f| == 5
    ensures Sum(f[1..]) == f[1] + f[2] + f[3] + f[4]
    ensures Sum(f[2..]) == f[2] + f[3] + f[4]
    ensures Sum(f[3..]) == f[3] + f[4]
    ensures Sum(f[1..4]) == f[1] + f[2] + f[3]
    ensures Sum(f[2..4]) == f[2] + f[3]
  {
    assert Sum(f[4..]) == f[4] by { assert f[4..][1..] == []; }
    assert Sum(f[3..]) == f[3] + Sum(f[4..]) by { assert f[3..][1..] == f[4..]; }
    assert Sum(f[2..]) == f[2] + Sum(f[3..]) by { assert f[2..][1..] == f[3..]; }
    assert Sum(f[1..]) == f[1] + Sum(f[2..]) by { assert f[1..][1..] == f[2..]; }
    assert Sum(f[3..4]) == f[3] by { assert f[3..4][1..] == []; }
    assert Sum(f[2..4]) == f[2] + Sum(f[3..4]) by { assert f[2..4][1..] == f[3..4]; }
    assert Sum(f[1..4]) == f[1] + Sum(f[2..4]) by { assert f[1..4][1..] == f[2..4]; }
  }

  /** On a finger vector every rule except "ok" holds exactly on its pattern. */
  lemma RuleIsShape(g: Gesture, f: seq<int>, touch: bool)
    requires IsFingerVector(f) && g != Ok
    ensures Rule(g, f, touch) <==> Shape(g, f, touch)
  {
    SliceSums(f);
    assert f == [f[0], f[1], f[2], f[3], f[4]];
    assert f[1..] == [f[1], f[2], f[3], f[4]];
  }

  /**
   * The ordered table on finger vectors: the detector names gesture g exactly
   * when the vector has g's pattern, and names nothing exactly when the vector
   * has no pattern. "ok" needs thumb and index extended as well, because the
   * other three vectors with middle, ring and pinky folded are taken first by
   * thumbs up, thumbs down and index up.
   */
  lemma ClassifyByShape(f: seq<int>, touch: bool)
    requires IsFingerVector(f)
    ensures forall g :: Classify(f, touch) == Some(g) <==> Shape(g, f, touch)
    ensures Classify(f, touch) == None <==> forall g :: !Shape(g, f, touch)
  {
    forall g | g != Ok ensures Rule(g, f, touch) <==> Shape(g, f, touch) {
      RuleIsShape(g, f, touch);
    }
    SliceSums(f);
    assert f == [f[0], f[1], f[2], f[3], f[4]];
    assert Rule(Ok, f, touch) <==> touch && f[2] == 0 && f[3] == 0 && f[4] == 0;
    assert Shape(Ok, f, touch) <==> touch && f[0] == 1 && f[1] == 1 && f[2] == 0 && f[3] == 0 && f[4] == 0;
  }

  /**
   * The first eight rules never hold together on a finger vector, so their
   * relative order does not matter.
   */
  lemma RulesDisjoint(g1: Gesture, g2: Gesture, f: seq<int>, touch: bool)
    requires IsFingerVector(f)
    requires g1 != g2 && g1 != Ok && g2 != Ok
    ensures !(Rule(g1, f, touch) && Rule(g2, f, touch))
  {
    RuleIsShape(g1, f, touch);
    RuleIsShape(g2, f, touch);
  }

  /**
   * Only the "ok" rule overlaps an earlier one, and only thumbs up, thumbs down
   * and index up, which therefore take precedence over it.
   */
  lemma OkOverlapsOnly(g: Gesture, f: seq<int>, touch: bool)
    requires IsFingerVector(f) && g != Ok
    requires Rule(Ok, f, touch) && Rule(g, f, touch)
    ensures g == ThumbsUp || g == ThumbsDown || g == IndexUp
  {
    RuleIsShape(g, f, touch);
    SliceSums(f);
    assert f == [f[0], f[1], f[2], f[3], f[4]];
  }

  /** The three overlaps of the "ok" rule do occur. */
  lemma OkOverlapsOccur()
    ensures Rule(Ok, [1, 0, 0, 0, 0], true) && Rule(ThumbsUp, [1, 0, 0, 0, 0], true)
    ensures Rule(Ok, [0, 0, 0, 0, 0], true) && Rule(ThumbsDown, [0, 0, 0, 0, 0], true)
    ensures Rule(Ok, [0, 1, 0, 0, 0], true) && Rule(IndexUp, [0, 1, 0, 0, 0], true)
  {
  }

  /** The rule table on a hand: gesture g is detected exactly when the finger vector has g's pattern. */
  lemma DetectByShape(landmarks: seq<Landmark>, g: Gesture)
    requires IsHand(landmarks)
    ensures DetectGesture(landmarks) == Some(g) <==> Shape(g, FingerState(landmarks), TipsTouch(landmarks))
  {
    ClassifyByShape(FingerState(landmarks), TipsTouch(landmarks));
  }

  /** An extended middle, ring or pinky finger never yields "ok", however close the tips are. */
  lemma ExtendedFingerNeverOk(landmarks: seq<Landmark>)
    requires IsHand(landmarks)
    requires landmarks[12].y < landmarks[10].y || landmarks[16].y < landmarks[14].y
             || landmarks[20].y < landmarks[18].y
    ensures DetectGesture(landmarks) != Some(Ok)
  {
  }
}

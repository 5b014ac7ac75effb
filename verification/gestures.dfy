/**
 * The hand-gesture classifier of the camera scripts, over the vertical
 * coordinates of MediaPipe's 21 hand landmarks.
 *
 * A hand is the sequence of landmark `y` values (0 at the top of the frame,
 * 1 at the bottom); each is scaled by the frame height `h` before comparing,
 * as the scripts do. Fingers are index, middle, ring and pinky, in that
 * order; `Tips`, `Pips` and `Mcps` give each finger's tip, middle joint and
 * knuckle landmark. Arithmetic is exact over `real`.
 *
 * The per-frame inputs and the event record shared by the three scripts'
 * detection loops are declared here too.
 */
module Gestures {
  import opened Wrappers

  const LandmarkCount: nat := 21

  /** The `y` coordinate of each hand landmark, as a fraction of the frame height. */
  type Landmarks = seq<real>

  /** MediaPipe always reports all 21 landmarks of a detected hand. */
  predicate IsHand(ys: Landmarks)
  {
    |ys| == LandmarkCount
  }

  const Tips: seq<nat> := [8, 12, 16, 20]
  const Pips: seq<nat> := [6, 10, 14, 18]
  const Mcps: seq<nat> := [5, 9, 13, 17]

  function Abs(x: real): real
  {
    if x < 0.0 then -x else x
  }

  function MaxReal(a: real, b: real): real
  {
    if a < b then b else a
  }

  /**
   * `get_finger_curl`: how far the tip lies below the middle joint, relative
   * to the joint-to-knuckle distance (never less than one pixel).
   */
  function FingerCurl(ys: Landmarks, finger: nat, h: real): (c: real)
    requires IsHand(ys) && finger < 4
    ensures c > 0.0 <==> ys[Tips[finger]] * h > ys[Pips[finger]] * h
    ensures c < 0.0 <==> ys[Tips[finger]] * h < ys[Pips[finger]] * h
  {
    var num := ys[Tips[finger]] * h - ys[Pips[finger]] * h;
    var den := MaxReal(Abs(ys[Mcps[finger]] * h - ys[Pips[finger]] * h), 1.0);
    QuotientSign(num, den);
    num / den
  }

  /** Dividing by a positive number keeps the sign. */
  lemma QuotientSign(num: real, den: real)
    requires den >= 1.0
    ensures num / den > 0.0 <==> num > 0.0
    ensures num / den < 0.0 <==> num < 0.0
  {
    var q := num / den;
    assert q * den == num;
    if q > 0.0 { assert q * den > 0.0; }
    if q < 0.0 { assert q * den < 0.0; }
    if q == 0.0 { assert q * den == 0.0; }
  }

  /** The number of `true` entries. */
  function CountTrue(bs: seq<bool>): (n: nat)
    ensures n <= |bs|
  {
    if |bs| == 0 then 0 else (if bs[0] then 1 else 0) + CountTrue(bs[1..])
  }

  /** All entries are counted exactly when all of them hold. */
  lemma {:induction false} CountTrueAll(bs: seq<bool>)
    ensures CountTrue(bs) == |bs| <==> forall i :: 0 <= i < |bs| ==> bs[i]
  {
    if |bs| > 0 {
      CountTrueAll(bs[1..]);
      if CountTrue(bs) == |bs| {
        forall i | 0 <= i < |bs|
          ensures bs[i]
        {
          if i > 0 {
            assert bs[i] == bs[1..][i - 1];
          }
        }
      }
    }
  }

  // ---------------------------------------------------------------------
  // The four poses
  // ---------------------------------------------------------------------

  /** Camera.py's fist allowance: a tip counts as folded up to 2% of the frame height above its joint. */
  const NearFoldMargin: real := 0.02

  /** The fist test of main.py and main2.py: every tip strictly below its middle joint. */
  const StrictFoldMargin: real := 0.0

  /** Whether the finger's tip is lower than its middle joint, less the margin. */
  predicate Folded(ys: Landmarks, finger: nat, h: real, margin: real)
    requires IsHand(ys) && finger < 4
  {
    ys[Tips[finger]] * h > ys[Pips[finger]] * h - h * margin
  }

  /** `is_fist`: counts the folded fingers and asks for all four. */
  function IsFist(ys: Landmarks, h: real, margin: real): (b: bool)
    requires IsHand(ys)
    ensures b <==> forall f :: 0 <= f < 4 ==> Folded(ys, f, h, margin)
  {
    var folded := [Folded(ys, 0, h, margin), Folded(ys, 1, h, margin), Folded(ys, 2, h, margin), Folded(ys, 3, h, margin)];
    CountTrueAll(folded);
    assert forall f :: 0 <= f < 4 ==> folded[f] == Folded(ys, f, h, margin);
    CountTrue(folded) == 4
  }

  /** A finger counts as extended when its curl is below 0.3. */
  predicate Extended(ys: Landmarks, finger: nat, h: real)
    requires IsHand(ys) && finger < 4
  {
    FingerCurl(ys, finger, h) < 0.3
  }

  /** `is_paper`: counts the extended fingers and asks for all four. */
  function IsPaper(ys: Landmarks, h: real): (b: bool)
    requires IsHand(ys)
    ensures b <==> forall f :: 0 <= f < 4 ==> Extended(ys, f, h)
  {
    var extended := [Extended(ys, 0, h), Extended(ys, 1, h), Extended(ys, 2, h), Extended(ys, 3, h)];
    CountTrueAll(extended);
    assert forall f :: 0 <= f < 4 ==> extended[f] == Extended(ys, f, h);
    CountTrue(extended) == 4
  }

  /** `is_scissors`: index and middle extended, ring curled past 0.5 and pinky past 0.4. */
  function IsScissors(ys: Landmarks, h: real): (b: bool)
    requires IsHand(ys)
    ensures b ==> Extended(ys, 0, h) && Extended(ys, 1, h) && !Extended(ys, 2, h) && !Extended(ys, 3, h)
    ensures b ==> forall f :: 2 <= f < 4 ==> FingerCurl(ys, f, h) > FingerCurl(ys, 0, h) + 0.1
  {
    && FingerCurl(ys, 0, h) < 0.3
    && FingerCurl(ys, 1, h) < 0.3
    && FingerCurl(ys, 2, h) > 0.5
    && FingerCurl(ys, 3, h) > 0.4
  }

  /** Whether a finger is curled more than 0.1 beyond the middle finger. */
  predicate MoreFoldedThanMiddle(ys: Landmarks, finger: nat, h: real)
    requires IsHand(ys) && finger < 4
  {
    FingerCurl(ys, finger, h) > FingerCurl(ys, 1, h) + 0.1
  }

  /**
   * `is_middle_finger`: the middle finger's curl is below 0.6 and at least
   * two of the other three fingers are curled more than 0.1 beyond it.
   */
  function IsMiddleFinger(ys: Landmarks, h: real): (b: bool)
    requires IsHand(ys)
    ensures b <==>
      && FingerCurl(ys, 1, h) < 0.6
      && ((MoreFoldedThanMiddle(ys, 0, h) && MoreFoldedThanMiddle(ys, 2, h))
          || (MoreFoldedThanMiddle(ys, 0, h) && MoreFoldedThanMiddle(ys, 3, h))
          || (MoreFoldedThanMiddle(ys, 2, h) && MoreFoldedThanMiddle(ys, 3, h)))
  {
    var more := [MoreFoldedThanMiddle(ys, 0, h), MoreFoldedThanMiddle(ys, 2, h), MoreFoldedThanMiddle(ys, 3, h)];
    CountTrueOfThree(more[0], more[1], more[2]);
    FingerCurl(ys, 1, h) < 0.6 && CountTrue(more) >= 2
  }

  /** At least two of three flags are set exactly when some pair of them is. */
  lemma CountTrueOfThree(a: bool, b: bool, c: bool)
    ensures CountTrue([a, b, c]) >= 2 <==> (a && b) || (a && c) || (b && c)
  {
    assert [a, b, c][1..] == [b, c];
    assert [b, c][1..] == [c];
    assert [c][1..] == [];
    assert CountTrue([c]) == (if c then 1 else 0);
    assert CountTrue([b, c]) == (if b then 1 else 0) + CountTrue([c]);
    assert CountTrue([a, b, c]) == (if a then 1 else 0) + CountTrue([b, c]);
  }

  /** Scissors needs the ring finger curled past 0.5, paper below 0.3: no hand is both. */
  lemma ScissorsExcludesPaper(ys: Landmarks, h: real)
    requires IsHand(ys)
    ensures !(IsScissors(ys, h) && IsPaper(ys, h))
  {
    if IsPaper(ys, h) {
      assert Extended(ys, 2, h);
    }
  }

  // ---------------------------------------------------------------------
  // detect_gesture
  // ---------------------------------------------------------------------

  datatype Gesture = MiddleFinger | Rock | Scissors | Paper

  /** Whether the hand shows the gesture (Camera.py's fist test, with its margin). */
  predicate Holds(g: Gesture, ys: Landmarks, h: real)
    requires IsHand(ys)
  {
    match g
    case MiddleFinger => IsMiddleFinger(ys, h)
    case Rock => IsFist(ys, h, NearFoldMargin)
    case Scissors => IsScissors(ys, h)
    case Paper => IsPaper(ys, h)
  }

  /** The order in which the gestures are tried: the middle finger before the fist that it resembles. */
  const Priority: seq<Gesture> := [MiddleFinger, Rock, Scissors, Paper]

  /** The on-screen label of each gesture. */
  function Label(g: Gesture): string
  {
    match g
    case MiddleFinger => "MIDDLE FINGER"
    case Rock => "ROCK (FIST)"
    case Scissors => "SCISSORS (PEACE)"
    case Paper => "PAPER (OPEN HAND)"
  }

  /** `detect_gesture`: the gesture and its label, or no gesture and the empty label. */
  function DetectGesture(ys: Landmarks, h: real): (r: (Option<Gesture>, string))
    requires IsHand(ys)
    ensures r.0.Some? ==> Holds(r.0.value, ys, h) && r.1 == Label(r.0.value) && r.1 != ""
    ensures r.0.None? ==> r.1 == ""
  {
    if IsMiddleFinger(ys, h) then (Some(MiddleFinger), "MIDDLE FINGER")
    else if IsFist(ys, h, NearFoldMargin) then (Some(Rock), "ROCK (FIST)")
    else if IsScissors(ys, h) then (Some(Scissors), "SCISSORS (PEACE)")
    else if IsPaper(ys, h) then (Some(Paper), "PAPER (OPEN HAND)")
    else (None, "")
  }

  /** Reference definition: the first gesture of a list that the hand shows. */
  function FirstHolding(gs: seq<Gesture>, ys: Landmarks, h: real): Option<Gesture>
    requires IsHand(ys)
  {
    if |gs| == 0 then None
    else if Holds(gs[0], ys, h) then Some(gs[0])
    else FirstHolding(gs[1..], ys, h)
  }

  /** The first holding gesture is one that holds, and every gesture listed before it does not. */
  lemma {:induction false} FirstHoldingIsFirst(gs: seq<Gesture>, ys: Landmarks, h: real)
    requires IsHand(ys)
    ensures FirstHolding(gs, ys, h).None? <==> forall k :: 0 <= k < |gs| ==> !Holds(gs[k], ys, h)
    ensures FirstHolding(gs, ys, h).Some? ==>
      exists k :: 0 <= k < |gs| && gs[k] == FirstHolding(gs, ys, h).value && Holds(gs[k], ys, h)
        && forall j :: 0 <= j < k ==> !Holds(gs[j], ys, h)
  {
    if |gs| > 0 && !Holds(gs[0], ys, h) {
      FirstHoldingIsFirst(gs[1..], ys, h);
      if FirstHolding(gs, ys, h).Some? {
        var k :| 0 <= k < |gs[1..]| && gs[1..][k] == FirstHolding(gs, ys, h).value && Holds(gs[1..][k], ys, h)
          && forall j :: 0 <= j < k ==> !Holds(gs[1..][j], ys, h);
        assert gs[k + 1] == gs[1..][k];
        forall j | 0 <= j < k + 1
          ensures !Holds(gs[j], ys, h)
        {
          if j > 0 {
            assert gs[j] == gs[1..][j - 1];
          }
        }
      } else {
        forall k | 0 <= k < |gs|
          ensures !Holds(gs[k], ys, h)
        {
          if k > 0 {
            assert gs[k] == gs[1..][k - 1];
          }
        }
      }
    }
  }

  /**
   * `detect_gesture` answers the first gesture in priority order that the
   * hand shows, or none when it shows none of the four.
   */
  lemma DetectFollowsPriority(ys: Landmarks, h: real)
    requires IsHand(ys)
    ensures DetectGesture(ys, h).0 == FirstHolding(Priority, ys, h)
    ensures DetectGesture(ys, h).0.None? <==> forall k :: 0 <= k < |Priority| ==> !Holds(Priority[k], ys, h)
  {
    var rest := [Rock, Scissors, Paper];
    assert Priority[1..] == rest && rest[1..] == [Scissors, Paper];
    assert [Scissors, Paper][1..] == [Paper] && [Paper][1..] == [];
    assert FirstHolding([Paper], ys, h) == if IsPaper(ys, h) then Some(Paper) else None;
    assert FirstHolding([Scissors, Paper], ys, h)
      == if IsScissors(ys, h) then Some(Scissors) else FirstHolding([Paper], ys, h);
    assert FirstHolding(rest, ys, h)
      == if IsFist(ys, h, NearFoldMargin) then Some(Rock) else FirstHolding([Scissors, Paper], ys, h);
    assert FirstHolding(Priority, ys, h)
      == if IsMiddleFinger(ys, h) then Some(MiddleFinger) else FirstHolding(rest, ys, h);
    FirstHoldingIsFirst(Priority, ys, h);
  }

  // ---------------------------------------------------------------------
  // Per-frame input and the event record of the detection loops
  // ---------------------------------------------------------------------

  /** One captured frame: the first detected hand, if any, the frame height, and the clock reading. */
  datatype Frame = Frame(hand: Option<Landmarks>, height: real, now: real)

  predicate ValidFrame(f: Frame)
  {
    f.hand.Some? ==> IsHand(f.hand.value)
  }

  /** The fist test of main.py and main2.py applied to a frame: a hand is seen and all four tips lie below their joints. */
  predicate ShowsFist(f: Frame)
    requires ValidFrame(f)
  {
    f.hand.Some? && IsFist(f.hand.value, f.height, StrictFoldMargin)
  }

  /** An event dictionary as buffered for `/events` and posted to the backend. */
  datatype Event = Event(eventType: string, description: string, cameraId: string, timestamp: real)

  /** Every event is attributed to the one camera. */
  const CameraId: string := "Camera 1"
}

/**
 * The detection loop of the four-gesture camera server (Camera.py): one
 * step per captured frame, the event buffer served by `/events`, and the
 * events posted to the backend's `POST /api/log`.
 *
 * Landmark detection runs only once `interval` seconds have passed since the
 * last processed frame; in between, the last gesture and label are kept. An
 * event is recorded when a processed frame shows a gesture different from the
 * current one. Posting is fire-and-forget, so it is modelled as an outbox
 * (`sent`) that only ever grows.
 */
module GestureCamera {
  import opened Wrappers
  import opened Gestures
  import opened LogStore
  import opened LogApi

  /** The shared status served by `/api/status`: the gesture, one flag per gesture, the label and the frame count. */
  datatype Status = Status(
    gesture: Option<Gesture>,
    rockDetected: bool,
    paperDetected: bool,
    scissorsDetected: bool,
    middleFingerDetected: bool,
    labelText: string,
    frameCount: nat)

  datatype Detector = Detector(
    current: Option<Gesture>,
    frameCount: nat,
    lastLabel: string,
    lastProcessTime: real,
    events: seq<Event>,
    sent: seq<Event>,
    status: Status)

  /** The loop's state before the first frame; `lastProcessTime` 0 lets the first frame be processed. */
  const Initial: Detector := Detector(None, 0, "", 0.0, [], [], Status(None, false, false, false, false, "", 0))

  function Flags(st: Status): seq<bool>
  {
    [st.rockDetected, st.paperDetected, st.scissorsDetected, st.middleFingerDetected]
  }

  function FlagOf(st: Status, g: Gesture): bool
  {
    match g
    case Rock => st.rockDetected
    case Paper => st.paperDetected
    case Scissors => st.scissorsDetected
    case MiddleFinger => st.middleFingerDetected
  }

  /** The status published for a current gesture: exactly one flag is up when there is a gesture, none otherwise. */
  function StatusOf(current: Option<Gesture>, text: string, frameCount: nat): (st: Status)
    ensures st.gesture == current && st.labelText == text && st.frameCount == frameCount
    ensures forall g: Gesture :: FlagOf(st, g) <==> current == Some(g)
    ensures CountTrue(Flags(st)) == if current.Some? then 1 else 0
  {
    var st := Status(current, current == Some(Rock), current == Some(Paper),
                     current == Some(Scissors), current == Some(MiddleFinger), text, frameCount);
    FlagCount(st);
    st
  }

  lemma FlagCount(st: Status)
    ensures CountTrue(Flags(st)) ==
      (if st.rockDetected then 1 else 0) + (if st.paperDetected then 1 else 0)
      + (if st.scissorsDetected then 1 else 0) + (if st.middleFingerDetected then 1 else 0)
  {
    var (a, b, c, d) := (st.rockDetected, st.paperDetected, st.scissorsDetected, st.middleFingerDetected);
    assert [a, b, c, d][1..] == [b, c, d];
    assert [b, c, d][1..] == [c, d] && [c, d][1..] == [d] && [d][1..] == [];
    assert CountTrue([d]) == (if d then 1 else 0);
    assert CountTrue([c, d]) == (if c then 1 else 0) + CountTrue([d]);
    assert CountTrue([b, c, d]) == (if b then 1 else 0) + CountTrue([c, d]);
    assert CountTrue([a, b, c, d]) == (if a then 1 else 0) + CountTrue([b, c, d]);
  }

  /** The event name and description for each gesture. */
  function EventName(g: Gesture): (s: string)
    ensures |s| > 0
  {
    match g
    case Rock => "ROCK"
    case Paper => "PAPER"
    case Scissors => "SCISSORS"
    case MiddleFinger => "MIDDLE FINGER"
  }

  function EventDescription(g: Gesture): (s: string)
    ensures |s| > 0
  {
    match g
    case Rock => "Fist gesture detected"
    case Paper => "Open hand gesture detected"
    case Scissors => "Peace sign gesture detected"
    case MiddleFinger => "Middle finger gesture detected"
  }

  /** The `gesture_names` table is one-to-one in both its name and its description column. */
  lemma EventNamesDistinct(g1: Gesture, g2: Gesture)
    ensures EventName(g1) == EventName(g2) <==> g1 == g2
    ensures EventDescription(g1) == EventDescription(g2) <==> g1 == g2
  {
    if g1 != g2 {
      var a, b := EventName(g1), EventName(g2);
      assert |a| != |b|;
      var c, d := EventDescription(g1), EventDescription(g2);
      assert |c| != |d|;
    }
  }

  function EventFor(g: Gesture, now: real): Event
  {
    Event(EventName(g) + " Detected", EventDescription(g), CameraId, now)
  }

  /** Distinct gestures produce events of distinct types. */
  lemma EventTypesDistinct(g1: Gesture, g2: Gesture, t1: real, t2: real)
    ensures EventFor(g1, t1).eventType == EventFor(g2, t2).eventType <==> g1 == g2
  {
    if g1 != g2 {
      var a, b := EventFor(g1, t1).eventType, EventFor(g2, t2).eventType;
      assert a[|a| - 9] != b[|b| - 9] || a[0] != b[0];
    }
  }

  /** Whether the frame arrives at least `interval` seconds after the last processed one. */
  predicate Processed(s: Detector, f: Frame, interval: real)
  {
    f.now - s.lastProcessTime >= interval
  }

  /** Whether the frame is processed, shows a hand, and the hand's gesture differs from the current one. */
  predicate Emits(s: Detector, f: Frame, interval: real)
    requires ValidFrame(f)
  {
    && Processed(s, f, interval)
    && f.hand.Some?
    && DetectGesture(f.hand.value, f.height).0.Some?
    && DetectGesture(f.hand.value, f.height).0 != s.current
  }

  /** One pass of the capture loop. */
  function Step(s: Detector, f: Frame, interval: real): (r: Detector)
    requires ValidFrame(f)
    ensures r.frameCount == s.frameCount + 1
    ensures r.status == StatusOf(r.current, r.lastLabel, r.frameCount)
    ensures !Processed(s, f, interval) ==>
      r.current == s.current && r.lastLabel == s.lastLabel && r.lastProcessTime == s.lastProcessTime
    ensures Processed(s, f, interval) ==> r.lastProcessTime == f.now
    ensures Processed(s, f, interval) && f.hand.None? ==> r.current.None? && r.lastLabel == ""
    ensures Processed(s, f, interval) && f.hand.Some? ==>
      && r.current == FirstHolding(Priority, f.hand.value, f.height)
      && r.lastLabel == (if r.current.Some? then Label(r.current.value) else "")
    ensures Emits(s, f, interval) ==>
      && r.current.Some? && r.current != s.current
      && r.events == s.events + [EventFor(r.current.value, f.now)]
      && r.sent == s.sent + [EventFor(r.current.value, f.now)]
    ensures !Emits(s, f, interval) ==> r.events == s.events && r.sent == s.sent
  {
    var frameCount := s.frameCount + 1;
    if Processed(s, f, interval) then
      match f.hand
      case None =>
        Detector(None, frameCount, "", f.now, s.events, s.sent, StatusOf(None, "", frameCount))
      case Some(ys) =>
        var (g, text) := DetectGesture(ys, f.height);
        DetectFollowsPriority(ys, f.height);
        var emitted := if g.Some? && g != s.current then [EventFor(g.value, f.now)] else [];
        Detector(g, frameCount, text, f.now, s.events + emitted, s.sent + emitted, StatusOf(g, text, frameCount))
    else
      s.(frameCount := frameCount, status := StatusOf(s.current, s.lastLabel, frameCount))
  }

  predicate ValidFrames(frames: seq<Frame>)
  {
    forall i :: 0 <= i < |frames| ==> ValidFrame(frames[i])
  }

  function Run(s: Detector, frames: seq<Frame>, interval: real): Detector
    requires ValidFrames(frames)
    decreases |frames|
  {
    if |frames| == 0 then s else Run(Step(s, frames[0], interval), frames[1..], interval)
  }

  /** Whether every frame shows a hand that the classifier reads as gesture `g`. */
  predicate AllShow(frames: seq<Frame>, g: Gesture)
  {
    forall i :: 0 <= i < |frames| ==>
      && frames[i].hand.Some?
      && IsHand(frames[i].hand.value)
      && DetectGesture(frames[i].hand.value, frames[i].height).0 == Some(g)
  }

  /**
   * A gesture held in front of the camera is logged at most once, however
   * many frames it is held for, and not at all when it is already current.
   */
  lemma {:induction false} HeldGestureLoggedOnce(s: Detector, frames: seq<Frame>, interval: real, g: Gesture)
    requires AllShow(frames, g)
    ensures ValidFrames(frames)
    ensures var r := Run(s, frames, interval);
      && r.current in {s.current, Some(g)}
      && (r.events == s.events || (s.current != Some(g) && exists t :: r.events == s.events + [EventFor(g, t)]))
    decreases |frames|
  {
    if |frames| > 0 {
      var s1 := Step(s, frames[0], interval);
      assert AllShow(frames[1..], g) by {
        forall i | 0 <= i < |frames| - 1
          ensures frames[1..][i] == frames[i + 1]
        {
        }
      }
      HeldGestureLoggedOnce(s1, frames[1..], interval, g);
      if s1.events != s.events {
        assert s1.current == Some(g);
        assert s1.events == s.events + [EventFor(g, frames[0].now)];
      }
    }
  }

  /** `/events`: hands over the buffered events and empties the buffer. */
  function GetEvents(s: Detector): (r: (Detector, seq<Event>))
    ensures r.1 == s.events && r.0.events == []
    ensures r.0.sent == s.sent && r.0.current == s.current && r.0.status == s.status
    ensures r.0 == s.(events := [])
  {
    (s.(events := []), s.events)
  }

  /** A second `/events` right after the first answers nothing. */
  lemma GetEventsDrains(s: Detector)
    ensures GetEvents(GetEvents(s).0).1 == []
    ensures GetEvents(GetEvents(s).0).0 == GetEvents(s).0
  {
  }

  /** The buffered events are the latest ones posted, in order. */
  ghost predicate PendingArePosted(s: Detector)
  {
    |s.events| <= |s.sent| && s.sent[|s.sent| - |s.events|..] == s.events
  }

  /** Capturing frames and serving `/events` keep every buffered event among the posted ones. */
  lemma {:induction false} PendingStaysPosted(s: Detector, frames: seq<Frame>, interval: real)
    requires PendingArePosted(s) && ValidFrames(frames)
    ensures PendingArePosted(Run(s, frames, interval))
    ensures PendingArePosted(GetEvents(s).0)
    decreases |frames|
  {
    if |frames| > 0 {
      var s1 := Step(s, frames[0], interval);
      StepKeepsPending(s, frames[0], interval);
      assert ValidFrames(frames[1..]) by {
        forall i | 0 <= i < |frames| - 1
          ensures frames[1..][i] == frames[i + 1]
        {
        }
      }
      PendingStaysPosted(s1, frames[1..], interval);
    }
  }

  lemma StepKeepsPending(s: Detector, f: Frame, interval: real)
    requires PendingArePosted(s) && ValidFrame(f)
    ensures PendingArePosted(Step(s, f, interval))
  {
    if Emits(s, f, interval) {
      var s1 := Step(s, f, interval);
      var e := EventFor(s1.current.value, f.now);
      assert s1.sent[|s1.sent| - |s1.events|..] == s.sent[|s.sent| - |s.events|..] + [e];
    }
  }

  /** The JSON body `send_event_to_backend` posts; the handler reads the three string fields. */
  function EventRequest(e: Event): LogRequest
  {
    LogRequest(Some(e.eventType), Some(e.description), Some(e.cameraId))
  }

  /**
   * Every event the camera posts is stored by `POST /api/log` with its type,
   * description and camera, and answered with status 200, unless the
   * database fails or has used up its rowids. The stored time is the
   * server's clock: the handler ignores the event's own `timestamp`.
   */
  lemma PostedEventIsStored(t: Table, g: Gesture, at: real, now: Calendar.Timestamp)
    requires NextRowId(t) <= MaxRowId
    ensures var (t', resp) := PostLog(t, EventRequest(EventFor(g, at)), now, None);
      && PostStatus(resp) == 200
      && |t'.rows| == |t.rows| + 1
      && t'.rows[|t.rows|].eventType == EventName(g) + " Detected"
      && t'.rows[|t.rows|].description == Some(EventDescription(g))
      && t'.rows[|t.rows|].cameraId == Some("Camera 1")
      && t'.rows[|t.rows|].timestamp == now
  {
    var e := EventFor(g, at);
    assert e.eventType != "";
    assert e.description != "";
    assert e.cameraId != "";
  }
}

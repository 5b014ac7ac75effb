/**
 * The detection loop of the fist-only camera server (main2.py): landmark
 * detection on every `processEvery`-th frame, a `Fist Detected` event each
 * time the fist state rises, and the event buffer served by `/events`.
 */
module FistStream {
  import opened Gestures

  /** The shared status served by `/api/status`. */
  datatype FistStatus = FistStatus(fistDetected: bool, labelText: string, frameCount: nat)

  datatype Stream = Stream(
    fistState: bool,
    frameCount: nat,
    lastLabel: string,
    events: seq<Event>,
    status: FistStatus)

  const Initial: Stream := Stream(false, 0, "", [], FistStatus(false, "", 0))

  const FistLabel: string := "ROCK (FIST)"

  function FistEvent(now: real): Event
  {
    Event("Fist Detected", "Fist gesture detected", CameraId, now)
  }

  /**
   * Whether the frame about to be counted is one that is processed. Python's
   * `%` by zero raises, so the step requires a non-zero `processEvery`; for
   * any other divisor a zero remainder means divisibility, as with Dafny's `%`.
   */
  predicate Gated(s: Stream, processEvery: int)
    requires processEvery != 0
  {
    (s.frameCount + 1) % processEvery == 0
  }

  /** One pass of the capture loop. */
  function Step(s: Stream, f: Frame, processEvery: int): (r: Stream)
    requires processEvery != 0 && ValidFrame(f)
    ensures r.frameCount == s.frameCount + 1
    ensures r.status == FistStatus(r.fistState, r.lastLabel, r.frameCount)
    ensures !Gated(s, processEvery) ==> r.fistState == s.fistState && r.lastLabel == s.lastLabel
    ensures Gated(s, processEvery) ==>
      && (r.fistState <==> ShowsFist(f))
      && r.lastLabel == (if r.fistState then FistLabel else "")
    ensures r.events == s.events + (if !s.fistState && r.fistState then [FistEvent(f.now)] else [])
  {
    var frameCount := s.frameCount + 1;
    if frameCount % processEvery == 0 then
      if ShowsFist(f) then
        var events := if !s.fistState then s.events + [FistEvent(f.now)] else s.events;
        Stream(true, frameCount, FistLabel, events, FistStatus(true, FistLabel, frameCount))
      else
        Stream(false, frameCount, "", s.events, FistStatus(false, "", frameCount))
    else
      s.(frameCount := frameCount, status := FistStatus(s.fistState, s.lastLabel, frameCount))
  }

  predicate ValidFrames(frames: seq<Frame>)
  {
    forall i :: 0 <= i < |frames| ==> ValidFrame(frames[i])
  }

  function Run(s: Stream, frames: seq<Frame>, processEvery: int): Stream
    requires processEvery != 0 && ValidFrames(frames)
    decreases |frames|
  {
    if |frames| == 0 then s else Run(Step(s, frames[0], processEvery), frames[1..], processEvery)
  }

  /** The fist state after each frame of a run. */
  function Trace(s: Stream, frames: seq<Frame>, processEvery: int): (tr: seq<bool>)
    requires processEvery != 0 && ValidFrames(frames)
    ensures |tr| == |frames|
    decreases |frames|
  {
    if |frames| == 0 then []
    else
      var s1 := Step(s, frames[0], processEvery);
      [s1.fistState] + Trace(s1, frames[1..], processEvery)
  }

  /** How many times a boolean trace goes from false to true, starting from `before`. */
  function Rises(before: bool, tr: seq<bool>): nat
    decreases |tr|
  {
    if |tr| == 0 then 0 else (if !before && tr[0] then 1 else 0) + Rises(tr[0], tr[1..])
  }

  lemma TailFramesValid(frames: seq<Frame>)
    requires |frames| > 0 && ValidFrames(frames)
    ensures ValidFrames(frames[1..])
  {
    forall i | 0 <= i < |frames| - 1
      ensures frames[1..][i] == frames[i + 1]
    {
    }
  }

  /**
   * A run records one `Fist Detected` event per rise of the fist state, in
   * order, keeping the events recorded before it.
   */
  lemma {:induction false} EventsCountRises(s: Stream, frames: seq<Frame>, processEvery: int)
    requires processEvery != 0 && ValidFrames(frames)
    ensures var r := Run(s, frames, processEvery);
      && |r.events| == |s.events| + Rises(s.fistState, Trace(s, frames, processEvery))
      && r.events[..|s.events|] == s.events
      && forall i :: |s.events| <= i < |r.events| ==> r.events[i].eventType == "Fist Detected"
    decreases |frames|
  {
    if |frames| > 0 {
      var s1 := Step(s, frames[0], processEvery);
      TailFramesValid(frames);
      EventsCountRises(s1, frames[1..], processEvery);
      var r := Run(s1, frames[1..], processEvery);
      assert r.events[..|s1.events|] == s1.events;
      assert r.events[..|s.events|] == r.events[..|s1.events|][..|s.events|];
    }
  }

  /** The published status always agrees with the fist state and the label kept for the next frame. */
  lemma {:induction false} StatusMirrorsState(s: Stream, frames: seq<Frame>, processEvery: int)
    requires processEvery != 0 && ValidFrames(frames) && |frames| > 0
    ensures var r := Run(s, frames, processEvery);
      r.status == FistStatus(r.fistState, r.lastLabel, s.frameCount + |frames|)
    decreases |frames|
  {
    var s1 := Step(s, frames[0], processEvery);
    TailFramesValid(frames);
    if |frames| > 1 {
      StatusMirrorsState(s1, frames[1..], processEvery);
    }
  }

  /** `/events`: hands over the buffered events in order and empties the buffer. */
  function GetEvents(s: Stream): (r: (Stream, seq<Event>))
    ensures r.1 == s.events && r.0.events == []
    ensures r.0.fistState == s.fistState && r.0.status == s.status
    ensures r.0 == s.(events := [])
  {
    (s.(events := []), s.events)
  }
}

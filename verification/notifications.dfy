/**
 * The front end's notification composable: a shared, ordered list of mock
 * notifications, each removed again three seconds after it is shown, and a
 * self-rescheduling timer that adds a new one every seven to ten seconds.
 *
 * The browser's timer queue is part of the state: `setTimeout` appends a
 * pending timer with a fresh positive handle, `clearTimeout` drops it, and
 * the event loop firing a timer is the transition `Fire`. `Math.random()`
 * draws, `Date.now()` and `new Date().toISOString()` are explicit inputs.
 */
module Notifications {
  import opened Wrappers

  datatype Notification = Notification(
    id: real,
    eventType: string,
    description: string,
    cameraId: string,
    timestamp: string)

  const EventTypes: seq<string> := [
    "Motion Detected",
    "Person Detected",
    "Alert",
    "Security Breach",
    "Unauthorized Access",
    "Object Detected"]

  /** `Descriptions[i]` describes `EventTypes[i]`. */
  const Descriptions: seq<string> := [
    "Movement detected in camera view",
    "Person identified in restricted area",
    "Security alert triggered",
    "Potential security breach detected",
    "Unauthorized access attempt",
    "Unknown object detected"]

  const CameraIds: seq<string> := ["Camera 1", "Camera 2", "Camera 3", "Camera 4", "Camera 5"]

  // ---------------------------------------------------------------------
  // generateNotification
  // ---------------------------------------------------------------------

  /** A `Math.random()` value: in [0, 1). */
  predicate IsRoll(r: real)
  {
    0.0 <= r < 1.0
  }

  /** `Math.floor(r * n)`: a uniform index into a list of `n` entries. */
  function RandomIndex(r: real, n: nat): (i: nat)
    requires IsRoll(r) && n > 0
    ensures i < n
    ensures i as real <= r * n as real < i as real + 1.0
  {
    assert 0.0 <= r * n as real < n as real by {
      assert r * n as real <= r * n as real + (1.0 - r) * n as real;
    }
    (r * n as real).Floor
  }

  /** The outside inputs one call of `generateNotification` consumes. */
  datatype Draw = Draw(eventRoll: real, cameraRoll: real, idRoll: real, now: int, isoNow: string)

  predicate ValidDraw(d: Draw)
  {
    IsRoll(d.eventRoll) && IsRoll(d.cameraRoll) && IsRoll(d.idRoll)
  }

  /**
   * `generateNotification`: one index picks both the event type and its
   * description, a second picks the camera; the id is the clock reading plus
   * a random fraction.
   */
  function GenerateNotification(d: Draw): (n: Notification)
    requires ValidDraw(d)
    ensures exists i :: 0 <= i < |EventTypes| && n.eventType == EventTypes[i] && n.description == Descriptions[i]
    ensures n.cameraId in CameraIds
    ensures d.now as real <= n.id < d.now as real + 1.0
    ensures n.timestamp == d.isoNow
  {
    var e := RandomIndex(d.eventRoll, |EventTypes|);
    var c := RandomIndex(d.cameraRoll, |CameraIds|);
    Notification(d.now as real + d.idRoll, EventTypes[e], Descriptions[e], CameraIds[c], d.isoNow)
  }

  /** The description belonging to an event type, looked up by the type's position. */
  function DescriptionOf(eventType: string): Option<string>
  {
    if eventType == EventTypes[0] then Some(Descriptions[0])
    else if eventType == EventTypes[1] then Some(Descriptions[1])
    else if eventType == EventTypes[2] then Some(Descriptions[2])
    else if eventType == EventTypes[3] then Some(Descriptions[3])
    else if eventType == EventTypes[4] then Some(Descriptions[4])
    else if eventType == EventTypes[5] then Some(Descriptions[5])
    else None
  }

  /** Every generated notification carries exactly the description of its own event type. */
  lemma GeneratedPairing(d: Draw)
    requires ValidDraw(d)
    ensures var n := GenerateNotification(d); DescriptionOf(n.eventType) == Some(n.description)
  {
    var e := RandomIndex(d.eventRoll, |EventTypes|);
    assert e == 0 || e == 1 || e == 2 || e == 3 || e == 4 || e == 5;
  }

  /** Every pairing of an event type with a camera is produced by some draw. */
  lemma GenerateReachesEveryPair(i: nat, c: nat, now: int, isoNow: string)
    requires i < |EventTypes| && c < |CameraIds|
    ensures var d := Draw(i as real / 6.0, c as real / 5.0, 0.0, now, isoNow);
      && ValidDraw(d)
      && GenerateNotification(d).eventType == EventTypes[i]
      && GenerateNotification(d).cameraId == CameraIds[c]
  {
    var d := Draw(i as real / 6.0, c as real / 5.0, 0.0, now, isoNow);
    assert RandomIndex(d.eventRoll, 6) == i;
    assert RandomIndex(d.cameraRoll, 5) == c;
  }

  // ---------------------------------------------------------------------
  // removeNotification
  // ---------------------------------------------------------------------

  /** `findIndex(n => n.id === id)`: the first position holding `id`, or -1. */
  function FindIndex(list: seq<Notification>, id: real): (i: int)
    ensures -1 <= i < |list|
    ensures i == -1 <==> forall j :: 0 <= j < |list| ==> list[j].id != id
    ensures 0 <= i ==> list[i].id == id && forall j :: 0 <= j < i ==> list[j].id != id
  {
    if |list| == 0 then -1
    else if list[0].id == id then 0
    else
      var i := FindIndex(list[1..], id);
      if i == -1 then -1 else i + 1
  }

  /**
   * `removeNotification`: splices out the first notification with the id;
   * an id that is not in the list changes nothing.
   */
  function RemoveNotification(list: seq<Notification>, id: real): (r: seq<Notification>)
    ensures FindIndex(list, id) == -1 ==> r == list
    ensures FindIndex(list, id) >= 0 ==>
      var i := FindIndex(list, id);
      && |r| == |list| - 1
      && (forall j :: 0 <= j < i ==> r[j] == list[j])
      && (forall j :: i <= j < |r| ==> r[j] == list[j + 1])
  {
    var i := FindIndex(list, id);
    if i > -1 then list[..i] + list[i + 1..] else list
  }

  /** Reference definition: drop the first match while walking the list front to back. */
  function RemoveFirstMatch(list: seq<Notification>, id: real): seq<Notification>
  {
    if |list| == 0 then []
    else if list[0].id == id then list[1..]
    else [list[0]] + RemoveFirstMatch(list[1..], id)
  }

  /** `removeNotification` agrees with the front-to-back walk on every list. */
  lemma {:induction false} RemoveMatchesReference(list: seq<Notification>, id: real)
    ensures RemoveNotification(list, id) == RemoveFirstMatch(list, id)
  {
    if |list| > 0 && list[0].id != id {
      RemoveMatchesReference(list[1..], id);
      RemoveSkipsHead(list, id);
    }
  }

  /** A head that does not match survives the removal, which then happens in the tail. */
  lemma RemoveSkipsHead(list: seq<Notification>, id: real)
    requires |list| > 0 && list[0].id != id
    ensures RemoveNotification(list, id) == [list[0]] + RemoveNotification(list[1..], id)
  {
    var rest := list[1..];
    var k := FindIndex(rest, id);
    if k == -1 {
      assert FindIndex(list, id) == -1;
      assert list == [list[0]] + rest;
    } else {
      RemoveSkipsHeadAt(list, id, k);
    }
  }

  lemma RemoveSkipsHeadAt(list: seq<Notification>, id: real, k: nat)
    requires |list| > 0 && list[0].id != id && FindIndex(list[1..], id) == k
    ensures RemoveNotification(list, id) == [list[0]] + RemoveNotification(list[1..], id)
  {
    var rest := list[1..];
    assert FindIndex(list, id) == k + 1;
    assert list[..k + 1] == [list[0]] + rest[..k];
    assert list[k + 2..] == rest[k + 1..];
    assert [list[0]] + (rest[..k] + rest[k + 1..]) == ([list[0]] + rest[..k]) + rest[k + 1..];
  }

  /** Removing the notification just appended, whose id was not in use, restores the list. */
  lemma AppendThenRemove(list: seq<Notification>, n: Notification)
    requires forall j :: 0 <= j < |list| ==> list[j].id != n.id
    ensures RemoveNotification(list + [n], n.id) == list
  {
    var l := list + [n];
    assert forall j :: 0 <= j < |list| ==> l[j] == list[j];
    assert l[|list|].id == n.id;
    assert FindIndex(l, n.id) == |list|;
    assert l[..|list|] == list;
  }

  // ---------------------------------------------------------------------
  // Timers and the notification loop
  // ---------------------------------------------------------------------

  /** What a pending timer runs: the delayed removal of one notification, or the next tick of the loop. */
  datatype Callback = RemoveAfterDisplay(id: real) | NextTick

  /** Browsers hand out positive timer handles, so a stored handle is always truthy. */
  type Handle = n: nat | n > 0 witness 1

  datatype Timer = Timer(handle: Handle, due: real, callback: Callback)

  /**
   * The composable's module state (`notifications`, `intervalId`) together
   * with the browser's pending timers and its next timer handle.
   */
  datatype State = State(
    notifications: seq<Notification>,
    timers: seq<Timer>,
    intervalId: Option<Handle>,
    nextHandle: Handle)

  /** Page load: no notifications, no timers, `intervalId = null`. */
  const Initial: State := State([], [], None, 1)

  /**
   * Every handle in use, pending or stored in `intervalId`, lies below the next
   * one to be handed out, so `setTimeout` never reuses a live handle.
   */
  ghost predicate HandlesFresh(s: State)
  {
    && (forall t :: t in s.timers ==> t.handle < s.nextHandle)
    && (s.intervalId.Some? ==> s.intervalId.value < s.nextHandle)
  }

  const DisplayMillis: real := 3000.0

  /**
   * `setTimeout(callback, delay)`: a new pending timer; answers its handle,
   * which no live timer holds when the handles in use are fresh.
   */
  function SetTimeout(s: State, due: real, callback: Callback): (r: (State, Handle))
    ensures r.0.timers == s.timers + [Timer(s.nextHandle, due, callback)]
    ensures r.1 == s.nextHandle && r.0.nextHandle > r.1
    ensures r.0.notifications == s.notifications && r.0.intervalId == s.intervalId
    ensures HandlesFresh(s) ==>
      && HandlesFresh(r.0)
      && (forall t :: t in s.timers ==> t.handle != r.1)
      && (s.intervalId.Some? ==> s.intervalId.value != r.1)
  {
    (s.(timers := s.timers + [Timer(s.nextHandle, due, callback)], nextHandle := s.nextHandle + 1), s.nextHandle)
  }

  /** `clearTimeout(handle)`, and the event loop retiring a timer it has run: the timer is no longer pending. */
  function DropTimer(timers: seq<Timer>, handle: nat): (r: seq<Timer>)
    ensures forall t :: t in r <==> t in timers && t.handle != handle
  {
    if |timers| == 0 then []
    else if timers[0].handle == handle then DropTimer(timers[1..], handle)
    else [timers[0]] + DropTimer(timers[1..], handle)
  }

  /** The pending timer with the given handle, if any. */
  function FindTimer(timers: seq<Timer>, handle: nat): (r: Option<Timer>)
    ensures r.Some? ==> r.value in timers && r.value.handle == handle
    ensures r.None? ==> forall t :: t in timers ==> t.handle != handle
  {
    if |timers| == 0 then None
    else if timers[0].handle == handle then Some(timers[0])
    else FindTimer(timers[1..], handle)
  }

  /**
   * `addNotification`: appends one generated notification and schedules its
   * removal, by its own id, three seconds from now.
   */
  function AddNotification(s: State, d: Draw): (r: State)
    requires ValidDraw(d)
    ensures var n := GenerateNotification(d);
      && r.notifications == s.notifications + [n]
      && r.timers == s.timers + [Timer(s.nextHandle, d.now as real + DisplayMillis, RemoveAfterDisplay(n.id))]
      && r.intervalId == s.intervalId
      && r.nextHandle > s.nextHandle
  {
    var n := GenerateNotification(d);
    SetTimeout(s.(notifications := s.notifications + [n]), d.now as real + DisplayMillis, RemoveAfterDisplay(n.id)).0
  }

  /** `Math.random() * 3000 + 7000`: the wait before the next notification. */
  function NextDelay(r: real): (delay: real)
    requires IsRoll(r)
    ensures 7000.0 <= delay < 10000.0
  {
    r * 3000.0 + 7000.0
  }

  /** `scheduleNext`: one pending tick, whose handle is stored in `intervalId`. */
  function ScheduleNext(s: State, delayRoll: real, now: int): (r: State)
    requires IsRoll(delayRoll)
    ensures r.notifications == s.notifications
    ensures r.timers == s.timers + [Timer(s.nextHandle, now as real + NextDelay(delayRoll), NextTick)]
    ensures r.intervalId == Some(s.nextHandle) && r.nextHandle > s.nextHandle
  {
    var (s', handle) := SetTimeout(s, now as real + NextDelay(delayRoll), NextTick);
    s'.(intervalId := Some(handle))
  }

  /** `startNotifications` as written: schedules a tick whether or not one is already pending. */
  function StartAsWritten(s: State, delayRoll: real, now: int): (r: State)
    requires IsRoll(delayRoll)
    ensures r.intervalId == Some(s.nextHandle)
    ensures r.timers == s.timers + [Timer(s.nextHandle, now as real + NextDelay(delayRoll), NextTick)]
  {
    ScheduleNext(s, delayRoll, now)
  }

  /**
   * `startNotifications`, corrected: when a tick is already pending the loop
   * is running, and starting it again changes nothing.
   */
  function Start(s: State, delayRoll: real, now: int): (r: State)
    requires IsRoll(delayRoll)
    ensures s.intervalId.Some? ==> r == s
    ensures s.intervalId.None? ==> r == ScheduleNext(s, delayRoll, now)
  {
    if s.intervalId.Some? then s else ScheduleNext(s, delayRoll, now)
  }

  /** `stopNotifications`: cancels the stored tick and clears the handle; without a handle it does nothing. */
  function Stop(s: State): (r: State)
    ensures r.intervalId.None?
    ensures r.notifications == s.notifications && r.nextHandle == s.nextHandle
    ensures s.intervalId.None? ==> r == s
    ensures s.intervalId.Some? ==>
      forall t :: t in r.timers <==> t in s.timers && t.handle != s.intervalId.value
  {
    if s.intervalId.Some? then
      s.(timers := DropTimer(s.timers, s.intervalId.value), intervalId := None)
    else
      s
  }

  /** Stopping twice is stopping once, and leaves no handle. */
  lemma StopIdempotent(s: State)
    ensures Stop(Stop(s)) == Stop(s)
    ensures Stop(s).intervalId.None?
  {
  }

  /** The outside inputs a firing tick consumes: one notification draw and one delay draw. */
  datatype TickInputs = TickInputs(draw: Draw, delayRoll: real)

  predicate ValidTickInputs(x: TickInputs)
  {
    ValidDraw(x.draw) && IsRoll(x.delayRoll)
  }

  /**
   * The event loop runs the pending timer with the given handle: a removal
   * timer removes its notification, a tick adds a notification and
   * schedules the next tick. A handle with no pending timer fires nothing.
   */
  function Fire(s: State, handle: nat, x: TickInputs): (r: State)
    requires ValidTickInputs(x)
    ensures FindTimer(s.timers, handle).None? ==> r == s
    // the fired timer is retired, every other pending timer stays, and any timer added is newly issued
    ensures FindTimer(s.timers, handle).Some? ==>
      forall u :: u in s.timers && u.handle != handle ==> u in r.timers
    ensures forall u :: u in r.timers ==> (u in s.timers && u.handle != handle) || u.handle >= s.nextHandle
    ensures FindTimer(s.timers, handle).Some? && FindTimer(s.timers, handle).value.callback.RemoveAfterDisplay? ==>
      && r.notifications == RemoveNotification(s.notifications, FindTimer(s.timers, handle).value.callback.id)
      && r.intervalId == s.intervalId && r.nextHandle == s.nextHandle
      && r.timers == DropTimer(s.timers, handle)
    // a tick shows one more notification, schedules its removal and the next tick, and names that tick
    ensures FindTimer(s.timers, handle).Some? && FindTimer(s.timers, handle).value.callback.NextTick? ==>
      && r.notifications == s.notifications + [GenerateNotification(x.draw)]
      && Timer(s.nextHandle, x.draw.now as real + DisplayMillis, RemoveAfterDisplay(GenerateNotification(x.draw).id)) in r.timers
      && r.intervalId.Some? && r.intervalId.value > s.nextHandle
      && Timer(r.intervalId.value, x.draw.now as real + NextDelay(x.delayRoll), NextTick) in r.timers
      && r.timers == DropTimer(s.timers, handle)
           + [Timer(s.nextHandle, x.draw.now as real + DisplayMillis, RemoveAfterDisplay(GenerateNotification(x.draw).id)),
              Timer(r.intervalId.value, x.draw.now as real + NextDelay(x.delayRoll), NextTick)]
  {
    match FindTimer(s.timers, handle)
    case None => s
    case Some(t) =>
      var s1 := s.(timers := DropTimer(s.timers, handle));
      match t.callback
      case RemoveAfterDisplay(id) => s1.(notifications := RemoveNotification(s1.notifications, id))
      case NextTick => ScheduleNext(AddNotification(s1, x.draw), x.delayRoll, x.draw.now)
  }

  /** Whether some pending timer is a tick of the notification loop. */
  ghost predicate Ticking(timers: seq<Timer>)
  {
    exists t :: t in timers && t.callback.NextTick?
  }

  /**
   * The loop runs as one chain: every pending tick is the one `intervalId`
   * names, so cancelling that handle cancels the loop.
   */
  ghost predicate SingleChain(s: State)
  {
    forall t :: t in s.timers && t.callback.NextTick? ==> s.intervalId == Some(t.handle)
  }

  /** Page load satisfies the invariants. */
  lemma InitialIsSingleChain()
    ensures SingleChain(Initial) && HandlesFresh(Initial) && !Ticking(Initial.timers)
  {
  }

  /** The corrected start keeps a single chain. */
  lemma StartKeepsSingleChain(s: State, delayRoll: real, now: int)
    requires IsRoll(delayRoll) && SingleChain(s)
    ensures SingleChain(Start(s, delayRoll, now))
    ensures s.intervalId.None? ==> Ticking(Start(s, delayRoll, now).timers)
  {
    var r := Start(s, delayRoll, now);
    if s.intervalId.None? {
      assert r.timers[|r.timers| - 1] in r.timers;
    }
  }

  /** A single chain (it may be idle): stopping it leaves no tick pending. */
  lemma StopHaltsSingleChain(s: State)
    requires SingleChain(s)
    ensures !Ticking(Stop(s).timers)
    ensures SingleChain(Stop(s))
  {
  }

  /** Firing any timer keeps a single chain. */
  lemma FireKeepsSingleChain(s: State, handle: nat, x: TickInputs)
    requires ValidTickInputs(x) && SingleChain(s)
    ensures SingleChain(Fire(s, handle, x))
  {
    match FindTimer(s.timers, handle)
    case None =>
    case Some(t) =>
      var s1 := s.(timers := DropTimer(s.timers, handle));
      match t.callback
      case RemoveAfterDisplay(id) =>
      case NextTick =>
        assert !Ticking(s1.timers);
        var s2 := AddNotification(s1, x.draw);
        assert !Ticking(s2.timers);
  }

  /**
   * Handles stay fresh under every operation of the composable, from page
   * load on, so a newly scheduled timer never shares its handle with a live one.
   */
  lemma HandlesStayFresh(s: State, d: Draw, delayRoll: real, now: int, handle: nat, x: TickInputs)
    requires ValidDraw(d) && IsRoll(delayRoll) && ValidTickInputs(x) && HandlesFresh(s)
    ensures HandlesFresh(Initial)
    ensures HandlesFresh(AddNotification(s, d))
    ensures HandlesFresh(Start(s, delayRoll, now)) && HandlesFresh(StartAsWritten(s, delayRoll, now))
    ensures HandlesFresh(Stop(s))
    ensures HandlesFresh(Fire(s, handle, x))
  {
    match FindTimer(s.timers, handle)
    case None =>
    case Some(t) =>
      var s1 := s.(timers := DropTimer(s.timers, handle));
      assert HandlesFresh(s1);
      match t.callback
      case RemoveAfterDisplay(id) =>
      case NextTick =>
        assert HandlesFresh(AddNotification(s1, x.draw));
  }

  /** Once no tick is pending, firing timers only ever removes notifications: the loop stays stopped. */
  lemma QuietAfterStop(s: State, handle: nat, x: TickInputs)
    requires ValidTickInputs(x) && !Ticking(s.timers)
    ensures !Ticking(Fire(s, handle, x).timers)
    ensures |Fire(s, handle, x).notifications| <= |s.notifications|
  {
  }

  /**
   * The composable as written: starting twice leaves two ticks pending, and
   * stopping then cancels only the later one. The earlier tick stays pending
   * with `intervalId` cleared; when it fires it adds a notification and
   * restarts the loop, naming the new tick in `intervalId`, so only a second
   * stop halts it.
   */
  lemma DoubleStartOutlivesStop(r1: real, r2: real, x: TickInputs, now: int)
    requires IsRoll(r1) && IsRoll(r2) && ValidTickInputs(x)
    ensures var s := Stop(StartAsWritten(StartAsWritten(Initial, r1, now), r2, now));
      && s.intervalId.None?
      && Timer(1, now as real + NextDelay(r1), NextTick) in s.timers
      && Ticking(s.timers)
      && |Fire(s, 1, x).notifications| == 1
      && Ticking(Fire(s, 1, x).timers)
      && Fire(s, 1, x).intervalId.Some?
      && !Ticking(Stop(Fire(s, 1, x)).timers)
  {
    var t1 := Timer(1, now as real + NextDelay(r1), NextTick);
    var t2 := Timer(2, now as real + NextDelay(r2), NextTick);
    var s2 := StartAsWritten(StartAsWritten(Initial, r1, now), r2, now);
    assert s2.timers == [t1, t2] && s2.intervalId == Some(2);
    assert [t1, t2][1..] == [t2] && [t2][1..] == [];
    assert DropTimer([t2], 2) == [];
    assert DropTimer([t1, t2], 2) == [t1] + DropTimer([t2], 2);
    var s := Stop(s2);
    assert s.timers == [t1];
    assert DropTimer([t1], 1) == [];
    var f := Fire(s, 1, x);
    assert forall u :: u in f.timers && u.callback.NextTick? ==> f.intervalId == Some(u.handle);
    StopHaltsSingleChain(f);
  }

  /** With the corrected start, starting twice and then stopping leaves nothing running. */
  lemma DoubleStartThenStopHalts(r1: real, r2: real, now: int)
    requires IsRoll(r1) && IsRoll(r2)
    ensures var s := Stop(Start(Start(Initial, r1, now), r2, now));
      s.intervalId.None? && !Ticking(s.timers)
  {
    InitialIsSingleChain();
    StartKeepsSingleChain(Initial, r1, now);
    var s1 := Start(Initial, r1, now);
    StartKeepsSingleChain(s1, r2, now);
    StopHaltsSingleChain(Start(s1, r2, now));
  }

  /** A notification that is added is removed, by its own id, when its display timer fires. */
  lemma AddedNotificationIsRemovedOnTime(s: State, d: Draw, x: TickInputs)
    requires ValidDraw(d) && ValidTickInputs(x)
    requires forall j :: 0 <= j < |s.notifications| ==> s.notifications[j].id != GenerateNotification(d).id
    requires HandlesFresh(s)
    ensures var s1 := AddNotification(s, d);
      && Fire(s1, s.nextHandle, x).notifications == s.notifications
      && FindTimer(s1.timers, s.nextHandle) == Some(Timer(s.nextHandle, d.now as real + DisplayMillis, RemoveAfterDisplay(GenerateNotification(d).id)))
  {
    var s1 := AddNotification(s, d);
    var n := GenerateNotification(d);
    var t := Timer(s.nextHandle, d.now as real + DisplayMillis, RemoveAfterDisplay(n.id));
    FindTimerLast(s.timers, t);
    assert FindTimer(s1.timers, s.nextHandle) == Some(t);
    assert Fire(s1, s.nextHandle, x).notifications == RemoveNotification(s.notifications + [n], n.id);
    AppendThenRemove(s.notifications, n);
  }

  lemma {:induction false} FindTimerLast(timers: seq<Timer>, t: Timer)
    requires forall u :: u in timers ==> u.handle != t.handle
    ensures FindTimer(timers + [t], t.handle) == Some(t)
    decreases |timers|
  {
    if |timers| > 0 {
      assert (timers + [t])[1..] == timers[1..] + [t];
      FindTimerLast(timers[1..], t);
    }
  }
}

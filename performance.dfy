/** The event timer (branches/merge/source/utils/Performance.cpp): named
    events count their calls, the simulation frames they were called in and
    the time spent in them, with a stack of entry times so that calls can
    nest. The clock is a parameter (the millisecond reading of the static
    timer); the report writers are not modelled. */
module PerformanceMetrics {

  /** kMagicNumber, the minimum frame time of an event never timed. */
  const MagicNumber: nat := 9999999

  /** (frame number, time spent in that frame) for one frame an event was
      called in. */
  datatype FramePair = FramePair(frame: nat, time: nat)

  /** PerformanceEvent. */
  datatype Event = Event(
    eventId: string,
    callAmt: nat,
    frameAmt: nat,
    totalTime: nat,
    frameTime: nat,
    minFrameTime: nat,
    maxFrameTime: nat,
    calledThisFrame: bool,
    callTimes: seq<nat>,
    frames: seq<FramePair>)

  /** A fresh event: every counter zero, the minimum at the magic number. */
  function NewEvent(id: string): (e: Event)
    ensures e.eventId == id && e.callAmt == 0 && e.frameAmt == 0 && e.totalTime == 0 && e.frameTime == 0
    ensures e.minFrameTime == MagicNumber && e.maxFrameTime == 0 && !e.calledThisFrame
    ensures e.callTimes == [] && e.frames == []
  {
    Event(id, 0, 0, 0, 0, MagicNumber, 0, false, [], [])
  }

  /** The event GetEvent hands back: the stored one, or a fresh one. */
  function Fetch(events: map<string, Event>, id: string): Event
  {
    if id in events then events[id] else NewEvent(id)
  }

  // ---------------------------------------------------------------------
  // Extreme frame times.

  /** The largest of `acc` and the recorded frame times. */
  function MaxTime(acc: nat, fs: seq<FramePair>): nat
  {
    if fs == [] then acc
    else
      var m := MaxTime(acc, fs[..|fs| - 1]);
      var t := fs[|fs| - 1].time;
      if t > m then t else m
  }

  /** The smallest of `acc` and the recorded frame times. */
  function MinTime(acc: nat, fs: seq<FramePair>): nat
  {
    if fs == [] then acc
    else
      var m := MinTime(acc, fs[..|fs| - 1]);
      var t := fs[|fs| - 1].time;
      if t < m then t else m
  }

  /** MaxTime and MinTime bound `acc` and every recorded time, and each is
      `acc` or one of the times. */
  lemma {:induction false} ExtremesAreExtreme(acc: nat, fs: seq<FramePair>)
    ensures acc <= MaxTime(acc, fs) && forall i :: 0 <= i < |fs| ==> fs[i].time <= MaxTime(acc, fs)
    ensures MaxTime(acc, fs) == acc || exists i :: 0 <= i < |fs| && fs[i].time == MaxTime(acc, fs)
    ensures MinTime(acc, fs) <= acc && forall i :: 0 <= i < |fs| ==> MinTime(acc, fs) <= fs[i].time
    ensures MinTime(acc, fs) == acc || exists i :: 0 <= i < |fs| && fs[i].time == MinTime(acc, fs)
  {
    if fs != [] {
      var init := fs[..|fs| - 1];
      ExtremesAreExtreme(acc, init);
      assert forall i :: 0 <= i < |init| ==> fs[i] == init[i];
    }
  }

  /** The stored extremes are those of the recorded frames. */
  ghost predicate ExtremesAgree(e: Event)
  {
    e.maxFrameTime == MaxTime(0, e.frames) && e.minFrameTime == MinTime(MagicNumber, e.frames)
  }

  /** What the stored extremes keep as the source updates them: the
      maximum is that of the recorded frames; the minimum is at least that
      of the recorded frames, at most the magic number, and is the magic
      number or one of the recorded times. */
  ghost predicate ExtremesBound(e: Event)
  {
    e.maxFrameTime == MaxTime(0, e.frames) &&
    MinTime(MagicNumber, e.frames) <= e.minFrameTime <= MagicNumber &&
    (e.minFrameTime == MagicNumber || exists i :: 0 <= i < |e.frames| && e.frames[i].time == e.minFrameTime)
  }

  /** The per-event part of EndSimulationFrame as written: a frame time
      above the maximum is never compared with the minimum. */
  function TrackedAsWritten(e: Event, frameNum: nat): (r: Event)
    ensures e.calledThisFrame ==> r.frames == e.frames + [FramePair(frameNum, e.frameTime)]
    ensures !e.calledThisFrame ==> r == e
    ensures r.(frames := e.frames, maxFrameTime := e.maxFrameTime, minFrameTime := e.minFrameTime) == e
  {
    if !e.calledThisFrame then e
    else
      var e1 := e.(frames := e.frames + [FramePair(frameNum, e.frameTime)]);
      if e.frameTime > e.maxFrameTime then e1.(maxFrameTime := e.frameTime)
      else if e.frameTime < e.minFrameTime then e1.(minFrameTime := e.frameTime)
      else e1
  }

  /** The per-event part of EndSimulationFrame with the two extremes
      updated independently. */
  function Tracked(e: Event, frameNum: nat): (r: Event)
    ensures e.calledThisFrame ==> r.frames == e.frames + [FramePair(frameNum, e.frameTime)]
    ensures !e.calledThisFrame ==> r == e
    ensures r.(frames := e.frames, maxFrameTime := e.maxFrameTime, minFrameTime := e.minFrameTime) == e
  {
    if !e.calledThisFrame then e
    else
      var e1 := e.(frames := e.frames + [FramePair(frameNum, e.frameTime)]);
      var e2 := if e.frameTime > e.maxFrameTime then e1.(maxFrameTime := e.frameTime) else e1;
      if e.frameTime < e.minFrameTime then e2.(minFrameTime := e.frameTime) else e2
  }

  /** The as-written update keeps the maximum exact and the minimum within
      its bounds. */
  lemma TrackedAsWrittenKeepsBounds(e: Event, frameNum: nat)
    requires ExtremesBound(e)
    ensures ExtremesBound(TrackedAsWritten(e, frameNum))
  {
    if e.calledThisFrame {
      var fs := e.frames + [FramePair(frameNum, e.frameTime)];
      assert fs[..|fs| - 1] == e.frames;
      var r := TrackedAsWritten(e, frameNum);
      if r.minFrameTime != MagicNumber {
        if r.minFrameTime == e.frameTime {
          assert fs[|fs| - 1].time == r.minFrameTime;
        } else {
          var i :| 0 <= i < |e.frames| && e.frames[i].time == e.minFrameTime;
          assert fs[i].time == r.minFrameTime;
        }
      }
    }
  }

  /** Extremes that agree with the frames are within the as-written
      bounds. */
  lemma AgreeingExtremesAreBounded(e: Event)
    requires ExtremesAgree(e)
    ensures ExtremesBound(e)
  {
    ExtremesAreExtreme(MagicNumber, e.frames);
  }

  /** The corrected update keeps the extremes exact. */
  lemma TrackedKeepsExtremes(e: Event, frameNum: nat)
    requires ExtremesAgree(e)
    ensures ExtremesAgree(Tracked(e, frameNum))
  {
    if e.calledThisFrame {
      var fs := e.frames + [FramePair(frameNum, e.frameTime)];
      assert fs[..|fs| - 1] == e.frames;
    }
  }

  /** One frame of 5 ms for a fresh event: the maximum becomes 5, the
      minimum stays at the magic number although 5 is the only frame time
      recorded. */
  lemma AsWrittenMissesTheMinimum()
    ensures var e := NewEvent("frameA").(calledThisFrame := true, frameTime := 5);
            ExtremesAgree(e) && TrackedAsWritten(e, 0).minFrameTime == MagicNumber
            && TrackedAsWritten(e, 0).frames == [FramePair(0, 5)]
            && !ExtremesAgree(TrackedAsWritten(e, 0))
  {
    var e := NewEvent("frameA").(calledThisFrame := true, frameTime := 5);
    var fs := [FramePair(0, 5)];
    assert fs[..0] == [];
    assert MinTime(MagicNumber, fs) == 5;
  }

  /** The frames' times, scaled: GetScaledUnit's units. */
  datatype TimeScale = Milliseconds | Seconds | Minutes | Hours | Days

  /** Milliseconds in one unit of the scale. */
  function MillisPer(s: TimeScale): (n: nat)
    ensures n > 0
  {
    match s
    case Milliseconds => 1
    case Seconds => 1000
    case Minutes => 60 * 1000
    case Hours => 60 * 60 * 1000
    case Days => 24 * 60 * 60 * 1000
  }

  /** The time in the given unit: the factors are chained from
      milliseconds, each a division of the one before. */
  function GetScaledUnit(millis: real, s: TimeScale): (r: real)
    ensures r * MillisPer(s) as real == millis
  {
    var toMillis := 1.0;
    var toSeconds := toMillis / 1000.0;
    var toMinutes := toSeconds / 60.0;
    var toHours := toMinutes / 60.0;
    var toDays := toHours / 24.0;
    match s
    case Milliseconds => millis * toMillis
    case Seconds => millis * toSeconds
    case Minutes => millis * toMinutes
    case Hours => millis * toHours
    case Days => millis * toDays
  }

  /** A minute of milliseconds in every unit. */
  lemma AMinuteInEveryUnit()
    ensures GetScaledUnit(60000.0, Milliseconds) == 60000.0
    ensures GetScaledUnit(60000.0, Seconds) == 60.0
    ensures GetScaledUnit(60000.0, Minutes) == 1.0
    ensures GetScaledUnit(60000.0, Hours) == 1.0 / 60.0
    ensures GetScaledUnit(60000.0, Days) == 1.0 / 1440.0
  {
  }

  /** Calls per frame: the call count when no frame was counted, else the
      ratio; at least one call per counted frame. */
  function CallsPerFrame(e: Event): (r: real)
    ensures e.frameAmt == 0 ==> r == e.callAmt as real
    ensures e.frameAmt > 0 ==> r * e.frameAmt as real == e.callAmt as real
    ensures e.frameAmt <= e.callAmt ==> r >= if e.callAmt == 0 then 0.0 else 1.0
  {
    if e.frameAmt == 0 then e.callAmt as real
    else
      QuotientAtLeastOne(e.callAmt as real, e.frameAmt as real);
      e.callAmt as real / e.frameAmt as real
  }

  /** A quotient whose divisor is positive and no larger than the dividend
      is at least one. */
  lemma QuotientAtLeastOne(c: real, f: real)
    requires 0.0 < f
    ensures f <= c ==> c / f >= 1.0
    ensures c / f * f == c
  {
    var q := c / f;
    assert q * f == c;
    assert (q - 1.0) * f == c - f;
  }

  /** What every stored event keeps: it is filed under its own id, it was
      called in no more frames than it was called, and its extremes are
      within the bounds of its recorded frames. */
  ghost predicate EventOk(id: string, e: Event)
  {
    e.eventId == id && e.frameAmt <= e.callAmt && ExtremesBound(e)
  }

  /** An event entered at time `now`: one more call, one more frame the
      first time in a frame, the entry time on top of the stack. */
  function Entered(e: Event, now: nat): (r: Event)
    ensures r.callAmt == e.callAmt + 1 && r.callTimes == e.callTimes + [now] && r.calledThisFrame
    ensures r.frameAmt == if e.calledThisFrame then e.frameAmt else e.frameAmt + 1
    ensures r.(callAmt := e.callAmt, callTimes := e.callTimes, calledThisFrame := e.calledThisFrame, frameAmt := e.frameAmt) == e
  {
    var e1 := if !e.calledThisFrame then e.(frameAmt := e.frameAmt + 1, calledThisFrame := true) else e;
    e1.(callAmt := e1.callAmt + 1, callTimes := e1.callTimes + [now])
  }

  /** An event left at time `now`: the latest entry time popped and the
      time since it added to the total and to this frame's time. */
  function Left(e: Event, now: nat): (r: Event)
    requires |e.callTimes| > 0 && e.callTimes[|e.callTimes| - 1] <= now
    ensures r.callTimes == e.callTimes[..|e.callTimes| - 1]
    ensures r.totalTime - e.totalTime == r.frameTime - e.frameTime == now - e.callTimes[|e.callTimes| - 1]
    ensures r.(callTimes := e.callTimes, totalTime := e.totalTime, frameTime := e.frameTime) == e
  {
    var n := |e.callTimes|;
    var callTime := e.callTimes[n - 1];
    e.(callTimes := e.callTimes[..n - 1], totalTime := e.totalTime + (now - callTime), frameTime := e.frameTime + (now - callTime))
  }

  /** An event at the start of a frame. */
  function Cleared(e: Event): (r: Event)
    ensures !r.calledThisFrame && r.frameTime == 0
    ensures r.(calledThisFrame := e.calledThisFrame, frameTime := e.frameTime) == e
  {
    e.(calledThisFrame := false, frameTime := 0)
  }

  lemma {:induction false} StepsKeepEventOk(id: string, e: Event, now: nat, frameNum: nat)
    requires EventOk(id, e)
    ensures EventOk(id, Entered(e, now)) && EventOk(id, Cleared(e))
    ensures |e.callTimes| > 0 && e.callTimes[|e.callTimes| - 1] <= now ==> EventOk(id, Left(e, now))
    ensures EventOk(id, TrackedAsWritten(e, frameNum))
  {
    TrackedAsWrittenKeepsBounds(e, frameNum);
  }

  /** Clearing (or tracking) every event of a well-formed map keeps it
      well-formed. */
  lemma MapStepKeepsOk(before: map<string, Event>, after: map<string, Event>, now: nat, frameNum: nat, tracking: bool)
    requires forall id :: id in before ==> EventOk(id, before[id])
    requires after.Keys == before.Keys
    requires forall id :: id in after ==> after[id] == if tracking then TrackedAsWritten(before[id], frameNum) else Cleared(before[id])
    ensures forall id :: id in after ==> EventOk(id, after[id])
  {
    forall id | id in after
      ensures EventOk(id, after[id])
    {
      StepsKeepEventOk(id, before[id], now, frameNum);
    }
  }

  /** The loop of StartSimulationFrame: every event cleared. */
  method ClearAll(events: map<string, Event>) returns (result: map<string, Event>)
    ensures result.Keys == events.Keys
    ensures forall id :: id in result ==> result[id] == Cleared(events[id])
  {
    result := map[];
    var todo := events.Keys;
    while todo != {}
      invariant todo <= events.Keys && result.Keys == events.Keys - todo
      invariant forall id :: id in result ==> result[id] == Cleared(events[id])
      decreases |todo|
    {
      var id :| id in todo;
      result := result[id := Cleared(events[id])];
      todo := todo - {id};
    }
  }

  /** The loop of EndSimulationFrame: every event's frame recorded. */
  method TrackAll(events: map<string, Event>, frameNum: nat) returns (result: map<string, Event>)
    ensures result.Keys == events.Keys
    ensures forall id :: id in result ==> result[id] == TrackedAsWritten(events[id], frameNum)
  {
    result := map[];
    var todo := events.Keys;
    while todo != {}
      invariant todo <= events.Keys && result.Keys == events.Keys - todo
      invariant forall id :: id in result ==> result[id] == TrackedAsWritten(events[id], frameNum)
      decreases |todo|
    {
      var id :| id in todo;
      result := result[id := TrackedAsWritten(events[id], frameNum)];
      todo := todo - {id};
    }
  }

  class PerformanceMetricManager {
    /** mEventMap. */
    var events: map<string, Event>
    /** mFrameNum. */
    var frameNum: nat
    /** sbEnableEvents (static in the source). */
    var eventsEnabled: bool

    ghost predicate Valid()
      reads this
    {
      forall id :: id in events ==> EventOk(id, events[id])
    }

    constructor()
      ensures Valid() && events == map[] && frameNum == 0 && eventsEnabled
    {
      events, frameNum, eventsEnabled := map[], 0, true;
    }

    function ContainEvent(id: string): (r: bool)
      reads this
      ensures r <==> id in events
    {
      id in events
    }

    /** The event under `id`, created with zeroed counters when absent. */
    method GetEvent(id: string) returns (e: Event)
      requires Valid()
      modifies this
      ensures Valid() && e == Fetch(old(events), id) && events == old(events)[id := e]
      ensures id !in old(events) ==> e == NewEvent(id)
      ensures id in old(events) ==> events == old(events)
      ensures frameNum == old(frameNum) && eventsEnabled == old(eventsEnabled)
    {
      if id !in events {
        e := NewEvent(id);
        events := events[id := e];
      } else {
        e := events[id];
      }
    }

    /** EnterEvent at time `now`. */
    method EnterEvent(id: string, now: nat)
      requires Valid()
      modifies this
      ensures Valid() && frameNum == old(frameNum) && eventsEnabled == old(eventsEnabled)
      ensures !eventsEnabled ==> events == old(events)
      ensures eventsEnabled ==> events == old(events)[id := Entered(Fetch(old(events), id), now)]
    {
      if eventsEnabled {
        var e := GetEvent(id);
        StepsKeepEventOk(id, e, now, frameNum);
        events := events[id := Entered(e, now)];
      }
    }

    /** LeaveEvent at time `now`; the entry being left must be on the
        stack and no later than `now`. */
    method LeaveEvent(id: string, now: nat)
      requires Valid()
      requires eventsEnabled ==> id in events && |events[id].callTimes| > 0
                                 && events[id].callTimes[|events[id].callTimes| - 1] <= now
      modifies this
      ensures Valid() && frameNum == old(frameNum) && eventsEnabled == old(eventsEnabled)
      ensures !eventsEnabled ==> events == old(events)
      ensures eventsEnabled ==> events == old(events)[id := Left(old(events)[id], now)]
    {
      if eventsEnabled {
        var e := GetEvent(id);
        StepsKeepEventOk(id, e, now, frameNum);
        events := events[id := Left(e, now)];
      }
    }

    /** Clears every event's called-this-frame flag and frame time. */
    method StartSimulationFrame()
      requires Valid()
      modifies this
      ensures Valid() && frameNum == old(frameNum) && eventsEnabled == old(eventsEnabled)
      ensures !eventsEnabled ==> events == old(events)
      ensures eventsEnabled ==>
                events.Keys == old(events).Keys && forall id :: id in events ==> events[id] == Cleared(old(events)[id])
    {
      if !eventsEnabled {
        return;
      }
      var result := ClearAll(events);
      MapStepKeepsOk(events, result, 0, 0, false);
      events := result;
    }

    /** Records a frame for every event called in it, then advances the
        frame number. */
    method EndSimulationFrame()
      requires Valid()
      requires eventsEnabled ==> forall id :: id in events ==> events[id].callTimes == []
      modifies this
      ensures Valid() && eventsEnabled == old(eventsEnabled)
      ensures !eventsEnabled ==> events == old(events) && frameNum == old(frameNum)
      ensures eventsEnabled ==>
                frameNum == old(frameNum) + 1 && events.Keys == old(events).Keys
                && forall id :: id in events ==> events[id] == TrackedAsWritten(old(events)[id], old(frameNum))
    {
      if !eventsEnabled {
        return;
      }
      var result := TrackAll(events, frameNum);
      MapStepKeepsOk(events, result, 0, frameNum, true);
      events := result;
      frameNum := frameNum + 1;
    }

    /** GetCallsPerFrame for a known event. */
    function GetCallsPerFrame(id: string): (r: real)
      requires id in events
      reads this
      ensures r == CallsPerFrame(events[id])
    {
      CallsPerFrame(events[id])
    }
  }

  // ---------------------------------------------------------------------
  // Uses of the manager.

  /** A scoped event entered again inside itself: two calls in one frame,
      the stack empty again afterwards, and the time of both calls in the
      total. */
  method NestedScopedCalls(t0: nat, t1: nat, t2: nat, t3: nat)
      returns (calls: nat, frames: nat, open: nat, total: nat, perFrame: real)
    requires t0 <= t1 <= t2 <= t3
    ensures calls == 2 && frames == 1 && open == 0
    ensures total == (t2 - t1) + (t3 - t0) && perFrame == 2.0
  {
    var pm := new PerformanceMetricManager();
    pm.EnterEvent("scopedTest", t0);
    pm.EnterEvent("scopedTest", t1);
    assert pm.events["scopedTest"].callTimes == [t0, t1];
    pm.LeaveEvent("scopedTest", t2);
    assert pm.events["scopedTest"].callTimes == [t0];
    pm.LeaveEvent("scopedTest", t3);
    var e := pm.events["scopedTest"];
    calls, frames, open, total := e.callAmt, e.frameAmt, |e.callTimes|, e.totalTime;
    perFrame := pm.GetCallsPerFrame("scopedTest");
  }

  /** An event timed in two frames, of `a` and `b` milliseconds, as the
      source tracks it: both frames are recorded with their numbers and
      times and the event counts two frames; the maximum is the larger time,
      but a frame time that raised the maximum never reached the minimum. */
  lemma TwoTimedFrames(a: nat, b: nat)
    requires a < MagicNumber && b < MagicNumber
    ensures var e1 := TrackedAsWritten(Left(Entered(Cleared(NewEvent("frameA")), 0), a), 0);
            var e2 := TrackedAsWritten(Left(Entered(Cleared(e1), 100), 100 + b), 1);
            e2.frames == [FramePair(0, a), FramePair(1, b)] && e2.frameAmt == 2
            && e2.maxFrameTime == (if a > b then a else b)
            && e2.minFrameTime == (if b <= a then b else if a == 0 then 0 else MagicNumber)
  {
  }

  /** The same two frames with the extremes updated independently: the
      extremes are the larger and the smaller time. */
  lemma TwoTimedFramesCorrected(a: nat, b: nat)
    requires a < MagicNumber && b < MagicNumber
    ensures var e1 := Tracked(Left(Entered(Cleared(NewEvent("frameA")), 0), a), 0);
            var e2 := Tracked(Left(Entered(Cleared(e1), 100), 100 + b), 1);
            e2.frames == [FramePair(0, a), FramePair(1, b)] && e2.frameAmt == 2
            && e2.maxFrameTime == (if a > b then a else b) && e2.minFrameTime == (if a < b then a else b)
  {
  }
}

/** The alert cooldown: an alert sounds for a double-parked frame only when at
    least Cooldown ticks have passed since the last one. */
module Alerting {
  import opened Geometry
  import opened FrameLogic

  /** Minimum number of ticks between two alerts. */
  const Cooldown := 5
  /** The stored last-alert time when the process starts. */
  const InitialAlertTime := 0

  /** What the cooldown sees of one processed frame. */
  datatype FrameEvent = FrameEvent(doubleParked: bool, now: int)

  /** An alert fires for this frame, given the time of the last alert. */
  predicate Fires(last: int, e: FrameEvent) {
    e.doubleParked && e.now - last >= Cooldown
  }

  /** The stored last-alert time after the frame. */
  function After(last: int, e: FrameEvent): int {
    if Fires(last, e) then e.now else last
  }

  /** The stored last-alert time after a run of frames. */
  function LastAlertAfter(last: int, events: seq<FrameEvent>): int
    decreases |events|
  {
    if events == [] then last else LastAlertAfter(After(last, events[0]), events[1..])
  }

  /** The times at which alerts fire during a run of frames, in order. */
  function AlertTimes(last: int, events: seq<FrameEvent>): seq<int>
    decreases |events|
  {
    if events == [] then []
    else if Fires(last, events[0]) then [events[0].now] + AlertTimes(events[0].now, events[1..])
    else AlertTimes(last, events[1..])
  }

  /** Processing one more frame appends its alert, if any, and moves the stored
      time as the single-frame rule says. */
  lemma {:induction false} AlertTimesSnoc(last: int, events: seq<FrameEvent>, e: FrameEvent)
    ensures AlertTimes(last, events + [e])
         == AlertTimes(last, events) + (if Fires(LastAlertAfter(last, events), e) then [e.now] else [])
    ensures LastAlertAfter(last, events + [e]) == After(LastAlertAfter(last, events), e)
    decreases |events|
  {
    if events == [] {
      assert [] + [e] == [e];
      assert [e][1..] == [];
    } else {
      assert (events + [e])[0] == events[0];
      assert (events + [e])[1..] == events[1..] + [e];
      AlertTimesSnoc(After(last, events[0]), events[1..], e);
    }
  }

  /** Rate limiting: the first alert comes at least Cooldown ticks after the
      starting time, and consecutive alerts are at least Cooldown ticks apart,
      whatever the frame times are. */
  lemma {:induction false} AlertsRateLimited(last: int, events: seq<FrameEvent>)
    ensures var r := AlertTimes(last, events);
      (|r| > 0 ==> r[0] - last >= Cooldown) &&
      (forall k :: 0 <= k < |r| - 1 ==> r[k + 1] - r[k] >= Cooldown)
    decreases |events|
  {
    if events != [] {
      var e := events[0];
      if Fires(last, e) {
        AlertsRateLimited(e.now, events[1..]);
        var r := AlertTimes(last, events);
        assert r == [e.now] + AlertTimes(e.now, events[1..]);
        forall k | 0 <= k < |r| - 1 ensures r[k + 1] - r[k] >= Cooldown {
          if k > 0 {
            assert r[k + 1] == AlertTimes(e.now, events[1..])[k];
            assert r[k] == AlertTimes(e.now, events[1..])[k - 1];
          }
        }
      } else {
        AlertsRateLimited(last, events[1..]);
      }
    }
  }

  /** Every alert belongs to a double-parked frame and carries that frame's time. */
  lemma {:induction false} AlertsOnlyWhenDoubleParked(last: int, events: seq<FrameEvent>)
    ensures forall t :: t in AlertTimes(last, events) ==>
      exists i :: 0 <= i < |events| && events[i].doubleParked && events[i].now == t
    decreases |events|
  {
    if events != [] {
      var e := events[0];
      var rest := events[1..];
      var last' := After(last, e);
      AlertsOnlyWhenDoubleParked(last', rest);
      forall t | t in AlertTimes(last, events)
        ensures exists i :: 0 <= i < |events| && events[i].doubleParked && events[i].now == t
      {
        if Fires(last, e) && t == e.now {
          assert events[0].doubleParked && events[0].now == t;
        } else {
          assert t in AlertTimes(last', rest);
          var i :| 0 <= i < |rest| && rest[i].doubleParked && rest[i].now == t;
          assert events[i + 1] == rest[i];
        }
      }
    }
  }

  /** When the first frame comes at least Cooldown ticks after the stored
      last-alert time, two double-parked frames less than Cooldown ticks apart
      sound one alert; at least Cooldown ticks apart they sound two. The second frame may carry
      an earlier time than the first (the wall clock can step back): that is
      also less than Cooldown ticks apart and sounds no second alert. */
  lemma TwoDoubleParkedFrames(last: int, t1: int, t2: int)
    requires t1 - last >= Cooldown
    ensures t2 - t1 < Cooldown ==>
      AlertTimes(last, [FrameEvent(true, t1), FrameEvent(true, t2)]) == [t1]
    ensures t2 - t1 >= Cooldown ==>
      AlertTimes(last, [FrameEvent(true, t1), FrameEvent(true, t2)]) == [t1, t2]
  {
    var events := [FrameEvent(true, t1), FrameEvent(true, t2)];
    var second := [FrameEvent(true, t2)];
    assert events[1..] == second;
    assert second[1..] == [];
    assert AlertTimes(last, events) == [t1] + AlertTimes(t1, second);
    assert AlertTimes(t1, second) == if t2 - t1 >= Cooldown then [t2] else [];
  }

  /** The process-wide alert state, with the history of frames and alerts as ghost state. */
  class AlertLimiter {
    var lastAlertTime: int
    ghost var frames: seq<FrameEvent>
    ghost var alerts: seq<int>

    ghost predicate Valid()
      reads this
    {
      alerts == AlertTimes(InitialAlertTime, frames) &&
      lastAlertTime == LastAlertAfter(InitialAlertTime, frames)
    }

    constructor ()
      ensures Valid()
      ensures lastAlertTime == InitialAlertTime && frames == [] && alerts == []
    {
      lastAlertTime := InitialAlertTime;
      frames := [];
      alerts := [];
    }

    /** One iteration of the frame loop: scan the detections, decide double
        parking (the value written as {"dpark": ...}), fire the alert subject to
        the cooldown, and pick the banner. */
    method ProcessFrame(results: seq<seq<Box>>, now: int) returns (dpark: bool, fired: bool, banner: Banner)
      requires Valid()
      modifies this
      ensures Valid()
      ensures dpark <==> DoubleParked(Flatten(results))
      ensures fired <==> dpark && now - old(lastAlertTime) >= Cooldown
      ensures lastAlertTime == if fired then now else old(lastAlertTime)
      ensures banner == ChooseBanner(Occupied(Flatten(results), Region1), Occupied(Flatten(results), Region2))
      ensures frames == old(frames) + [FrameEvent(dpark, now)]
      ensures alerts == old(alerts) + (if fired then [now] else [])
    {
      var inRegion1, inRegion2 := ScanDetections(results);
      dpark := inRegion1 && inRegion2;
      var event := FrameEvent(dpark, now);
      AlertTimesSnoc(InitialAlertTime, frames, event);
      fired := dpark && now - lastAlertTime >= Cooldown;
      if fired {
        lastAlertTime := now;
      }
      frames := frames + [event];
      alerts := alerts + (if fired then [now] else []);
      banner := ChooseBanner(inRegion1, inRegion2);
    }
  }
}

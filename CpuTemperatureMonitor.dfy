/** The CPU temperature monitor of CpuTemperatureMonitor.kt: it selects the
    first CPU temperature, truncated to a whole number, and is past its
    threshold when that number is strictly greater than the threshold. */
module CpuTemperatureMonitor {
  import opened Wrappers
  import opened Monitoring

  /** Java's conversion of a finite double to long: truncation toward zero. */
  function TruncateTowardZero(x: real): (t: int)
    ensures 0.0 <= x ==> 0 <= t && t as real <= x < t as real + 1.0
    ensures x < 0.0 ==> t <= 0 && t as real - 1.0 < x <= t as real
  {
    if x >= 0.0 then x.Floor else -((-x).Floor)
  }

  function MonitorTypeOf(): (t: MonitorType)
    ensures t == CpuTemp
  {
    CpuTemp
  }

  /** The first temperature, truncated; 0 when no temperature is reported. */
  function SelectValue(temperatures: seq<real>): (v: int)
    ensures temperatures == [] ==> v == 0
    ensures temperatures != [] ==> v == TruncateTowardZero(temperatures[0])
  {
    if temperatures == [] then 0 else TruncateTowardZero(temperatures[0])
  }

  predicate IsPastThreshold(value: int, threshold: int) {
    value > threshold
  }

  /** The evaluation this monitor feeds to a mechanism's check at time `now`. */
  function ReadingOf(now: Instant, temperatures: seq<real>, threshold: int, freshId: Uuid): (r: Reading<int>)
    ensures r.now == now && r.freshId == freshId && r.value == SelectValue(temperatures)
    ensures r.outsideThreshold <==> SelectValue(temperatures) > threshold
  {
    var v := SelectValue(temperatures);
    Reading(now, v, IsPastThreshold(v, threshold), freshId)
  }

  /** Only the first temperature matters. */
  lemma {:induction false} SelectValueIgnoresLaterEntries(t: real, rest1: seq<real>, rest2: seq<real>)
    ensures SelectValue([t] + rest1) == SelectValue([t] + rest2)
    ensures SelectValue([t] + rest1) == TruncateTowardZero(t)
  {
    assert ([t] + rest1)[0] == t && ([t] + rest2)[0] == t;
  }

  /** A value equal to the threshold is not past it. */
  lemma IsPastThresholdIsStrict(threshold: int)
    ensures !IsPastThreshold(threshold, threshold) && IsPastThreshold(threshold + 1, threshold)
  {
  }

  lemma IsPastThresholdIsMonotone(v: int, w: int, threshold: int)
    requires IsPastThreshold(v, threshold) && v <= w
    ensures IsPastThreshold(w, threshold)
  {
  }

  /** Truncation makes the test "the first temperature is at least one degree
      above the threshold": 80.9 degrees does not pass a threshold of 80. */
  lemma {:induction false} PastThresholdOnTemperature(t: real, rest: seq<real>, threshold: int)
    requires 0 <= threshold
    ensures IsPastThreshold(SelectValue([t] + rest), threshold) <==> t >= threshold as real + 1.0
  {
    assert ([t] + rest)[0] == t;
  }

  /** A spike that does not outlast the inertia raises nothing. */
  method ShortSpikeScenario() returns (events: seq<MonitorEvent<int>>)
    ensures events == []
  {
    var c := Config(7, MonitorTypeOf(), 80, 5000);
    var m := new MonitorMechanism();
    events := [];
    var e;
    e := m.Check(c, ReadingOf(0, [90.0], 80, 100));    events := events + EventsOf(e);
    e := m.Check(c, ReadingOf(1000, [90.0], 80, 101)); events := events + EventsOf(e);
    e := m.Check(c, ReadingOf(3000, [90.0], 80, 103)); events := events + EventsOf(e);
    assert events == [] && m.state == OutsideBeforeInertia;
    e := m.Check(c, ReadingOf(4000, [50.0], 80, 200));
    events := events + EventsOf(e);
  }

  /** Holding 90 degrees against a threshold of 80 and an inertia of 5 s raises
      one START, at the first reading strictly more than 5 s after the value
      went out of range, and recovery raises one STOP with the same id. */
  method SustainedBreachScenario() returns (events: seq<MonitorEvent<int>>)
    ensures |events| == 2
    ensures events[0].eventType == Start && events[0].time == 6000 && events[0].id == 106
    ensures events[1].eventType == Stop && events[1].time == 13000 && events[1].id == 106
  {
    var c := Config(7, MonitorTypeOf(), 80, 5000);
    var m := new MonitorMechanism();
    events := [];
    var e;
    e := m.Check(c, ReadingOf(0, [90.0], 80, 100));    events := events + EventsOf(e);
    e := m.Check(c, ReadingOf(5000, [90.0], 80, 105)); events := events + EventsOf(e);
    assert events == [] && m.state == OutsideBeforeInertia;
    e := m.Check(c, ReadingOf(6000, [90.0], 80, 106)); events := events + EventsOf(e);
    assert |events| == 1 && m.state == Outside;
    e := m.Check(c, ReadingOf(7000, [50.0], 80, 107)); events := events + EventsOf(e);
    e := m.Check(c, ReadingOf(12000, [50.0], 80, 112)); events := events + EventsOf(e);
    assert |events| == 1 && m.state == InsideBeforeInertia;
    e := m.Check(c, ReadingOf(13000, [50.0], 80, 113)); events := events + EventsOf(e);
  }
}

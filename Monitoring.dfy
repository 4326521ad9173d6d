/** The debouncing threshold monitor of MonitorMechanism.kt.

    A mechanism is in one of four states.  Leaving the threshold range, and
    coming back into it, each have to persist for strictly longer than the
    monitor's inertia before a START (resp. STOP) event is emitted; a START
    and the STOP that ends the same episode share one event id.

    Time is an integer count of milliseconds on an abstract clock; the clock
    read, the monitored value, the outcome of the monitor's threshold test
    and the UUID that would be generated are all inputs of a check. */
module Monitoring {
  import opened Wrappers

  type Instant = int
  type Uuid = int

  datatype State = Inside | OutsideBeforeInertia | Outside | InsideBeforeInertia

  datatype EventType = Start | Stop

  /** The monitor types; only CPU temperature is modelled by name. */
  datatype MonitorType = CpuTemp | OtherMonitorType(name: string)

  /** What a monitor contributes to a check: its id, type, threshold and inertia. */
  datatype Config<V> = Config(monitorId: Uuid, monitorType: MonitorType, threshold: V, inertia: int)

  /** One evaluation: the clock reading, the selected value, whether that value
      is outside the threshold, and the id a fresh UUID would get. */
  datatype Reading<V> = Reading(now: Instant, value: V, outsideThreshold: bool, freshId: Uuid)

  datatype MonitorEvent<V> = MonitorEvent(
    id: Uuid, monitorId: Uuid, time: Instant, eventType: EventType,
    monitorType: MonitorType, threshold: V, value: V)

  /** The three fields the mechanism updates. */
  datatype Mechanism = Mechanism(state: State, stateChangedAt: Option<Instant>, eventId: Option<Uuid>)

  datatype StepResult<V> = StepResult(next: Mechanism, event: Option<MonitorEvent<V>>)

  const Initial := Mechanism(Inside, None, None)

  predicate BeforeInertia(s: State) {
    s == OutsideBeforeInertia || s == InsideBeforeInertia
  }

  /** The states between a START and its STOP. */
  predicate Alerting(s: State) {
    s == Outside || s == InsideBeforeInertia
  }

  /** The state invariant: a timestamp exactly in the two grace-period states,
      and an event id whenever a START is awaiting its STOP. */
  predicate Inv(m: Mechanism) {
    && (m.stateChangedAt.Some? <==> BeforeInertia(m.state))
    && (Alerting(m.state) ==> m.eventId.Some?)
  }

  /** Strictly more than the inertia has elapsed since the recorded state change. */
  predicate PastInertia(m: Mechanism, now: Instant, inertia: int) {
    m.stateChangedAt.Some? && now - m.stateChangedAt.value > inertia
  }

  /** The event a check emits, stamped with the reading's clock and value. */
  function EventOf<V>(id: Uuid, c: Config<V>, r: Reading<V>, t: EventType): MonitorEvent<V> {
    MonitorEvent(id, c.monitorId, r.now, t, c.monitorType, c.threshold, r.value)
  }

  /** One check of MonitorMechanism, as a function of the old fields. */
  function Step<V>(m: Mechanism, c: Config<V>, r: Reading<V>): StepResult<V>
    requires Inv(m)
  {
    var past := PastInertia(m, r.now, c.inertia);
    match m.state
    case Inside =>
      if r.outsideThreshold then StepResult(m.(state := OutsideBeforeInertia, stateChangedAt := Some(r.now)), None)
      else StepResult(m, None)
    case OutsideBeforeInertia =>
      if r.outsideThreshold then
        if past then
          StepResult(Mechanism(Outside, None, Some(r.freshId)), Some(EventOf(r.freshId, c, r, Start)))
        else StepResult(m, None)
      else StepResult(m.(state := Inside, stateChangedAt := None), None)
    case Outside =>
      if r.outsideThreshold then StepResult(m, None)
      else StepResult(m.(state := InsideBeforeInertia, stateChangedAt := Some(r.now)), None)
    case InsideBeforeInertia =>
      if !r.outsideThreshold then
        if past then
          StepResult(m.(state := Inside, stateChangedAt := None), Some(EventOf(m.eventId.value, c, r, Stop)))
        else StepResult(m, None)
      else StepResult(m.(state := Outside, stateChangedAt := None), None)
  }

  function EventsOf<V>(e: Option<MonitorEvent<V>>): seq<MonitorEvent<V>> {
    match e
    case None => []
    case Some(ev) => [ev]
  }

  datatype RunResult<V> = RunResult(final: Mechanism, events: seq<MonitorEvent<V>>)

  /** The checks of a sequence of readings, one after the other, collecting the events. */
  function Run<V>(m: Mechanism, c: Config<V>, rs: seq<Reading<V>>): (r: RunResult<V>)
    requires Inv(m)
    ensures Inv(r.final)
    ensures |r.events| <= |rs|
    decreases |rs|
  {
    if rs == [] then RunResult(m, [])
    else
      var p := Run(m, c, rs[..|rs| - 1]);
      StepInv(p.final, c, rs[|rs| - 1]);
      var s := Step(p.final, c, rs[|rs| - 1]);
      RunResult(s.next, p.events + EventsOf(s.event))
  }

  /** Events alternate START, STOP, START, ... and each STOP carries the id of
      the START just before it. */
  predicate WellPaired<V>(es: seq<MonitorEvent<V>>) {
    forall i :: 0 <= i < |es| ==>
      && es[i].eventType == (if i % 2 == 0 then Start else Stop)
      && (i % 2 == 1 ==> es[i].id == es[i - 1].id)
  }

  // ----- single-check properties -------------------------------------------

  lemma InitialState()
    ensures Inv(Initial) && Initial.state == Inside && Initial.stateChangedAt == None
  {
  }

  /** Reaching exactly the inertia is not enough; one more unit is. */
  lemma {:induction false} PastInertiaIsStrict(m: Mechanism, t: Instant, inertia: int)
    requires m.stateChangedAt == Some(t)
    ensures !PastInertia(m, t + inertia, inertia)
    ensures PastInertia(m, t + inertia + 1, inertia)
    ensures forall now :: PastInertia(m, now, inertia) <==> now > t + inertia
  {
  }

  lemma {:induction false} StepInv<V>(m: Mechanism, c: Config<V>, r: Reading<V>)
    requires Inv(m)
    ensures Inv(Step(m, c, r).next)
  {
  }

  /** At most one event per check, and it is a START exactly when an episode
      begins and a STOP exactly when it ends. */
  lemma {:induction false} StepEvent<V>(m: Mechanism, c: Config<V>, r: Reading<V>)
    requires Inv(m)
    ensures var s := Step(m, c, r);
      && (s.event.Some? && s.event.value.eventType == Start <==> !Alerting(m.state) && Alerting(s.next.state))
      && (s.event.Some? && s.event.value.eventType == Stop <==> Alerting(m.state) && !Alerting(s.next.state))
      && (s.event.Some? ==> s.event.value.time == r.now && s.event.value.value == r.value
                            && s.event.value.monitorId == c.monitorId && s.event.value.threshold == c.threshold
                            && s.event.value.monitorType == c.monitorType)
  {
  }

  lemma {:induction false} InsideStep<V>(m: Mechanism, c: Config<V>, r: Reading<V>)
    requires Inv(m) && m.state == Inside
    ensures var s := Step(m, c, r);
      && s.event == None
      && (r.outsideThreshold ==> s.next.state == OutsideBeforeInertia && s.next.stateChangedAt == Some(r.now))
      && (!r.outsideThreshold ==> s.next == m)
  {
  }

  lemma {:induction false} OutsideBeforeInertiaStep<V>(m: Mechanism, c: Config<V>, r: Reading<V>)
    requires Inv(m) && m.state == OutsideBeforeInertia
    ensures var s := Step(m, c, r);
      && (r.outsideThreshold && PastInertia(m, r.now, c.inertia) ==>
            && s.next == Mechanism(Outside, None, Some(r.freshId))
            && s.event == Some(MonitorEvent(r.freshId, c.monitorId, r.now, Start, c.monitorType, c.threshold, r.value)))
      && (r.outsideThreshold && !PastInertia(m, r.now, c.inertia) ==> s == StepResult(m, None))
      && (!r.outsideThreshold ==> s.next.state == Inside && s.next.stateChangedAt == None && s.event == None)
  {
  }

  lemma {:induction false} OutsideStep<V>(m: Mechanism, c: Config<V>, r: Reading<V>)
    requires Inv(m) && m.state == Outside
    ensures var s := Step(m, c, r);
      && s.event == None
      && (!r.outsideThreshold ==> s.next.state == InsideBeforeInertia && s.next.stateChangedAt == Some(r.now)
                                  && s.next.eventId == m.eventId)
      && (r.outsideThreshold ==> s.next == m)
  {
  }

  lemma {:induction false} InsideBeforeInertiaStep<V>(m: Mechanism, c: Config<V>, r: Reading<V>)
    requires Inv(m) && m.state == InsideBeforeInertia
    ensures var s := Step(m, c, r);
      && (!r.outsideThreshold && PastInertia(m, r.now, c.inertia) ==>
            && s.next.state == Inside && s.next.stateChangedAt == None
            && s.event == Some(MonitorEvent(m.eventId.value, c.monitorId, r.now, Stop, c.monitorType, c.threshold, r.value)))
      && (!r.outsideThreshold && !PastInertia(m, r.now, c.inertia) ==> s == StepResult(m, None))
      && (r.outsideThreshold ==> s.next.state == Outside && s.next.stateChangedAt == None && s.event == None
                                 && s.next.eventId == m.eventId)
  {
  }

  // ----- properties of runs --------------------------------------------------

  /** Solver helper: a run over one more reading is one more step. */
  lemma {:induction false} RunAppend<V>(m: Mechanism, c: Config<V>, rs: seq<Reading<V>>, r: Reading<V>)
    requires Inv(m)
    ensures var p := Run(m, c, rs);
      var s := Step(p.final, c, r);
      Run(m, c, rs + [r]) == RunResult(s.next, p.events + EventsOf(s.event))
  {
    assert (rs + [r])[..|rs + [r]| - 1] == rs;
  }

  /** Appending the event a check emits keeps the events well paired, when it
      has the type and id the position calls for. */
  lemma {:induction false} WellPairedExtend<V>(es: seq<MonitorEvent<V>>, e: MonitorEvent<V>)
    requires WellPaired(es)
    requires e.eventType == (if |es| % 2 == 0 then Start else Stop)
    requires |es| % 2 == 1 ==> e.id == es[|es| - 1].id
    ensures WellPaired(es + [e])
  {
    var es' := es + [e];
    forall i | 0 <= i < |es'|
      ensures es'[i].eventType == (if i % 2 == 0 then Start else Stop)
      ensures i % 2 == 1 ==> es'[i].id == es'[i - 1].id
    {
      if i < |es| {
        assert es'[i] == es[i];
        if i % 2 == 1 { assert es'[i - 1] == es[i - 1]; }
      } else {
        assert es'[i] == e;
        if i % 2 == 1 { assert es'[i - 1] == es[|es| - 1]; }
      }
    }
  }

  /** The events so far are well paired, and an episode is open exactly when
      their count is odd, with the open START's id stored in the mechanism. */
  predicate PairedWith<V>(es: seq<MonitorEvent<V>>, m: Mechanism) {
    && WellPaired(es)
    && (Alerting(m.state) <==> |es| % 2 == 1)
    && (Alerting(m.state) ==> m.eventId.Some? && es[|es| - 1].id == m.eventId.value)
  }

  /** One check keeps the events paired with the mechanism. */
  lemma {:induction false} PairingStep<V>(es: seq<MonitorEvent<V>>, m: Mechanism, c: Config<V>, r: Reading<V>)
    requires Inv(m) && PairedWith(es, m)
    ensures var s := Step(m, c, r); PairedWith(es + EventsOf(s.event), s.next)
  {
    var s := Step(m, c, r);
    StepEvent(m, c, r);
    if s.event.Some? {
      WellPairedExtend(es, s.event.value);
      assert EventsOf(s.event) == [s.event.value];
    } else {
      assert es + EventsOf(s.event) == es;
    }
  }

  /** From a fresh mechanism, emitted events are well paired; an odd number of
      them means an episode is open, and the open episode's START id is the
      stored event id. */
  lemma {:induction false} RunPairsEvents<V>(c: Config<V>, rs: seq<Reading<V>>)
    ensures var p := Run(Initial, c, rs);
      && WellPaired(p.events)
      && (Alerting(p.final.state) <==> |p.events| % 2 == 1)
      && (Alerting(p.final.state) ==> p.events[|p.events| - 1].id == p.final.eventId.value)
    decreases |rs|
  {
    if rs != [] {
      var pre := rs[..|rs| - 1];
      var r := rs[|rs| - 1];
      RunPairsEvents(c, pre);
      RunAppend(Initial, c, pre, r);
      assert rs == pre + [r];
      var p := Run(Initial, c, pre);
      PairingStep(p.events, p.final, c, r);
    }
  }

  predicate OutsideFrom<V>(rs: seq<Reading<V>>, j: int, outside: bool)
    requires 0 <= j <= |rs|
  {
    forall i :: j <= i < |rs| ==> rs[i].outsideThreshold == outside
  }

  /** In a grace-period state, the recorded timestamp is the clock reading of
      an earlier reading from which on every reading was on the new side of
      the threshold. */
  lemma {:induction false} GracePeriodWitness<V>(c: Config<V>, rs: seq<Reading<V>>)
    ensures var f := Run(Initial, c, rs).final;
      BeforeInertia(f.state) ==>
        exists j :: 0 <= j < |rs| && rs[j].now == f.stateChangedAt.value
                    && OutsideFrom(rs, j, f.state == OutsideBeforeInertia)
    decreases |rs|
  {
    if rs != [] {
      var pre := rs[..|rs| - 1];
      var r := rs[|rs| - 1];
      GracePeriodWitness(c, pre);
      RunAppend(Initial, c, pre, r);
      assert rs == pre + [r];
      var p := Run(Initial, c, pre);
      var f := Step(p.final, c, r).next;
      if BeforeInertia(f.state) {
        if f.stateChangedAt == p.final.stateChangedAt && f.state == p.final.state {
          var j :| 0 <= j < |pre| && pre[j].now == p.final.stateChangedAt.value
                   && OutsideFrom(pre, j, p.final.state == OutsideBeforeInertia);
          assert rs[j] == pre[j];
          assert OutsideFrom(rs, j, f.state == OutsideBeforeInertia) by {
            forall i | j <= i < |rs|
              ensures rs[i].outsideThreshold == (f.state == OutsideBeforeInertia)
            {
              if i < |pre| { assert rs[i] == pre[i]; }
            }
          }
        } else {
          assert rs[|rs| - 1] == r;
          assert OutsideFrom(rs, |rs| - 1, f.state == OutsideBeforeInertia);
        }
      }
    }
  }

  /** A START fires only after the value has been outside the threshold on
      every reading of a window longer than the inertia; a STOP only after it
      has been inside on every reading of such a window. */
  lemma {:induction false} EventsNeedSustainedCondition<V>(c: Config<V>, rs: seq<Reading<V>>, r: Reading<V>)
    requires Step(Run(Initial, c, rs).final, c, r).event.Some?
    ensures var e := Step(Run(Initial, c, rs).final, c, r).event.value;
      var outside := e.eventType == Start;
      exists j :: 0 <= j < |rs| && r.now - rs[j].now > c.inertia
                  && OutsideFrom(rs, j, outside) && r.outsideThreshold == outside
  {
    GracePeriodWitness(c, rs);
    var f := Run(Initial, c, rs).final;
    var j :| 0 <= j < |rs| && rs[j].now == f.stateChangedAt.value
             && OutsideFrom(rs, j, f.state == OutsideBeforeInertia);
  }

  // ----- the mutable mechanism ----------------------------------------------

  /** MonitorMechanism: the three mutable fields and the check that updates them. */
  class MonitorMechanism {
    var state: State
    var stateChangedAt: Option<Instant>
    var eventId: Option<Uuid>

    function Snapshot(): Mechanism
      reads this
    {
      Mechanism(state, stateChangedAt, eventId)
    }

    ghost predicate Valid()
      reads this
    {
      Inv(Snapshot())
    }

    constructor ()
      ensures Valid() && Snapshot() == Initial
    {
      state := Inside;
      stateChangedAt := None;
      eventId := None;
    }

    method Check<V>(c: Config<V>, r: Reading<V>) returns (event: Option<MonitorEvent<V>>)
      requires Valid()
      modifies this
      ensures Valid()
      ensures Snapshot() == Step(old(Snapshot()), c, r).next
      ensures event == Step(old(Snapshot()), c, r).event
    {
      var pastInertia := stateChangedAt.Some? && r.now - stateChangedAt.value > c.inertia;
      event := None;
      match state {
        case Inside =>
          if r.outsideThreshold {
            stateChangedAt := Some(r.now);
            state := OutsideBeforeInertia;
          }
        case OutsideBeforeInertia =>
          if r.outsideThreshold {
            if pastInertia {
              state := Outside;
              stateChangedAt := None;
              eventId := Some(r.freshId);
              event := Some(MonitorEvent(eventId.value, c.monitorId, r.now, Start, c.monitorType, c.threshold, r.value));
            }
          } else {
            stateChangedAt := None;
            state := Inside;
          }
        case Outside =>
          if !r.outsideThreshold {
            stateChangedAt := Some(r.now);
            state := InsideBeforeInertia;
          }
        case InsideBeforeInertia =>
          if !r.outsideThreshold {
            if pastInertia {
              state := Inside;
              stateChangedAt := None;
              event := Some(MonitorEvent(eventId.value, c.monitorId, r.now, Stop, c.monitorType, c.threshold, r.value));
            }
          } else {
            stateChangedAt := None;
            state := Outside;
          }
      }
    }
  }
}

/** The simulated motion: exact integration, invisible observers, CSP targets, end-to-end tracking. */
module StubMotion {
  import opened Bytes
  import opened Can
  import opened RealFacts
  import opened Scaling
  import opened Protocol
  import opened Float32
  import opened PositionUnwrapping
  import opened Tracking
  import opened Stub
  import opened StubTrace

  /** Where a motor is at time t if nothing is sent to it until then. */
  function PositionAt(s: MotorState, t: real): real {
    Advanced(s, t).position
  }

  predicate Timed(s: MotorState) {
    s.enabled ==> s.hasLastUpdate
  }

  lemma PositionAtIsLinear(s: MotorState, a: real, b: real)
    requires Timed(s)
    ensures PositionAt(s, b) == PositionAt(s, a) + Times(Speed(s), b - a)
  {
    Distribute(b - s.lastUpdate, a - s.lastUpdate, Speed(s));
    assert Times(Speed(s), b - a) == Times(b - a, Speed(s));
    assert Times(Speed(s), b - s.lastUpdate) == Times(b - s.lastUpdate, Speed(s));
    assert Times(Speed(s), a - s.lastUpdate) == Times(a - s.lastUpdate, Speed(s));
    assert b - a == (b - s.lastUpdate) - (a - s.lastUpdate);
    Units(b - a);
    hide Times, FloatValue;
  }

  // -------------------------------------------------------- exact integration

  /** The commanded speed in force after a history, read off the history alone; run mode 2 is velocity control. */
  function SpeedBy(events: seq<Event>, id: u8): real {
    if EnabledBy(events, id) && ModeBy(events, id) == 2
        then FloatValue(LastWritten(events, id, SPD_REF)) else 0.0
  }

  /** The command sets the position instead of letting it evolve: re-zeroing, or a target in run mode 5, CSP. */
  predicate Jumps(before: seq<Event>, e: Event, id: u8) {
    Commands(e, id) &&
    (CommTypeOf(e.action.frame) == SET_MECHANICAL_ZERO
     || (Writes(e, id, LOC_REF) && EnabledBy(before, id) && ModeBy(before, id) == 5))
  }

  predicate NoJumps(events: seq<Event>, id: u8, from: nat) {
    forall i :: from <= i < |events| ==> !Jumps(events[..i], events[i], id)
  }

  /**
    * The integral of the speed in force, from the time of event from - 1 to `upto`: one term for
    * every event on the whole bus, whether or not it concerns the motor.
    */
  function Integral(events: seq<Event>, id: u8, from: nat, upto: real): real
    requires 0 < from <= |events|
    decreases |events|
  {
    var e := Last(events);
    Times(SpeedBy(events, id), upto - e.time) +
    if |events| == from then 0.0 else Integral(Init(events), id, from, e.time)
  }

  lemma EffectAtOwnTime(limits: Limits, s: MotorState, frame: CanFrame, now: real)
    requires Supported(frame) && Timed(s)
    requires CommTypeOf(frame) != SET_MECHANICAL_ZERO
    requires CommTypeOf(frame) == WRITE_PARAM && IndexOf(frame) == LOC_REF ==>
        !(s.enabled && s.runMode == POSITION_CSP_MODE)
    ensures PositionAt(Effect(limits, s, frame, now), now) == PositionAt(s, now)
  {
    Units(FloatValue(ParamOrZero(s.params, SPD_REF)));
    forall v: real ensures Times(v, 0.0) == 0.0 { Units(v); assert Times(v, 0.0) == Times(0.0, v); }
    hide Times, FloatValue, IndexOf, ValueOf, CommTypeOf, CspTarget, ParamOrZero;
  }

  lemma SpeedIsSpeedBy(s: MotorState, events: seq<Event>, id: u8)
    requires Holds(s, events, id)
    ensures Speed(s) == SpeedBy(events, id)
  {
    hide EnabledBy, ModeBy, LastWritten, FloatValue;
  }

  /** An event that is no jump does not move the motor at the moment it happens. */
  lemma EventAtOwnTime(limits: Limits, events: seq<Event>, id: u8)
    requires events != [] && !Jumps(Init(events), Last(events), id)
    ensures
      var before, after := MotorOf(Run(limits, NEW_STUB, Init(events)), id), MotorOf(Run(limits, NEW_STUB, events), id);
      PositionAt(after, Last(events).time) == PositionAt(before, Last(events).time)
  {
    hide Applied, Effect, Run, CommTypeOf, IndexOf, EnabledBy, LastWritten, Supported, FloatValue, TargetOf;
    var e := Last(events);
    var st := Run(limits, NEW_STUB, Init(events));
    RunSplit(limits, NEW_STUB, events);
    HistoryDeterminesRegisters(limits, Init(events), id);
    if Commands(e, id) {
      CommandedMotor(limits, st, e, id);
      EffectAtOwnTime(limits, MotorOf(st, id), e.action.frame, e.time);
    } else {
      OtherMotorsUntouched(limits, st, e, id);
    }
  }

  /**
    * In every reachable state, as long as no event since event from - 1 made the motor jump, its
    * position at any time is its position then plus the integral of the commanded speed.
    */
  lemma {:induction false} ExactIntegration(limits: Limits, events: seq<Event>, id: u8, from: nat, upto: real)
    requires 0 < from <= |events| && NoJumps(events, id, from)
    ensures
      var anchor := MotorOf(Run(limits, NEW_STUB, events[..from]), id);
      PositionAt(MotorOf(Run(limits, NEW_STUB, events), id), upto)
      == PositionAt(anchor, events[from - 1].time) + Integral(events, id, from, upto)
    decreases |events|
  {
    hide Run, PositionAt, SpeedBy, Jumps, EnabledBy, ModeBy, LastWritten, Times, Speed;
    var s := MotorOf(Run(limits, NEW_STUB, events), id);
    HistoryDeterminesRegisters(limits, events, id);
    SpeedIsSpeedBy(s, events, id);
    PositionAtIsLinear(s, Last(events).time, upto);
    if |events| == from {
      assert events[..from] == events;
    } else {
      var init := Init(events);
      assert init[..from] == events[..from];
      assert NoJumps(init, id, from) by {
        assert forall i :: from <= i < |init| ==> init[..i] == events[..i] && init[i] == events[i];
      }
      assert events[..|events| - 1] == init;
      EventAtOwnTime(limits, events, id);
      ExactIntegration(limits, init, id, from, Last(events).time);
    }
  }

  /** Where the integral starts after re-zeroing: at exactly zero. */
  lemma ZeroedPosition(limits: Limits, events: seq<Event>, id: u8)
    requires events != [] && Commands(Last(events), id) && CommTypeOf(Last(events).action.frame) == SET_MECHANICAL_ZERO
    ensures PositionAt(MotorOf(Run(limits, NEW_STUB, events), id), Last(events).time) == 0.0
  {
    var st, e := Run(limits, NEW_STUB, Init(events)), Last(events);
    RunSplit(limits, NEW_STUB, events);
    CommandedMotor(limits, st, e, id);
    var s := Effect(limits, MotorOf(st, id), e.action.frame, e.time);
    assert s.position == 0.0 && s.lastUpdate == e.time;
    hide Run, Applied, Effect, CommTypeOf;
    assert Times(Speed(s), 0.0) == 0.0;
  }

  // ------------------------------------------------------ invisible observers

  /** Commands that only look: motion-control and parameter-read frames. */
  predicate Observes(e: Event) {
    e.action.Command? && (CommTypeOf(e.action.frame) == MOTION_CONTROL || CommTypeOf(e.action.frame) == READ_PARAM)
  }

  /** The same motor except for when it was last advanced. */
  ghost predicate SameMotion(a: MotorState, b: MotorState) {
    && a.enabled == b.enabled && a.runMode == b.runMode && a.faultBits == b.faultBits && a.params == b.params
    && Timed(a) && Timed(b)
    && forall t: real :: PositionAt(a, t) == PositionAt(b, t)
  }

  ghost predicate SameMotions(a: StubState, b: StubState) {
    && a.temperature == b.temperature
    && forall id: u8 :: SameMotion(MotorOf(a, id), MotorOf(b, id))
  }

  lemma AdvancedKeepsMotion(s: MotorState, now: real)
    requires Timed(s)
    ensures SameMotion(s, Advanced(s, now))
  {
    forall t: real
      ensures PositionAt(s, t) == PositionAt(Advanced(s, now), t)
    {
      hide Times, FloatValue;
      PositionAtIsLinear(s, now, t);
    }
  }

  lemma EffectOfSameMotion(limits: Limits, a: MotorState, b: MotorState, frame: CanFrame, now: real)
    requires SameMotion(a, b)
    ensures CommTypeOf(frame) != READ_PARAM ==> Effect(limits, a, frame, now) == Effect(limits, b, frame, now)
    ensures SameMotion(Effect(limits, a, frame, now), Effect(limits, b, frame, now))
  {
    assert PositionAt(a, now) == PositionAt(b, now);
    assert Advanced(a, now) == Advanced(b, now);
    hide Advanced, CspTarget, CommTypeOf, IndexOf, ValueOf, FloatValue;
    if CommTypeOf(frame) == READ_PARAM {
    } else {
      var r := Effect(limits, a, frame, now);
      assert r == Effect(limits, b, frame, now);
      EffectIsTimed(limits, a, frame, now);
    }
  }

  lemma EffectIsTimed(limits: Limits, s: MotorState, frame: CanFrame, now: real)
    requires CommTypeOf(frame) != READ_PARAM
    ensures Timed(Effect(limits, s, frame, now))
  {
    hide CspTarget, CommTypeOf, IndexOf, ValueOf, FloatValue;
  }

  lemma ResponseOfSameMotion(limits: Limits, a: MotorState, b: MotorState, frame: CanFrame, temperature: real)
    requires SameMotion(a, b) && (CommTypeOf(frame) != READ_PARAM ==> a == b)
    ensures Response(limits, a, frame, temperature) == Response(limits, b, frame, temperature)
  {
    hide CommTypeOf, IndexOf, FeedbackFrame, ParamResponseFrame, FeedbackOf;
  }

  /** From states that differ only in update times, one event queues the same response and keeps them alike. */
  lemma AppliedKeepsMotions(limits: Limits, a: StubState, b: StubState, e: Event) returns (tail: seq<CanFrame>)
    requires SameMotions(a, b)
    ensures Applied(limits, a, e).responses == a.responses + tail
    ensures Applied(limits, b, e).responses == b.responses + tail
    ensures SameMotions(Applied(limits, a, e), Applied(limits, b, e))
  {
    hide Effect, Response, Supported, TargetOf, CommTypeOf, SameMotion;
    tail := [];
    match e.action
    case Command(frame) =>
      if Supported(frame) {
        var id := TargetOf(frame);
        var p, q := Effect(limits, MotorOf(a, id), frame, e.time), Effect(limits, MotorOf(b, id), frame, e.time);
        assert SameMotion(MotorOf(a, id), MotorOf(b, id));
        EffectOfSameMotion(limits, MotorOf(a, id), MotorOf(b, id), frame, e.time);
        ResponseOfSameMotion(limits, p, q, frame, a.temperature);
        tail := [Response(limits, p, frame, a.temperature)];
        StoredMotions(a, b, id, p, q, a.responses + tail, b.responses + tail);
      }
    case InjectFault(motor, bits) =>
      assert SameMotion(MotorOf(a, motor), MotorOf(b, motor));
      FaultKeepsMotion(MotorOf(a, motor), MotorOf(b, motor), bits);
      StoredMotions(a, b, motor, MotorOf(a, motor).(faultBits := bits),
        MotorOf(b, motor).(faultBits := bits), a.responses, b.responses);
    case SetTemperature(value) =>
      forall id: u8
        ensures SameMotion(MotorOf(a.(temperature := value), id), MotorOf(b.(temperature := value), id))
      {
        assert SameMotion(MotorOf(a, id), MotorOf(b, id));
      }
  }

  lemma StoredMotions(
      a: StubState, b: StubState, id: u8, p: MotorState, q: MotorState, rs: seq<CanFrame>, ss: seq<CanFrame>)
    requires SameMotions(a, b) && SameMotion(p, q)
    ensures SameMotions(
      a.(motors := a.motors[id := p], responses := rs), b.(motors := b.motors[id := q], responses := ss))
  {
    hide SameMotion;
    var x, y := a.(motors := a.motors[id := p], responses := rs), b.(motors := b.motors[id := q], responses := ss);
    forall i: u8
      ensures SameMotion(MotorOf(x, i), MotorOf(y, i))
    {
      assert SameMotion(MotorOf(a, i), MotorOf(b, i));
    }
  }

  lemma FaultKeepsMotion(a: MotorState, b: MotorState, bits: u8)
    requires SameMotion(a, b)
    ensures SameMotion(a.(faultBits := bits), b.(faultBits := bits))
  {
    hide Times, FloatValue;
    forall t: real
      ensures PositionAt(a.(faultBits := bits), t) == PositionAt(b.(faultBits := bits), t)
    {
      assert PositionAt(a, t) == PositionAt(b, t);
    }
  }

  lemma {:induction false} RunsKeepMotions(limits: Limits, a: StubState, b: StubState, events: seq<Event>)
    returns (tail: seq<CanFrame>)
    requires SameMotions(a, b)
    ensures Run(limits, a, events).responses == a.responses + tail
    ensures Run(limits, b, events).responses == b.responses + tail
    ensures SameMotions(Run(limits, a, events), Run(limits, b, events))
    decreases |events|
  {
    hide Applied, SameMotions;
    if events == [] {
      tail := [];
    } else {
      var early := RunsKeepMotions(limits, a, b, Init(events));
      var late := AppliedKeepsMotions(limits, Run(limits, a, Init(events)), Run(limits, b, Init(events)), Last(events));
      tail := early + late;
    }
  }

  lemma {:induction false} RunConcat(limits: Limits, st: StubState, p: seq<Event>, q: seq<Event>)
    ensures Run(limits, st, p + q) == Run(limits, Run(limits, st, p), q)
    decreases |q|
  {
    hide Applied;
    if q == [] {
      assert p + q == p;
    } else {
      assert Init(p + q) == p + Init(q);
      RunConcat(limits, st, p, Init(q));
    }
  }

  lemma ObserverKeepsMotions(limits: Limits, events: seq<Event>, e: Event)
    requires Observes(e)
    ensures
      var st := Run(limits, NEW_STUB, events);
      SameMotions(st, Applied(limits, st, e))
  {
    hide Run, Applied, SameMotion, CommTypeOf;
    var st := Run(limits, NEW_STUB, events);
    var next := Applied(limits, st, e);
    forall id: u8
      ensures SameMotion(MotorOf(st, id), MotorOf(next, id))
    {
      ObserverKeepsMotion(limits, events, e, id);
    }
    ObserverKeepsTemperature(limits, st, e);
  }

  lemma ObserverKeepsTemperature(limits: Limits, st: StubState, e: Event)
    requires e.action.Command?
    ensures Applied(limits, st, e).temperature == st.temperature
  {
    hide Effect, Response, Supported, TargetOf;
  }

  lemma ObserverKeepsMotion(limits: Limits, events: seq<Event>, e: Event, id: u8)
    requires Observes(e)
    ensures
      var st := Run(limits, NEW_STUB, events);
      SameMotion(MotorOf(st, id), MotorOf(Applied(limits, st, e), id))
  {
    var st := Run(limits, NEW_STUB, events);
    HistoryDeterminesRegisters(limits, events, id);
    hide Run, Applied, Advanced, PositionAt, CommTypeOf, TargetOf, EnabledBy, LastWritten, FloatValue;
    var s := MotorOf(st, id);
    if Commands(e, id) {
      CommandedMotor(limits, st, e, id);
      AdvancedKeepsMotion(s, e.time);
    } else {
      CommandFaults(limits, st, e, id);
    }
  }

  lemma CommandFaults(limits: Limits, st: StubState, e: Event, id: u8)
    requires e.action.Command? && !Commands(e, id)
    ensures MotorOf(Applied(limits, st, e), id) == MotorOf(st, id)
  {
    hide Effect, Response, Supported, TargetOf;
  }

  /**
    * Looking changes nothing: inserting a motion-control or read frame anywhere, at any time, adds
    * its own response and leaves every other response and every later motor position as it was.
    */
  lemma ObserversAreInvisible(limits: Limits, before: seq<Event>, e: Event, after: seq<Event>)
    returns (early: seq<CanFrame>, own: seq<CanFrame>, late: seq<CanFrame>)
    requires Observes(e)
    ensures Run(limits, NEW_STUB, before + after).responses == early + late
    ensures Run(limits, NEW_STUB, before + [e] + after).responses == early + own + late && |own| == 1
    ensures SameMotions(Run(limits, NEW_STUB, before + after), Run(limits, NEW_STUB, before + [e] + after))
  {
    var st := Run(limits, NEW_STUB, before);
    var looked := Applied(limits, st, e);
    early := st.responses;
    assert Supported(e.action.frame);
    CommandedMotor(limits, st, e, TargetOf(e.action.frame));
    own := looked.responses[|early|..];
    ObserverKeepsMotions(limits, before, e);
    RunConcat(limits, NEW_STUB, before, after);
    RunConcat(limits, NEW_STUB, before, [e]);
    RunConcat(limits, NEW_STUB, before + [e], after);
    assert Init([e]) == [] && Last([e]) == e;
    assert Run(limits, st, [e]) == looked;
    hide Run, Applied, SameMotions, Effect, Response;
    late := RunsKeepMotions(limits, st, looked, after);
  }

  // -------------------------------------------------------------- CSP targets

  /** The position sent in a feedback frame is never clamped. */
  lemma FeedbackNeverClamps(limits: Limits, id: u8, host: u8, s: MotorState, temperature: real)
    ensures
      var fb := FeedbackOf(limits, id, host, s, temperature);
      Clamp(fb.position, -limits.position, limits.position) == fb.position
  {
    RemainderBound(s.position, 2.0 * limits.position);
  }

  /** The position a host decodes from the feedback of a motor. */
  lemma DecodedPosition(limits: Limits, id: u8, host: u8, s: MotorState, temperature: real)
    ensures
      var fb := ParseFeedback(FeedbackFrame(FeedbackOf(limits, id, host, s, temperature), limits), limits);
      && fb.Some?
      && fb.value.position == Reported(s.position, limits.position)
  {
    ParseEncodedFeedback(FeedbackOf(limits, id, host, s, temperature), limits);
    hide FeedbackFrame, ParseFeedback, Quantised, Remainder;
  }

  /** The reported velocity is the clamped speed, though the position integrates the unclamped one. */
  lemma {:induction false} ReportedSpeedIsClamped(
      limits: Limits, id: u8, host: u8, s: MotorState, temperature: real, dt: real)
    requires s.hasLastUpdate
    ensures
      var fb := ParseFeedback(FeedbackFrame(FeedbackOf(limits, id, host, s, temperature), limits), limits);
      && fb.Some?
      && -limits.velocity / 65535.0 < fb.value.velocity - Clamp(Speed(s), -limits.velocity, limits.velocity)
          <= limits.velocity / 65535.0
    ensures PositionAt(s, s.lastUpdate + dt) == s.position + Times(Speed(s), dt)
  {
    hide FeedbackFrame, ParseFeedback, PositionAt, Speed, Clamp, Times, Remainder, Quantised, TenthsCode;
    ParseEncodedFeedback(FeedbackOf(limits, id, host, s, temperature), limits);
    QuantisedError(Speed(s), limits.velocity);
    PositionAtLastUpdate(s);
    PositionAtIsLinear(s, s.lastUpdate, s.lastUpdate + dt);
    assert s.lastUpdate + dt - s.lastUpdate == dt;
  }

  /** A command that motor `id` answers with a feedback frame. */
  predicate Samples(e: Event, id: u8) {
    Commands(e, id) && CommTypeOf(e.action.frame) != READ_PARAM
  }

  /** The temperature in force after a history. */
  function TemperatureBy(events: seq<Event>): real {
    if events == [] then DEFAULT_TEMPERATURE
    else if Last(events).action.SetTemperature? then Last(events).action.value
    else TemperatureBy(Init(events))
  }

  lemma {:induction false} HistoryDeterminesTemperature(limits: Limits, events: seq<Event>)
    ensures Run(limits, NEW_STUB, events).temperature == TemperatureBy(events)
  {
    if events != [] {
      hide Effect, Response, Supported, TargetOf;
      HistoryDeterminesTemperature(limits, Init(events));
    }
  }

  /**
    * What a host decodes from the feedback to any command, in terms of the history alone: who
    * answered whom, running or not, the faults in force, and the quantised position, commanded
    * speed and temperature.
    */
  lemma {:induction false} FeedbackTellsHistory(limits: Limits, events: seq<Event>, id: u8)
    requires events != [] && Samples(Last(events), id)
    ensures
      var st := Run(limits, NEW_STUB, events);
      var frame := Last(events).action.frame;
      && st.responses != []
      && ParseFeedback(Last(st.responses), limits) == Some(Feedback(
           id, HostOf(frame), if EnabledBy(events, id) then 2 else 0, FaultsBy(events, id) % 0x40,
           Reported(MotorOf(st, id).position, limits.position), Quantised(SpeedBy(events, id), limits.velocity),
           Quantised(0.0, limits.torque), TenthsCode(TemperatureBy(events)) as real * 0.1))
  {
    hide Run, Applied, Effect, FeedbackFrame, FeedbackOf, ParamResponseFrame, ParseFeedback, SpeedBy, EnabledBy,
      FaultsBy, LastWritten,
      Quantised, TenthsCode, Supported, TargetOf, HostOf, CommTypeOf, Speed, ModeBy, Reported;
    var before, e := Run(limits, NEW_STUB, Init(events)), Last(events);
    var s := MotorOf(Run(limits, NEW_STUB, events), id);
    RunSplit(limits, NEW_STUB, events);
    CommandedMotor(limits, before, e, id);
    HistoryDeterminesRegisters(limits, events, id);
    HistoryDeterminesTemperature(limits, Init(events));
    SpeedIsSpeedBy(s, events, id);
    SnocParts(before.responses, Response(limits, s, e.action.frame, before.temperature));
    FeedbackTellsState(limits, id, HostOf(e.action.frame), s, before.temperature);
  }

  lemma FeedbackTellsState(limits: Limits, id: u8, host: u8, s: MotorState, temperature: real)
    ensures ParseFeedback(FeedbackFrame(FeedbackOf(limits, id, host, s, temperature), limits), limits) == Some(Feedback(
      id, host, if s.enabled then 2 else 0, s.faultBits % 0x40,
      Reported(s.position, limits.position), Quantised(Speed(s), limits.velocity),
      Quantised(0.0, limits.torque), TenthsCode(temperature) as real * 0.1))
  {
    hide FeedbackFrame, ParseFeedback, Quantised, TenthsCode, Speed, Remainder;
    ParseEncodedFeedback(FeedbackOf(limits, id, host, s, temperature), limits);
  }

  lemma ReportedIsNear(p: real, limit: real)
    requires limit > 0.0
    ensures
      var error := Reported(p, limit) + Times(Turns(p, 2.0 * limit) as real, 2.0 * limit) - p;
      -limit / 65535.0 < error <= limit / 65535.0
  {
    RemainderBound(p, 2.0 * limit);
    QuantisedError(Remainder(p, 2.0 * limit), limit);
    hide Quantised, Turns, Times;
  }

  /**
    * Writing loc_ref to an enabled motor in CSP mode moves it by at most half the span, to a value
    * congruent to loc_ref, and the feedback decodes to within half a code step of one.
    */
  lemma {:induction false} CspReachesTarget(
      limits: Limits, s: MotorState, frame: CanFrame, now: real, temperature: real)
    returns (turns: int, shown: int)
    requires s.enabled && s.runMode == 5
    requires CommTypeOf(frame) == WRITE_PARAM && IndexOf(frame) == LOC_REF
    ensures
      var target := FloatValue(ValueOf(frame));
      var after := Effect(limits, s, frame, now);
      var fb := ParseFeedback(Response(limits, after, frame, temperature), limits);
      && -limits.position <= after.position - s.position <= limits.position
      && after.position == target - Times(turns as real, 2.0 * limits.position)
      && fb.Some?
      && -limits.position / 65535.0 < fb.value.position - (target - Times(shown as real, 2.0 * limits.position))
          <= limits.position / 65535.0
  {
    hide Reported, Turns, Times, FloatValue, ParseFeedback, FeedbackFrame, Effect, CommTypeOf, IndexOf, ValueOf,
      TargetOf, HostOf, FeedbackOf;
    var span := 2.0 * limits.position;
    var target := FloatValue(ValueOf(frame));
    var after := Effect(limits, s, frame, now);
    EffectOfCspTarget(limits, s, frame, now);
    turns := Turns(target - s.position, span);
    RemainderBound(target - s.position, span);
    DecodedPosition(limits, TargetOf(frame), HostOf(frame), after, temperature);
    ReportedIsNear(after.position, limits.position);
    shown := turns + Turns(after.position, span);
    Distribute(turns as real, Turns(after.position, span) as real, span);
    assert shown as real == turns as real + Turns(after.position, span) as real;
  }

  lemma EffectOfCspTarget(limits: Limits, s: MotorState, frame: CanFrame, now: real)
    requires s.enabled && s.runMode == POSITION_CSP_MODE
    requires CommTypeOf(frame) == WRITE_PARAM && IndexOf(frame) == LOC_REF
    ensures Effect(limits, s, frame, now).position == CspTarget(limits, s.position, FloatValue(ValueOf(frame)))
  {
    hide FloatValue, CommTypeOf, IndexOf, ValueOf, CspTarget;
  }

  // ------------------------------------------------------ end-to-end tracking

  /** The true positions of a motor at the moments it sends feedback. */
  function SampledPositions(limits: Limits, events: seq<Event>, id: u8): seq<real> {
    if events == [] then []
    else SampledPositions(limits, Init(events), id) +
         if Samples(Last(events), id) then [MotorOf(Run(limits, NEW_STUB, events), id).position] else []
  }

  /** The positions a host decodes from the feedback frames of a motor. */
  function DecodedPositions(limits: Limits, frames: seq<CanFrame>, id: u8): seq<real> {
    if frames == [] then []
    else
      var fb := ParseFeedback(Last(frames), limits);
      DecodedPositions(limits, Init(frames), id) +
      if SourceOf(Last(frames)) == id && fb.Some? then [fb.value.position] else []
  }

  lemma {:induction false} ReportsSnoc(ps: seq<real>, p: real, limit: real)
    requires limit > 0.0
    ensures Reports(ps + [p], limit) == Reports(ps, limit) + [Reported(p, limit)]
  {
    hide Reported;
    if ps == [] {
      assert [p][1..] == [];
      assert ps + [p] == [p];
      assert Reports([p], limit) == [Reported(p, limit)];
    } else {
      assert (ps + [p])[1..] == ps[1..] + [p];
      ReportsSnoc(ps[1..], p, limit);
    }
  }

  lemma SentDecodes(limits: Limits, st: StubState, e: Event, id: u8)
    requires e.action.Command?
    ensures
      var next := Applied(limits, st, e);
      DecodedPositions(limits, next.responses, id) == DecodedPositions(limits, st.responses, id) +
        if Samples(e, id) then [Reported(MotorOf(next, id).position, limits.position)] else []
  {
    var frame := e.action.frame;
    if Supported(frame) {
      var target := TargetOf(frame);
      CommandedMotor(limits, st, e, target);
      var s := Effect(limits, MotorOf(st, target), frame, e.time);
      var reply := Response(limits, s, frame, st.temperature);
      ResponseFacts(limits, s, frame, st.temperature);
      DecodedPosition(limits, target, HostOf(frame), s, st.temperature);
      SnocParts(st.responses, reply);
      hide Applied, Effect, ParseFeedback, FeedbackFrame, FeedbackOf, ParamResponseFrame, Reported, SourceOf,
        TargetOf, Full, Supported, CommTypeOf;
      assert CommTypeOf(frame) == READ_PARAM ==> ParseFeedback(reply, limits).None? by {
        OnlyFeedbackParses(reply, limits);
      }
    }
  }

  lemma OnlyFeedbackParses(frame: CanFrame, limits: Limits)
    ensures CommTypeOf(frame) != FEEDBACK ==> ParseFeedback(frame, limits) == None
  {
  }

  /** What the host decodes is, sample for sample, the report of the true position. */
  lemma {:induction false} HostSeesReports(limits: Limits, events: seq<Event>, id: u8)
    ensures DecodedPositions(limits, Run(limits, NEW_STUB, events).responses, id)
            == Reports(SampledPositions(limits, events, id), limits.position)
  {
    if events != [] {
      var e := Last(events);
      var st := Run(limits, NEW_STUB, Init(events));
      HostSeesReports(limits, Init(events), id);
      RunSplit(limits, NEW_STUB, events);
      if e.action.Command? {
        SentDecodes(limits, st, e, id);
      } else {
        assert Applied(limits, st, e).responses == st.responses;
      }
      hide Applied, Run, Reported, DecodedPositions, Commands;
      if Samples(e, id) {
        ReportsSnoc(SampledPositions(limits, Init(events), id), MotorOf(Run(limits, NEW_STUB, events),
            id).position, limits.position);
      } else {
        assert SampledPositions(limits, events, id) == SampledPositions(limits, Init(events), id);
      }
    }
  }

  /**
    * End to end: unwrapping what the host decodes follows the true positions of a motor at its
    * feedback frames without drift, for ever, if and only if no two successive ones are more than
    * 32767 codes apart.
    */
  lemma {:induction false} StubIsTracked(limits: Limits, events: seq<Event>, id: u8)
    requires SampledPositions(limits, events, id) != []
    ensures
      var ps := SampledPositions(limits, events, id);
      var heard := DecodedPositions(limits, Run(limits, NEW_STUB, events).responses, id);
      Tracks(Outputs(Fresh(2.0 * limits.position), heard), ps, -Turns(ps[0], 2.0 * limits.position), limits.position)
      <==> CloseCodes(ps, limits.position)
  {
    hide *;
    HostSeesReports(limits, events, id);
    TrackingIsExact(SampledPositions(limits, events, id), limits.position);
  }

  // ----------------------------------------------- the velocity-mode guarantee

  /** When motor `id` last answered with feedback. */
  function LastSample(events: seq<Event>, id: u8): Option<real> {
    if events == [] then None
    else if Samples(Last(events), id) then Some(Last(events).time)
    else LastSample(Init(events), id)
  }

  /**
    * From its first feedback on, the motor is sampled at least every `gap`, is commanded no faster
    * than `speed`, and is neither re-zeroed nor sent to a CSP target.
    */
  predicate Gentle(events: seq<Event>, id: u8, speed: real, gap: real) {
    forall i :: 0 <= i < |events| ==> GentleAt(events[..i], events[i], id, speed, gap)
  }

  predicate GentleAt(before: seq<Event>, e: Event, id: u8, speed: real, gap: real) {
    Samples(e, id) && LastSample(before, id).Some? ==>
      && !Jumps(before, e, id)
      && 0.0 <= e.time - LastSample(before, id).value <= gap
      && -speed <= SpeedBy(before, id) <= speed
  }

  lemma EffectTimes(limits: Limits, s: MotorState, frame: CanFrame, now: real)
    ensures CommTypeOf(frame) == READ_PARAM ==> Effect(limits, s, frame, now) == s
    ensures CommTypeOf(frame) != READ_PARAM ==>
              Effect(limits, s, frame, now).hasLastUpdate && Effect(limits, s, frame, now).lastUpdate == now
  {
    hide FloatValue, CommTypeOf, IndexOf, ValueOf, CspTarget, Speed, Moving;
  }

  /** The samples taken so far end with the current stored position and time. */
  lemma {:induction false} SampleBookkeeping(limits: Limits, events: seq<Event>, id: u8)
    ensures
      var s := MotorOf(Run(limits, NEW_STUB, events), id);
      var ps := SampledPositions(limits, events, id);
      && s.hasLastUpdate == LastSample(events, id).Some? == (ps != [])
      && (s.hasLastUpdate ==> LastSample(events, id) == Some(s.lastUpdate) && Last(ps) == s.position)
  {
    if events != [] {
      var e := Last(events);
      var st := Run(limits, NEW_STUB, Init(events));
      SampleBookkeeping(limits, Init(events), id);
      RunSplit(limits, NEW_STUB, events);
      hide Applied, Run, Effect, CommTypeOf, Supported;
      if Commands(e, id) {
        CommandedMotor(limits, st, e, id);
        EffectTimes(limits, MotorOf(st, id), e.action.frame, e.time);
      } else {
        OtherMotorsUntouched(limits, st, e, id);
      }
    }
  }

  lemma PositionAtLastUpdate(s: MotorState)
    requires s.hasLastUpdate
    ensures PositionAt(s, s.lastUpdate) == s.position
  {
    assert Times(Speed(s), 0.0) == 0.0;
    hide Times, FloatValue;
  }

  lemma TimesAbs(v: real, dt: real, speed: real, gap: real)
    requires -speed <= v <= speed && 0.0 <= dt <= gap
    ensures -Times(speed, gap) <= Times(v, dt) <= Times(speed, gap)
  {
    hide Times;
    Mono(v, speed, dt);
    Mono(-speed, v, dt);
    Mono(dt, gap, speed);
    Commute(speed, dt);
    Commute(speed, gap);
  }

  /** One gentle sample moves the motor by at most speed times gap. */
  lemma GentleStep(limits: Limits, events: seq<Event>, id: u8, speed: real, gap: real)
    requires events != [] && Samples(Last(events), id) && LastSample(Init(events), id).Some?
    requires GentleAt(Init(events), Last(events), id, speed, gap)
    ensures
      var before, after := MotorOf(Run(limits, NEW_STUB, Init(events)), id), MotorOf(Run(limits, NEW_STUB, events), id);
      -Times(speed, gap) <= after.position - before.position <= Times(speed, gap)
  {
    hide Run, PositionAt, SpeedBy, Jumps, EnabledBy, ModeBy, LastWritten, Times, Speed, SampledPositions,
      Commands, CommTypeOf;
    var e := Last(events);
    var s := MotorOf(Run(limits, NEW_STUB, Init(events)), id);
    HistoryDeterminesRegisters(limits, Init(events), id);
    SpeedIsSpeedBy(s, Init(events), id);
    SampleBookkeeping(limits, Init(events), id);
    SampleBookkeeping(limits, events, id);
    EventAtOwnTime(limits, events, id);
    PositionAtLastUpdate(s);
    PositionAtLastUpdate(MotorOf(Run(limits, NEW_STUB, events), id));
    PositionAtIsLinear(s, s.lastUpdate, e.time);
    TimesAbs(Speed(s), e.time - s.lastUpdate, speed, gap);
  }

  lemma SmallStepsSnoc(ps: seq<real>, p: real, limit: real)
    requires limit > 0.0 && SmallSteps(ps, limit)
    requires ps != [] ==> -Times(32767.0, Step(limit)) <= p - Last(ps) <= Times(32767.0, Step(limit))
    ensures SmallSteps(ps + [p], limit)
  {
    hide Times, Step;
  }

  lemma {:induction false} GentleRunsTakeSmallSteps(limits: Limits, events: seq<Event>, id: u8, speed: real, gap: real)
    requires Gentle(events, id, speed, gap)
    requires Times(speed, gap) <= Times(32767.0, Step(limits.position))
    ensures SmallSteps(SampledPositions(limits, events, id), limits.position)
  {
    hide Run, Times, Step, GentleAt, Samples;
    if events != [] {
      var init := Init(events);
      assert Gentle(init, id, speed, gap) by {
        assert forall i :: 0 <= i < |init| ==> init[..i] == events[..i] && init[i] == events[i];
      }
      GentleRunsTakeSmallSteps(limits, init, id, speed, gap);
      if Samples(Last(events), id) {
        assert events[..|events| - 1] == init;
        SampleBookkeeping(limits, init, id);
        if LastSample(init, id).Some? {
          GentleStep(limits, events, id, speed, gap);
        }
        SmallStepsSnoc(SampledPositions(limits, init, id), MotorOf(Run(limits, NEW_STUB, events), id).position,
            limits.position);
      }
    }
  }

  /** An RS02 at up to 44 rad/s, sampled at least every 280 ms, stays inside the bound. */
  lemma Rs02Bound()
    ensures GetLimits(RS02).Some?
    ensures Times(44.0, 0.28) <= Times(32767.0, Step(GetLimits(RS02).value.position))
  {
    LsbValue(4.0 * PI);
  }

  /**
    * The documented guarantee of the unwrapper on an RS02: any velocity-mode run within 44 rad/s,
    * sampled at least every 280 ms, is followed without drift from its feedback frames alone.
    */
  lemma {:induction false} Rs02VelocityIsTracked(events: seq<Event>, id: u8)
    requires Gentle(events, id, 44.0, 0.28) && LastSample(events, id).Some?
    ensures GetLimits(RS02).Some?
    ensures
      var limits := GetLimits(RS02).value;
      var ps := SampledPositions(limits, events, id);
      var heard := DecodedPositions(limits, Run(limits, NEW_STUB, events).responses, id);
      ps != [] && Tracks(Outputs(Fresh(2.0 * limits.position), heard), ps, -Turns(ps[0], 2.0 * limits.position),
          limits.position)
  {
    hide *;
    Rs02Bound();
    var limits := GetLimits(RS02).value;
    SampleBookkeeping(limits, events, id);
    GentleRunsTakeSmallSteps(limits, events, id, 44.0, 0.28);
    SmallStepsAreClose(SampledPositions(limits, events, id), limits.position);
    StubIsTracked(limits, events, id);
  }
}

/** Whole runs of the simulator: what a history of events says about each motor. */
module StubTrace {
  import opened Bytes
  import opened Can
  import Scaling
  import opened Protocol
  import opened Float32
  import opened Stub

  datatype Action = Command(frame: CanFrame) | InjectFault(motor: u8, bits: u8) | SetTemperature(value: real)

  datatype Event = Event(time: real, action: Action)

  function Applied(limits: Limits, st: StubState, e: Event): StubState {
    match e.action
    case Command(frame) => Sent(limits, st, frame, e.time)
    case InjectFault(motor, bits) => FaultInjected(st, motor, bits)
    case SetTemperature(value) => st.(temperature := value)
  }

  function Init<T>(s: seq<T>): seq<T>
    requires s != []
  {
    s[..|s| - 1]
  }

  function Last<T>(s: seq<T>): T
    requires s != []
  {
    s[|s| - 1]
  }

  /** The simulator after a history of events. */
  function Run(limits: Limits, st: StubState, events: seq<Event>): StubState {
    if events == [] then st else Applied(limits, Run(limits, st, Init(events)), Last(events))
  }

  /** A supported command to motor `id`. */
  predicate Commands(e: Event, id: u8) {
    e.action.Command? && TargetOf(e.action.frame) == id && Supported(e.action.frame)
  }

  lemma {:induction false} ResponseFacts(limits: Limits, s: MotorState, frame: CanFrame, temperature: real)
    requires Supported(frame)
    ensures
      var reply := Response(limits, s, frame, temperature);
      && Full(reply) && SourceOf(reply) == TargetOf(frame) && TargetOf(reply) == HostOf(frame)
      && CommTypeOf(reply) == if CommTypeOf(frame) == READ_PARAM then READ_PARAM else FEEDBACK
  {
    hide FeedbackFrame, FeedbackOf, ParamResponseFrame, ParseFeedback, ParseParamResponse, IndexOf, SourceOf,
      TargetOf, HostOf, CommTypeOf, Full;
    var index := IndexOf(frame);
    ParamResponseRoundTrip(
      TargetOf(frame), HostOf(frame), index, if index == RUN_MODE then ByteWord(s.runMode)
          else ParamOrZero(s.params, index));
    ParseEncodedFeedback(FeedbackOf(limits, TargetOf(frame), HostOf(frame), s, temperature), limits);
    FeedbackOfId(limits, TargetOf(frame), HostOf(frame), s, temperature);
    ReplyTarget(limits, s, frame, temperature);
  }

  lemma ReplyTarget(limits: Limits, s: MotorState, frame: CanFrame, temperature: real)
    ensures TargetOf(Response(limits, s, frame, temperature)) == HostOf(frame)
  {
    var fb := FeedbackOf(limits, TargetOf(frame), HostOf(frame), s, temperature);
    IdFields(READ_PARAM, TargetOf(frame), HostOf(frame));
    IdFields(FEEDBACK, FeedbackArea(fb.mode, fb.fault, fb.motorId), fb.hostId);
    hide MakeId, FeedbackArea, BigEndianPayload, IndexPayload, CommTypeOf, IndexOf;
  }

  lemma FeedbackOfId(limits: Limits, id: u8, host: u8, s: MotorState, temperature: real)
    ensures FeedbackOf(limits, id, host, s, temperature).motorId == id
  {
  }

  /** Exactly six types of command are answered; any other changes nothing and gets no response. */
  lemma {:induction false} OnlySixTypesAreAnswered(limits: Limits, st: StubState, frame: CanFrame, now: real)
    ensures Sent(limits, st, frame, now) != st <==> CommTypeOf(frame) in {0x01, 0x03, 0x04, 0x06, 0x11, 0x12}
  {
    hide Effect, Response, TargetOf, CommTypeOf;
    if Supported(frame) {
      assert |Sent(limits, st, frame, now).responses| == |st.responses| + 1;
    }
  }

  // --------------------------------------------------------- non-interference

  predicate Concerns(e: Event, id: u8) {
    match e.action
    case Command(frame) => TargetOf(frame) == id
    case InjectFault(motor, _) => motor == id
    case SetTemperature(_) => true
  }

  /** The history with every command and fault for other motors deleted. */
  function OnlyFor(events: seq<Event>, id: u8): seq<Event> {
    if events == [] then []
    else OnlyFor(Init(events), id) + if Concerns(Last(events), id) then [Last(events)] else []
  }

  function FromMotor(frames: seq<CanFrame>, id: u8): seq<CanFrame> {
    if frames == [] then []
    else FromMotor(Init(frames), id) + if SourceOf(Last(frames)) == id then [Last(frames)] else []
  }

  /** What motor `id` and its host can see of a simulator. */
  predicate SameView(a: StubState, b: StubState, id: u8) {
    && MotorOf(a, id) == MotorOf(b, id)
    && FromMotor(a.responses, id) == FromMotor(b.responses, id)
    && a.temperature == b.temperature
  }

  lemma SnocParts<T>(s: seq<T>, x: T)
    ensures Init(s + [x]) == s && Last(s + [x]) == x
  {
  }

  lemma AppliedKeepsView(limits: Limits, a: StubState, b: StubState, e: Event, id: u8)
    requires SameView(a, b, id)
    ensures Concerns(e, id) ==> SameView(Applied(limits, a, e), Applied(limits, b, e), id)
    ensures !Concerns(e, id) ==> SameView(Applied(limits, a, e), b, id)
  {
    hide Effect, Response, SourceOf, TargetOf, CommTypeOf, Full, Supported;
    if e.action.Command? && Supported(e.action.frame) {
      var frame := e.action.frame;
      var target := TargetOf(frame);
      var s := Effect(limits, MotorOf(a, target), frame, e.time);
      var reply := Response(limits, s, frame, a.temperature);
      ResponseFacts(limits, s, frame, a.temperature);
      SnocParts(a.responses, reply);
      SnocParts(b.responses, reply);
      assert Sent(limits, a, frame, e.time).responses == a.responses + [reply];
      assert FromMotor(a.responses + [reply], id) == FromMotor(a.responses, id) + if target == id then [reply] else [];
    }
  }

  /**
    * Motors do not interfere: the state of motor `id` and its queued responses are those of the
    * history from which everything addressed to other motors has been deleted.
    */
  lemma {:induction false} NonInterference(limits: Limits, st: StubState, events: seq<Event>, id: u8)
    ensures SameView(Run(limits, st, events), Run(limits, st, OnlyFor(events, id)), id)
  {
    if events != [] {
      var before, after := Run(limits, st, Init(events)), Run(limits, st, OnlyFor(Init(events), id));
      NonInterference(limits, st, Init(events), id);
      AppliedKeepsView(limits, before, after, Last(events), id);
      hide Applied, SameView, Concerns;
      if Concerns(Last(events), id) {
        SnocParts(OnlyFor(Init(events), id), Last(events));
      } else {
        assert OnlyFor(events, id) == OnlyFor(Init(events), id);
      }
    }
  }

  // ------------------------------------- the history determines the registers

  predicate Writes(e: Event, id: u8, index: u16) {
    Commands(e, id) && CommTypeOf(e.action.frame) == WRITE_PARAM && IndexOf(e.action.frame) == index
  }

  /** The word last written to a register, or zero. */
  function LastWritten(events: seq<Event>, id: u8, index: u16): Word {
    if events == [] then ZERO_WORD
    else if Writes(Last(events), id, index) then ValueOf(Last(events).action.frame)
    else LastWritten(Init(events), id, index)
  }

  /** Whether the last enable or stop command was an enable. */
  predicate EnabledBy(events: seq<Event>, id: u8) {
    events != [] &&
    if Commands(Last(events), id) && CommTypeOf(Last(events).action.frame) == ENABLE then true
    else if Commands(Last(events), id) && CommTypeOf(Last(events).action.frame) == STOP then false
    else EnabledBy(Init(events), id)
  }

  function ModeBy(events: seq<Event>, id: u8): u8 {
    LastWritten(events, id, RUN_MODE)[0]
  }

  /** The fault bits last injected, unless a stop with clearing came after. */
  function FaultsBy(events: seq<Event>, id: u8): u8 {
    if events == [] then 0 else FaultsAfter(Last(events), id, FaultsBy(Init(events), id))
  }

  function FaultsAfter(e: Event, id: u8, bits: u8): u8 {
    if e.action.InjectFault? && e.action.motor == id then e.action.bits
    else if Commands(e, id) && CommTypeOf(e.action.frame) == STOP && e.action.frame.data[0] == 1 then 0
    else bits
  }

  /** A motor state agrees with the history on every register, the mode, the enablement and the faults. */
  predicate Holds(s: MotorState, events: seq<Event>, id: u8) {
    && s.enabled == EnabledBy(events, id)
    && s.runMode == ModeBy(events, id)
    && s.faultBits == FaultsBy(events, id)
    && (forall index: u16 :: index != RUN_MODE ==> ParamOrZero(s.params, index) == LastWritten(events, id, index))
    && (s.enabled ==> s.hasLastUpdate)
  }

  lemma OtherMotorsUntouched(limits: Limits, st: StubState, e: Event, id: u8)
    requires !Commands(e, id)
    ensures
      var a, b := MotorOf(st, id), MotorOf(Applied(limits, st, e), id);
      b == a.(faultBits := FaultsAfter(e, id, a.faultBits))
  {
    hide Effect, Response, TargetOf, Supported;
  }

  lemma CommandedMotor(limits: Limits, st: StubState, e: Event, id: u8)
    requires Commands(e, id)
    ensures
      var next := Applied(limits, st, e);
      var s := Effect(limits, MotorOf(st, id), e.action.frame, e.time);
      && MotorOf(next, id) == s
      && next.responses == st.responses + [Response(limits, s, e.action.frame, st.temperature)]
      && next.temperature == st.temperature
  {
    hide Effect, Response, Supported, TargetOf;
  }

  lemma EffectOnRegisters(limits: Limits, s: MotorState, frame: CanFrame, now: real)
    requires Supported(frame)
    ensures
      var r := Effect(limits, s, frame, now);
      && r.enabled == (if CommTypeOf(frame) == ENABLE then true else if CommTypeOf(frame) == STOP then false
          else s.enabled)
      && r.runMode == (if CommTypeOf(frame) == WRITE_PARAM && IndexOf(frame) == RUN_MODE
          then ValueOf(frame)[0] else s.runMode)
      && r.params == (if CommTypeOf(frame) == WRITE_PARAM && IndexOf(frame) != RUN_MODE
                      then s.params[IndexOf(frame) := ValueOf(frame)] else s.params)
      && r.faultBits == (if CommTypeOf(frame) == STOP && frame.data[0] == 1 then 0 else s.faultBits)
      && r.hasLastUpdate == (s.hasLastUpdate || CommTypeOf(frame) != READ_PARAM)
  {
    hide CspTarget, IndexOf, ValueOf, FloatValue, Speed, Moving, CommTypeOf;
  }

  lemma HoldsAfter(limits: Limits, s: MotorState, events: seq<Event>, id: u8)
    requires events != [] && Holds(s, Init(events), id)
    ensures Commands(Last(events), id) ==>
              Holds(Effect(limits, s, Last(events).action.frame, Last(events).time), events, id)
    ensures !Commands(Last(events), id) ==>
        Holds(s.(faultBits := FaultsAfter(Last(events), id, s.faultBits)), events, id)
  {
    hide Effect, CommTypeOf, IndexOf, ValueOf, Supported, TargetOf;
    var e := Last(events);
    if Commands(e, id) {
      EffectOnRegisters(limits, s, e.action.frame, e.time);
      var r := Effect(limits, s, e.action.frame, e.time);
      forall index: u16 | index != RUN_MODE
        ensures ParamOrZero(r.params, index) == LastWritten(events, id, index)
      {
        assert ParamOrZero(s.params, index) == LastWritten(Init(events), id, index);
      }
    }
  }

  /** Every register and flag of every motor is what the history says, in every reachable state. */
  lemma {:induction false} HistoryDeterminesRegisters(limits: Limits, events: seq<Event>, id: u8)
    ensures Holds(MotorOf(Run(limits, NEW_STUB, events), id), events, id)
  {
    if events == [] {
    } else {
      hide Applied, Effect, Commands, Run, Holds;
      var st, e := Run(limits, NEW_STUB, Init(events)), Last(events);
      HistoryDeterminesRegisters(limits, Init(events), id);
      RunSplit(limits, NEW_STUB, events);
      HoldsAfter(limits, MotorOf(st, id), events, id);
      if Commands(e, id) {
        CommandedMotor(limits, st, e, id);
      } else {
        OtherMotorsUntouched(limits, st, e, id);
      }
    }
  }

  lemma {:induction false} NeverWritten(events: seq<Event>, id: u8, index: u16)
    requires forall i :: 0 <= i < |events| ==> !Writes(events[i], id, index)
    ensures LastWritten(events, id, index) == ZERO_WORD
    decreases |events|
  {
    hide Writes;
    if events != [] {
      NeverWritten(Init(events), id, index);
    }
  }

  /** In every reachable state a parameter that no command has written has the value zero. */
  lemma {:induction false} UnwrittenParameterIsZero(limits: Limits, events: seq<Event>, id: u8, index: u16)
    requires index != RUN_MODE && forall i :: 0 <= i < |events| ==> !Writes(events[i], id, index)
    ensures FloatValue(ParamOrZero(MotorOf(Run(limits, NEW_STUB, events), id).params, index)) == 0.0
  {
    HistoryDeterminesRegisters(limits, events, id);
    NeverWritten(events, id, index);
    ZeroWordIsZero();
    hide Run, FloatValue, Writes;
  }

  /** A motor that no command and no fault has reached is disabled, at position zero, in mode 0, without faults. */
  lemma {:induction false} UntouchedMotor(limits: Limits, events: seq<Event>, id: u8)
    requires forall i :: 0 <= i < |events| ==> !Concerns(events[i], id) || events[i].action.SetTemperature?
    ensures
      var s := MotorOf(Run(limits, NEW_STUB, events), id);
      && !s.enabled && s.runMode == 0 && s.position == 0.0 && s.faultBits == 0
      && forall index: u16 :: FloatValue(ParamOrZero(s.params, index)) == 0.0
    decreases |events|
  {
    hide FloatValue, TargetOf;
    if events == [] {
      ZeroWordIsZero();
    } else {
      var e := Last(events);
      UntouchedMotor(limits, Init(events), id);
      RunSplit(limits, NEW_STUB, events);
      assert !Concerns(e, id) || e.action.SetTemperature?;
      hide Applied, Run, Effect;
      OtherMotorsUntouched(limits, Run(limits, NEW_STUB, Init(events)), e, id);
    }
  }

  /** A new simulator reports 30 degrees. */
  lemma NewSimulatorIsWarm(limits: Limits, frame: CanFrame, now: real)
    requires Supported(frame) && CommTypeOf(frame) != READ_PARAM
    ensures
      var responses := Sent(limits, NEW_STUB, frame, now).responses;
      && |responses| == 1 && ParseFeedback(responses[0], limits).Some?
      && ParseFeedback(responses[0], limits).value.temperature == 30.0
  {
    hide Effect, FeedbackFrame, ParseFeedback, Quantised, Supported, TargetOf, CommTypeOf;
    var s := Effect(limits, MotorOf(NEW_STUB, TargetOf(frame)), frame, now);
    ParseEncodedFeedback(FeedbackOf(limits, TargetOf(frame), HostOf(frame), s, 30.0), limits);
    assert TenthsCode(30.0) == 300;
  }

  lemma RunSplit(limits: Limits, st: StubState, events: seq<Event>)
    requires events != []
    ensures Run(limits, st, events) == Applied(limits, Run(limits, st, Init(events)), Last(events))
  {
  }

  /**
    * The simulator as a register file: reading (motor, index) after any history returns the word
    * last written there or zero, except that run_mode keeps only its first byte.
    */
  lemma {:induction false} ReadReturnsLastWritten(
      limits: Limits, events: seq<Event>, motor: u8, host: u8, index: u16, now: real)
    ensures
      var before := Run(limits, NEW_STUB, events);
      var after := Sent(limits, before, ReadParamFrame(motor, host, index), now);
      var word := LastWritten(events, motor, index);
      && |after.responses| == |before.responses| + 1
      && ParseParamResponse(after.responses[|before.responses|])
         == Some(ParamResponse(motor, index, if index == RUN_MODE then ByteWord(word[0]) else word))
  {
    hide Run, IndexOf, TargetOf, HostOf, CommTypeOf, ReadParamFrame, ParamResponseFrame, ParseParamResponse,
      LastWritten, EnabledBy, Full, ValueOf;
    var before := Run(limits, NEW_STUB, events);
    var s := MotorOf(before, motor);
    HistoryDeterminesRegisters(limits, events, motor);
    ReadReply(limits, before, motor, host, index, now);
    ParamResponseRoundTrip(motor, host, index, if index == RUN_MODE then ByteWord(s.runMode)
        else ParamOrZero(s.params, index));
  }

  lemma ReadReply(limits: Limits, st: StubState, motor: u8, host: u8, index: u16, now: real)
    ensures
      var s := MotorOf(st, motor);
      Sent(limits, st, ReadParamFrame(motor, host, index), now) == st.(
        motors := st.motors[motor := s],
        responses := st.responses + [ParamResponseFrame(motor, host, index,
          if index == RUN_MODE then ByteWord(s.runMode) else ParamOrZero(s.params, index))])
  {
    IndexedCommandFields(READ_PARAM, motor, host, index, ZERO_WORD);
    hide IndexOf, TargetOf, HostOf, CommTypeOf, ParamResponseFrame, ValueOf, IndexPayload, MakeId;
  }

  /** A parameter write carries its register and word to the simulator unchanged. */
  lemma WriteReachesRegister(motor: u8, host: u8, index: u16, value: Word, now: real)
    ensures
      var e := Event(now, Command(WriteParamFrame(motor, host, index, value)));
      && (forall id: u8, i: u16 :: Writes(e, id, i) <==> id == motor && i == index)
      && ValueOf(e.action.frame) == value
  {
    IndexedCommandFields(WRITE_PARAM, motor, host, index, value);
    hide MakeId, IndexPayload, IndexOf, ValueOf, TargetOf, CommTypeOf, HostOf;
  }

  /**
    * The simulator addresses its answer to bits 15-8 of the command. In a motion-control frame
    * these are the low byte of the torque code, so that is the host the feedback names.
    */
  lemma {:induction false} MotionFeedbackNamesTorqueByte(
    limits: Limits, s: MotorState, motor: u8, torque: real, position: real, velocity: real, kp: real, kd: real,
        temperature: real)
    ensures
      var frame := MotionControlFrame(motor, torque, position, velocity, kp, kd, limits);
      var fb := ParseFeedback(Response(limits, s, frame, temperature), limits);
      && fb.Some? && fb.value.motorId == motor
      && fb.value.hostId == Scaling.FloatToUint(torque, -limits.torque, limits.torque) % 0x100
  {
    var frame := MotionControlFrame(motor, torque, position, velocity, kp, kd, limits);
    IdFields(MOTION_CONTROL, Scaling.FloatToUint(torque, -limits.torque, limits.torque), motor);
    ParseEncodedFeedback(FeedbackOf(limits, TargetOf(frame), HostOf(frame), s, temperature), limits);
    hide FeedbackFrame, ParseFeedback, MakeId, BigEndianPayload;
  }
}

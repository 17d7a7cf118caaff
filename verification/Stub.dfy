/** The in-process simulator: one state per motor id, a queue of responses, time as an input. */
module Stub {
  import opened Bytes
  import opened Can
  import opened RealFacts
  import opened Scaling
  import opened Protocol
  import opened Float32

  datatype MotorState = MotorState(
    enabled: bool, runMode: u8, position: real, faultBits: u8,
    params: map<u16, Word>, lastUpdate: real, hasLastUpdate: bool)

  const NEW_MOTOR := MotorState(false, 0, 0.0, 0, map[], 0.0, false)
  const DEFAULT_TEMPERATURE := 30.0

  datatype StubState = StubState(motors: map<u8, MotorState>, responses: seq<CanFrame>, temperature: real)

  const NEW_STUB := StubState(map[], [], DEFAULT_TEMPERATURE)

  function ParamOrZero(params: map<u16, Word>, index: u16): Word {
    if index in params then params[index] else ZERO_WORD
  }

  function MotorOf(st: StubState, id: u8): MotorState {
    if id in st.motors then st.motors[id] else NEW_MOTOR
  }

  predicate Moving(s: MotorState) {
    s.enabled && s.runMode == VELOCITY_MODE
  }

  function Speed(s: MotorState): real {
    if Moving(s) then FloatValue(ParamOrZero(s.params, SPD_REF)) else 0.0
  }

  function Advanced(s: MotorState, now: real): MotorState {
    var position :=
      if s.hasLastUpdate && Moving(s) then s.position + Times(Speed(s), now - s.lastUpdate) else s.position;
    s.(position := position, lastUpdate := now, hasLastUpdate := true)
  }

  predicate Supported(frame: CanFrame) {
    CommTypeOf(frame) in {ENABLE, STOP, SET_MECHANICAL_ZERO, MOTION_CONTROL, READ_PARAM, WRITE_PARAM}
  }

  function CspTarget(limits: Limits, position: real, target: real): real {
    position + Remainder(target - position, 2.0 * limits.position)
  }

  function Written(limits: Limits, s: MotorState, index: u16, value: Word): MotorState {
    if index == RUN_MODE then s.(runMode := value[0])
    else if index == LOC_REF && s.enabled && s.runMode == POSITION_CSP_MODE then
      s.(params := s.params[index := value], position := CspTarget(limits, s.position, FloatValue(value)))
    else s.(params := s.params[index := value])
  }

  /** What a supported command does to the motor it addresses. */
  function Effect(limits: Limits, s: MotorState, frame: CanFrame, now: real): MotorState {
    var kind := CommTypeOf(frame);
    if kind == READ_PARAM then s
    else
      var a := Advanced(s, now);
      if kind == ENABLE then a.(enabled := true)
      else if kind == STOP then a.(enabled := false, faultBits := if frame.data[0] == 1 then 0 else a.faultBits)
      else if kind == SET_MECHANICAL_ZERO then a.(position := 0.0)
      else if kind == WRITE_PARAM then Written(limits, a, IndexOf(frame), ValueOf(frame))
      else a
  }

  function FeedbackOf(limits: Limits, id: u8, host: u8, s: MotorState, temperature: real): Feedback {
    Feedback(id, host, if s.enabled then MODE_RUN else MODE_RESET, s.faultBits,
             Remainder(s.position, 2.0 * limits.position), Speed(s), 0.0, temperature)
  }

  /** The response to a supported command that leaves its motor in state `s`. */
  function Response(limits: Limits, s: MotorState, frame: CanFrame, temperature: real): CanFrame {
    if CommTypeOf(frame) == READ_PARAM then
      var index := IndexOf(frame);
      ParamResponseFrame(TargetOf(frame), HostOf(frame), index,
                         if index == RUN_MODE then ByteWord(s.runMode) else ParamOrZero(s.params, index))
    else FeedbackFrame(FeedbackOf(limits, TargetOf(frame), HostOf(frame), s, temperature), limits)
  }

  /** One command: unsupported types are ignored without an answer. */
  function Sent(limits: Limits, st: StubState, frame: CanFrame, now: real): StubState {
    if !Supported(frame) then st
    else
      var id := TargetOf(frame);
      var s := Effect(limits, MotorOf(st, id), frame, now);
      st.(motors := st.motors[id := s], responses := st.responses + [Response(limits, s, frame, st.temperature)])
  }

  function FaultInjected(st: StubState, id: u8, bits: u8): StubState {
    st.(motors := st.motors[id := MotorOf(st, id).(faultBits := bits)])
  }

  class StubCanInterface {
    const limits: Limits
    var motors: map<u8, MotorState>
    var responses: seq<CanFrame>
    var temperature: real

    ghost function State(): StubState
      reads this
    {
      StubState(motors, responses, temperature)
    }

    constructor (limits: Limits)
      ensures this.limits == limits && State() == NEW_STUB
    {
      this.limits := limits;
      motors := map[];
      responses := [];
      temperature := DEFAULT_TEMPERATURE;
    }

    /** Creates the state of a motor on first use. */
    method Motor(id: u8) returns (s: MotorState)
      modifies this`motors
      ensures s == MotorOf(old(State()), id) && motors == old(motors)[id := s]
    {
      if id !in motors {
        motors := motors[id := NEW_MOTOR];
      }
      s := motors[id];
    }

    /** Advances the motion of a motor, created on first use, up to `now`. */
    method Advance(id: u8, now: real)
      modifies this`motors
      ensures motors == old(motors)[id := Advanced(MotorOf(old(State()), id), now)]
    {
      var s := Motor(id);
      if s.hasLastUpdate && s.enabled && s.runMode == VELOCITY_MODE {
        var dt := now - s.lastUpdate;
        s := s.(position := s.position + Times(FloatValue(ParamOrZero(s.params, SPD_REF)), dt));
      }
      s := s.(lastUpdate := now);
      s := s.(hasLastUpdate := true);
      motors := motors[id := s];
    }

    method StoreParam(id: u8, index: u16, value: Word)
      requires id in motors
      modifies this`motors
      ensures motors == old(motors)[id := Written(limits, old(motors)[id], index, value)]
    {
      if index == RUN_MODE {
        motors := motors[id := motors[id].(runMode := value[0])];
      } else {
        motors := motors[id := motors[id].(params := motors[id].params[index := value])];
      }
      if index == LOC_REF && motors[id].enabled && motors[id].runMode == POSITION_CSP_MODE {
        var move := Remainder(FloatValue(value) - motors[id].position, 2.0 * limits.position);
        motors := motors[id := motors[id].(position := motors[id].position + move)];
      }
    }

    method QueueFeedback(id: u8, host: u8)
      requires id in motors
      modifies this`responses
      ensures responses == old(responses) + [FeedbackFrame(
        FeedbackOf(limits, id, host, motors[id], temperature), limits)]
    {
      var s := motors[id];
      var moving := s.enabled && s.runMode == VELOCITY_MODE;
      var feedback := Feedback(
        id, host, if s.enabled then MODE_RUN else MODE_RESET, s.faultBits,
        Remainder(s.position, 2.0 * limits.position),
        if moving then FloatValue(ParamOrZero(s.params, SPD_REF)) else 0.0,
        0.0, temperature);
      responses := responses + [FeedbackFrame(feedback, limits)];
    }

    method Send(frame: CanFrame, now: real)
      modifies this
      ensures State() == Sent(limits, old(State()), frame, now)
    {
      hide FeedbackFrame, ParamResponseFrame, Written, Advanced, FeedbackOf, TargetOf, HostOf, CommTypeOf,
        IndexOf, ValueOf, ByteWord;
      var id := TargetOf(frame);
      var host := HostOf(frame);
      var kind := CommTypeOf(frame);
      if kind == ENABLE {
        Advance(id, now);
        motors := motors[id := motors[id].(enabled := true)];
        QueueFeedback(id, host);
      } else if kind == STOP {
        Advance(id, now);
        motors := motors[id := motors[id].(enabled := false)];
        if frame.data[0] == 1 {
          motors := motors[id := motors[id].(faultBits := 0)];
        }
        QueueFeedback(id, host);
      } else if kind == SET_MECHANICAL_ZERO {
        Advance(id, now);
        motors := motors[id := motors[id].(position := 0.0)];
        QueueFeedback(id, host);
      } else if kind == MOTION_CONTROL {
        Advance(id, now);
        QueueFeedback(id, host);
      } else if kind == READ_PARAM {
        var index := IndexOf(frame);
        var s := Motor(id);
        if index == RUN_MODE {
          responses := responses + [ParamResponseFrame(id, host, index, ByteWord(s.runMode))];
        } else {
          responses := responses + [ParamResponseFrame(id, host, index, ParamOrZero(s.params, index))];
        }
      } else if kind == WRITE_PARAM {
        var index, value := IndexOf(frame), ValueOf(frame);
        Advance(id, now);
        StoreParam(id, index, value);
        QueueFeedback(id, host);
      }
    }

    method Receive() returns (frame: Option<CanFrame>)
      modifies this`responses
      ensures old(responses) == [] ==> frame == None && responses == []
      ensures old(responses) != [] ==> frame.Some? && old(responses) == [frame.value] + responses
    {
      if responses == [] {
        return None;
      }
      frame := Some(responses[0]);
      responses := responses[1..];
    }

    method SetFaultBits(id: u8, bits: u8)
      modifies this`motors
      ensures State() == FaultInjected(old(State()), id, bits)
    {
      var s := Motor(id);
      motors := motors[id := s.(faultBits := bits)];
    }

    method SetTemperature(value: real)
      modifies this`temperature
      ensures State() == old(State()).(temperature := value)
    {
      temperature := value;
    }
  }
}

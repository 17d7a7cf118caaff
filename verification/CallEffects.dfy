/** What the calls of the driver do to the simulated motor, and what their replies say about it. */
module CallEffects {
  import opened Bytes
  import opened Can
  import opened RealFacts
  import opened Scaling
  import opened Protocol
  import opened Float32
  import opened Tracking
  import opened Stub
  import opened StubTrace
  import opened StubMotion
  import opened Driver
  import opened Fleet

  /** The length of a whole number of turns. */
  function Spans(limits: Limits, turns: int): real {
    Times(turns as real, 2.0 * limits.position)
  }

  /** Moving from one position to another reached a CSP target: at most half the span away, congruent to it. */
  ghost predicate ReachesTarget(limits: Limits, from: real, to: real, target: real) {
    && -limits.position <= to - from <= limits.position
    && exists turns: int :: to == target - Spans(limits, turns)
  }

  /** The registers a call writes. */
  function WrittenBy(op: Op): set<u16> {
    match op
    case ConfigureVelocityMode(_, _) => {LIMIT_CUR, ACC_RAD}
    case SendVelocityCommand(_) => {SPD_REF}
    case SendPositionCspCommand(_, _) => {LIMIT_SPD, LOC_REF}
    case WriteParamFloat(index, _) => {index}
    case WriteParamByte(index, _) => {index}
    case SetRunMode(_) => {RUN_MODE}
    case _ => {}
  }

  /** What a call writes to loc_ref, if anything. */
  function Target(op: Op): Option<Word> {
    match op
    case SendPositionCspCommand(target, _) => Some(target)
    case WriteParamFloat(index, value) => if index == LOC_REF then Some(value) else None
    case WriteParamByte(index, byte) => if index == LOC_REF then Some(ByteWord(byte)) else None
    case _ => None
  }

  predicate Reads(op: Op) {
    op.GetRunMode? || op.ReadParamFloat? || op.ReadParamByte?
  }

  /** What the call is for has happened. */
  predicate Happened(op: Op, s: MotorState) {
    match op
    case Enable => s.enabled
    case Disable(clearFault) => !s.enabled && (clearFault ==> s.faultBits == 0)
    case SetRunMode(mode) => s.runMode == mode && !s.enabled
    case ConfigureVelocityMode(currentLimit, acceleration) =>
      ParamOrZero(s.params, LIMIT_CUR) == currentLimit && ParamOrZero(s.params, ACC_RAD) == acceleration
    case SendVelocityCommand(target) => ParamOrZero(s.params, SPD_REF) == target
    case SendPositionCspCommand(target, speedLimit) =>
      ParamOrZero(s.params, LIMIT_SPD) == speedLimit && ParamOrZero(s.params, LOC_REF) == target
    case SetMechanicalZero => !s.enabled && s.position == 0.0
    case WriteParamFloat(index, value) => if index == RUN_MODE then s.runMode == value[0]
        else ParamOrZero(s.params, index) == value
    case WriteParamByte(index, byte) => if index == RUN_MODE then s.runMode == byte
        else ParamOrZero(s.params, index) == ByteWord(byte)
    case _ => true
  }

  /** Registers not written, and flags the call is not about, are as before. */
  predicate LeavesAlone(op: Op, before: MotorState, s: MotorState) {
    && (forall index: u16 :: index !in WrittenBy(op) ==>
          ParamOrZero(s.params, index) == ParamOrZero(before.params, index))
    && (RUN_MODE !in WrittenBy(op) ==> s.runMode == before.runMode)
    && (!(op.Enable? || op.Disable? || op.SetRunMode? || op.SetMechanicalZero?) ==> s.enabled == before.enabled)
    && (op != Disable(true) ==> s.faultBits == before.faultBits)
  }

  /**
    * Where the call leaves the motor: at zero, at a CSP target, or where its motion had taken it by
    * the last command that finds it running.
    */
  ghost predicate Arrives(limits: Limits, op: Op, before: MotorState, first: real, last: real, s: MotorState) {
    if op.SetMechanicalZero? then s.position == 0.0
    else if Target(op).Some? && before.enabled && before.runMode == 5 then
      ReachesTarget(limits, before.position, s.position, FloatValue(Target(op).value))
    else s.position == if Reads(op) then before.position else PositionAt(before, if op.SetRunMode? then first else last)
  }

  /**
    * What a call, whose first and last commands are sent at the given times, makes of a motor that
    * was in state `before`; a call that only reads changes nothing at all.
    */
  ghost predicate Accomplished(limits: Limits, op: Op, before: MotorState, first: real, last: real, s: MotorState) {
    && Happened(op, s)
    && LeavesAlone(op, before, s)
    && Arrives(limits, op, before, first, last, s)
    && (Reads(op) ==> s == before)
  }

  // --------------------------------------------------------------- single steps

  lemma CspTargetIsReached(limits: Limits, position: real, target: real)
    ensures ReachesTarget(limits, position, CspTarget(limits, position, target), target)
  {
    RemainderBound(target - position, 2.0 * limits.position);
    var turns := Turns(target - position, 2.0 * limits.position);
    assert CspTarget(limits, position, target) == target - Spans(limits, turns);
  }

  lemma WriteEffect(limits: Limits, s: MotorState, config: Config, index: u16, value: Word, now: real)
    ensures
      var w := Effect(limits, s, WriteStep(config, index, value).frame, now);
      && (index == RUN_MODE ==> w.runMode == value[0] && w.params == s.params)
      && (index != RUN_MODE ==> w.params == s.params[index := value] && w.runMode == s.runMode)
      && w.enabled == s.enabled && w.faultBits == s.faultBits && w.hasLastUpdate && w.lastUpdate == now
      && (if index == LOC_REF && s.enabled && s.runMode == POSITION_CSP_MODE
          then ReachesTarget(limits, s.position, w.position, FloatValue(value))
          else w.position == PositionAt(s, now))
  {
    WriteAnswerable(config, index, value);
    EffectOnRegisters(limits, s, WriteStep(config, index, value).frame, now);
    CspTargetIsReached(limits, s.position, FloatValue(value));
    hide CommTypeOf, IndexOf, ValueOf, TargetOf, Supported, Full, CspTarget, FloatValue, WriteStep, ReachesTarget,
      Times;
  }

  lemma PlainEffects(limits: Limits, s: MotorState, config: Config, clearFault: bool, now: real)
    ensures Effect(limits, s, EnableFrame(config.motorId, config.hostId), now) == Advanced(s, now).(enabled := true)
    ensures Effect(limits, s, StopStep(config, clearFault).frame, now)
         == Advanced(s, now).(enabled := false, faultBits := if clearFault then 0 else s.faultBits)
    ensures Effect(limits, s, SetMechanicalZeroFrame(config.motorId, config.hostId), now)
         == Advanced(s, now).(position := 0.0)
  {
    StopAnswerable(config, clearFault);
    PlainAnswerable(config, ENABLE, config.hostId, ZERO_PAYLOAD);
    PlainAnswerable(config, SET_MECHANICAL_ZERO, config.hostId, ZERO_PAYLOAD[0 := 1]);
    hide CommTypeOf, IndexOf, ValueOf, TargetOf, Supported, Full, MakeId, Speed, CspTarget, FloatValue, Written;
  }

  lemma ObservingEffects(limits: Limits, s: MotorState, config: Config, index: u16, op: Op, now: real)
    ensures Effect(limits, s, ReadStep(config, index).frame, now) == s
    ensures op.SendMotionCommand? ==> Effect(limits, s, StepsOf(config, op)[0].frame, now) == Advanced(s, now)
  {
    WriteAnswerable(config, index, ZERO_WORD);
    if op.SendMotionCommand? {
      MotionAnswerable(config, op.torque, op.position, op.velocity, op.kp, op.kd);
    }
    hide CommTypeOf, IndexOf, ValueOf, TargetOf, Supported, Full, MotionControlFrame, ReadParamFrame, Speed, CspTarget,
      FloatValue, Written, WriteStep;
  }

  /** A command that does not touch the speed leaves the motor on its course. */
  lemma OnCourse(s: MotorState, r: MotorState, now: real, t: real)
    requires Timed(s) && r.hasLastUpdate && r.lastUpdate == now && r.position == PositionAt(s, now)
    requires Speed(r) == Speed(s)
    ensures PositionAt(r, t) == PositionAt(s, t)
  {
    PositionAtIsLinear(s, now, t);
    PositionAtLastUpdate(r);
    PositionAtIsLinear(r, now, t);
  }

  lemma AtRest(s: MotorState, t: real)
    requires !Moving(s)
    ensures PositionAt(s, t) == s.position
  {
  }

  // -------------------------------------------------------------- whole calls

  /** A motor after the commands of some exchanges, the first being the n-th frame sent. */
  function Effects(limits: Limits, s: MotorState, steps: seq<Exchange>, clock: nat -> real, n: nat): MotorState
    decreases |steps|
  {
    if steps == [] then s
    else Effects(limits, Effect(limits, s, steps[0].frame, clock(n)), steps[1..], clock, n + 1)
  }

  lemma EffectsUnrolled(limits: Limits, s: MotorState, steps: seq<Exchange>, clock: nat -> real, n: nat)
    requires 1 <= |steps| <= 3
    ensures
      var one := Effect(limits, s, steps[0].frame, clock(n));
      Effects(limits, s, steps, clock, n) ==
      if |steps| == 1 then one
      else
        var two := Effect(limits, one, steps[1].frame, clock(n + 1));
        if |steps| == 2 then two else Effect(limits, two, steps[2].frame, clock(n + 2))
  {
    hide Effect;
    var one := Effect(limits, s, steps[0].frame, clock(n));
    assert steps[1..] == [] || steps[1..][0] == steps[1];
    assert |steps| > 1 ==> steps[1..][1..] == steps[2..];
    assert |steps| > 2 ==> steps[2..][1..] == [] && steps[2..][0] == steps[2];
    assert Effects(limits, s, steps, clock, n) == Effects(limits, one, steps[1..], clock, n + 1);
    if |steps| > 1 {
      var two := Effect(limits, one, steps[1].frame, clock(n + 1));
      assert Effects(limits, one, steps[1..], clock, n + 1) == Effects(limits, two, steps[2..], clock, n + 2);
    }
  }

  /**
    * The commands of some exchanges with one motor: that motor goes through their effects in turn,
    * and no other motor changes.
    */
  lemma {:induction false} MotorsAfterSteps(
    limits: Limits, before: seq<Event>, config: Config, steps: seq<Exchange>, clock: nat -> real, id: u8)
    requires AllAnswerable(config, steps)
    ensures
      var n := |before|;
      var s := MotorOf(Run(limits, NEW_STUB, before), id);
      MotorOf(Run(limits, NEW_STUB, before + CommandsOf(steps, clock, n)), id)
      == if id == config.motorId then Effects(limits, s, steps, clock, n) else s
    ensures Run(limits, NEW_STUB, before + CommandsOf(steps, clock, |before|)).temperature
         == Run(limits, NEW_STUB, before).temperature
    decreases |steps|
  {
    hide Run, Applied, Effect, Supported, TargetOf, Full, CommTypeOf, CommandsOf, AllAnswerable;
    var n := |before|;
    if steps == [] {
      NoCommands(clock, n);
      assert before + [] == before;
    } else {
      var e := Event(clock(n), Command(steps[0].frame));
      var st := Run(limits, NEW_STUB, before);
      AnswerableParts(config, steps);
      CommandsOfCons(steps, clock, n);
      MotorsAfterSteps(limits, before + [e], config, steps[1..], clock, id);
      assert before + CommandsOf(steps, clock, n) == before + [e] + CommandsOf(steps[1..], clock, n + 1);
      RunSnoc(limits, NEW_STUB, before, e);
      ObserverKeepsTemperature(limits, st, e);
      if id == config.motorId {
        CommandedMotor(limits, st, e, id);
      } else {
        CommandFaults(limits, st, e, id);
      }
    }
  }

  lemma SingleCallAccomplishes(limits: Limits, s: MotorState, config: Config, op: Op, now: real)
    requires |StepsOf(config, op)| == 1
    ensures Accomplished(limits, op, s, now, now, Effect(limits, s, StepsOf(config, op)[0].frame, now))
  {
    hide Effect, WriteStep, ReadStep, StopStep, EnableFrame, SetMechanicalZeroFrame, MotionControlFrame, ByteWord,
      ReachesTarget, Times, Speed, Moving;
    PlainEffects(limits, s, config, op.Disable? && op.clearFault, now);
    ObservingEffects(limits, s, config, RUN_MODE, op, now);
    match op
    case SendVelocityCommand(target) => WriteEffect(limits, s, config, SPD_REF, target, now);
    case WriteParamFloat(index, value) => WriteEffect(limits, s, config, index, value, now);
    case WriteParamByte(index, byte) =>
      WriteEffect(limits, s, config, index, ByteWord(byte), now);
      ByteOfByteWord(byte);
    case ReadParamFloat(index) => ObservingEffects(limits, s, config, index, op, now);
    case ReadParamByte(index) => ObservingEffects(limits, s, config, index, op, now);
    case _ =>
  }

  lemma DoubleCallAccomplishes(limits: Limits, s: MotorState, config: Config, op: Op, first: real, last: real)
    requires Timed(s) && |StepsOf(config, op)| == 2
    ensures
      var one := Effect(limits, s, StepsOf(config, op)[0].frame, first);
      Accomplished(limits, op, s, first, last, Effect(limits, one, StepsOf(config, op)[1].frame, last))
  {
    hide Effect, WriteStep, ReadStep, StopStep, EnableFrame, SetMechanicalZeroFrame, MotionControlFrame, ByteWord,
      ReachesTarget, PositionAt, FloatValue;
    var one := Effect(limits, s, StepsOf(config, op)[0].frame, first);
    match op
    case ConfigureVelocityMode(currentLimit, acceleration) =>
      WriteEffect(limits, s, config, LIMIT_CUR, currentLimit, first);
      WriteEffect(limits, one, config, ACC_RAD, acceleration, last);
      OnCourse(s, one, first, last);
    case SendPositionCspCommand(target, speedLimit) =>
      WriteEffect(limits, s, config, LIMIT_SPD, speedLimit, first);
      WriteEffect(limits, one, config, LOC_REF, target, last);
      OnCourse(s, one, first, last);
      if s.enabled && s.runMode == POSITION_CSP_MODE {
        AtRest(s, first);
      }
    case SetMechanicalZero =>
      PlainEffects(limits, s, config, false, first);
      PlainEffects(limits, one, config, false, last);
    case _ =>
  }

  lemma ModeCallAccomplishes(
    limits: Limits, s: MotorState, config: Config, mode: u8, first: real, second: real, last: real)
    ensures
      var steps := StepsOf(config, Op.SetRunMode(mode));
      var one := Effect(limits, s, steps[0].frame, first);
      var two := Effect(limits, one, steps[1].frame, second);
      Accomplished(limits, Op.SetRunMode(mode), s, first, last, Effect(limits, two, steps[2].frame, last))
  {
    hide Effect, WriteStep, ReadStep, StopStep, ByteWord, ReachesTarget, PositionAt, FloatValue;
    var steps := StepsOf(config, Op.SetRunMode(mode));
    var one := Effect(limits, s, steps[0].frame, first);
    var two := Effect(limits, one, steps[1].frame, second);
    PlainEffects(limits, s, config, false, first);
    AdvancedPosition(s, first);
    WriteEffect(limits, one, config, RUN_MODE, ByteWord(mode), second);
    ByteOfByteWord(mode);
    AtRest(one, second);
    ObservingEffects(limits, two, config, RUN_MODE, Enable, last);
  }

  lemma AdvancedPosition(s: MotorState, now: real)
    ensures Advanced(s, now).position == PositionAt(s, now)
  {
  }

  /** The commands of a call, sent in turn to a motor in a reachable state, accomplish it. */
  lemma StepsAccomplish(limits: Limits, s: MotorState, config: Config, op: Op, clock: nat -> real, n: nat)
    requires Timed(s)
    ensures
      var steps := StepsOf(config, op);
      Accomplished(limits, op, s, clock(n), clock(n + |steps| - 1), Effects(limits, s, steps, clock, n))
  {
    hide Effect, StepsOf, Accomplished, Effects;
    var steps := StepsOf(config, op);
    EffectsUnrolled(limits, s, steps, clock, n);
    StepCounts(config, op);
    if op.SetRunMode? {
      ModeCallAccomplishes(limits, s, config, op.mode, clock(n), clock(n + 1), clock(n + 2));
    } else if |steps| == 1 {
      SingleCallAccomplishes(limits, s, config, op, clock(n));
    } else {
      DoubleCallAccomplishes(limits, s, config, op, clock(n), clock(n + 1));
    }
  }

  lemma StepCounts(config: Config, op: Op)
    ensures |StepsOf(config, op)| == 3 <==> op.SetRunMode?
  {
    hide StopFrame, WriteParamFrame, ReadParamFrame, MotionControlFrame, EnableFrame, SetMechanicalZeroFrame, ByteWord;
  }

  /**
    * Every public call over the simulator does what its documentation says to its motor, leaves the
    * rest of that motor alone, and changes no other motor and not the temperature.
    */
  lemma {:induction false} CallsAccomplish(
    limits: Limits, clock: nat -> real, patience: nat -> nat, config: Config,
    cache: Option<Feedback>, link: Link<World>, op: Op)
    requires InStep(limits, clock, link) && forall n :: patience(n) > 0
    ensures
      var before := link.state;
      var after := Call(StubPort(limits, clock, patience), config, cache, link, op).link.state.stub;
      && Accomplished(
           limits, op, MotorOf(before.stub, config.motorId), clock(before.sends),
           clock(before.sends + |StepsOf(config, op)| - 1), MotorOf(after, config.motorId))
      && (forall id: u8 :: id != config.motorId ==> MotorOf(after, id) == MotorOf(before.stub, id))
      && after.temperature == before.stub.temperature
  {
    hide Call, StubPort, Accomplished, Alternates, Run, HistoryOf, HeardIn, CommandsOf, StepsOf, Effects, EnabledBy,
      LastWritten, Answerable;
    var events := HistoryOf(link.log, clock);
    var steps := StepsOf(config, op);
    CallsSucceed(limits, clock, patience, config, cache, link, op);
    StepsAreAnswerable(config, op);
    HistoryDeterminesRegisters(limits, events, config.motorId);
    StepsAccomplish(limits, MotorOf(Run(limits, NEW_STUB, events), config.motorId), config, op, clock, |events|);
    var after := Call(StubPort(limits, clock, patience), config, cache, link, op).link.state.stub;
    var ran := Run(limits, NEW_STUB, events + CommandsOf(steps, clock, |events|));
    assert after == ran.(responses := []);
    forall id: u8
      ensures
        var s := MotorOf(link.state.stub, id);
        MotorOf(after, id) == if id == config.motorId then Effects(limits, s, steps, clock, |events|) else s
    {
      MotorsAfterSteps(limits, events, config, steps, clock, id);
    }
    MotorsAfterSteps(limits, events, config, steps, clock, config.motorId);
  }

  // ------------------------------------------------------- what the replies say

  /** The calls that return a feedback. */
  predicate ReturnsFeedback(op: Op) {
    op.Enable? || op.Disable? || op.SendVelocityCommand? || op.SendPositionCspCommand? || op.SendMotionCommand?
    || op.WriteParamFloat? || op.WriteParamByte?
  }

  /** The feedback tells who answered whom and, quantised, the state the call leaves its motor in. */
  predicate Tells(config: Config, s: MotorState, fb: Feedback) {
    && fb.motorId == config.motorId
    && fb.mode == (if s.enabled then 2 else 0)
    && fb.fault == s.faultBits % 0x40
    && fb.position == Tracking.Reported(s.position, config.limits.position)
    && fb.velocity == Quantised(Speed(s), config.limits.velocity)
  }

  /** The feedback goes to the host that asked, or, after a motion command, to the low byte of its torque code. */
  function ToldHost(config: Config, op: Op): u8 {
    if op.SendMotionCommand? then FloatToUint(op.torque, -config.limits.torque, config.limits.torque) % 0x100
    else config.hostId
  }

  lemma LastHost(config: Config, op: Op)
    requires ReturnsFeedback(op)
    ensures HostOf(Last(StepsOf(config, op)).frame) == ToldHost(config, op)
  {
    var m, h := config.motorId, config.hostId;
    hide MakeId, HostOf, IndexOf, ValueOf, IndexPayload, FloatToUint, ByteWord, BigEndianPayload;
    if op.SendMotionCommand? {
      HostDigit(MOTION_CONTROL, FloatToUint(op.torque, -config.limits.torque, config.limits.torque), m);
    } else {
      HostDigit(ENABLE, h, m);
      HostDigit(STOP, h, m);
      HostDigit(WRITE_PARAM, h, m);
    }
  }

  lemma HostDigit(commType: u8, area: u16, motor: u8)
    requires commType < 0x20
    ensures forall data: Payload :: HostOf(CanFrame(MakeId(commType, area, motor), data, 8)) == area % 0x100
  {
    IdFields(commType, area, motor);
    hide MakeId;
  }

  lemma LastAnswerTells(limits: Limits, events: seq<Event>, config: Config, step: Exchange)
    requires config.limits == limits && Answerable(config, step) && step.expected == FEEDBACK
    requires events != [] && Last(events).action == Command(step.frame)
    ensures
      var fb := ParseFeedback(AnswerTo(limits, events), config.limits);
      && fb.Some? && Tells(config, MotorOf(Run(limits, NEW_STUB, events), config.motorId), fb.value)
      && fb.value.hostId == HostOf(step.frame) && fb.value.torque == Quantised(0.0, limits.torque)
      && fb.value.temperature == TenthsCode(Run(limits, NEW_STUB, Init(events)).temperature) as real * 0.1
  {
    hide Run, FeedbackFrame, ParseFeedback, ParamResponseFrame, FeedbackOf, Tracking.Reported, Quantised, Speed,
      TargetOf, HostOf, CommTypeOf, Full, Supported, TenthsCode, Remainder;
    var s := MotorOf(Run(limits, NEW_STUB, events), config.motorId);
    FeedbackTellsState(
      limits, config.motorId, HostOf(step.frame), s, Run(limits, NEW_STUB, Init(events)).temperature);
  }

  /** A reply with feedback, over the simulator, describes the motor as the call leaves it. */
  lemma {:induction false} RepliesTell(
    limits: Limits, clock: nat -> real, patience: nat -> nat, config: Config,
    cache: Option<Feedback>, link: Link<World>, op: Op)
    requires config.limits == limits && InStep(limits, clock, link) && forall n :: patience(n) > 0
    ensures
      var c := Call(StubPort(limits, clock, patience), config, cache, link, op);
      && (c.reply.Reported? <==> ReturnsFeedback(op))
      && (ReturnsFeedback(op) ==>
            && Tells(config, MotorOf(c.link.state.stub, config.motorId), c.reply.feedback)
            && c.reply.feedback.hostId == ToldHost(config, op)
            && c.reply.feedback.torque == Quantised(0.0, limits.torque)
            && c.reply.feedback.temperature == TenthsCode(link.state.stub.temperature) as real * 0.1)
  {
    hide Performed, AnswerTo, HistoryOf, HeardIn, Answerable, CommandsOf, ValueOf, StubPort, StepsOf, ParseFeedback,
      Run, Alternates, Tells, TenthsCode, Quantised, ToldHost, HostOf;
    var steps := StepsOf(config, op);
    var before := HistoryOf(link.log, clock);
    StepsAreAnswerable(config, op);
    PerformedInStep(limits, clock, patience, config, cache, link, steps);
    HistoryGrowsByOne(before, steps, clock);
    LastExpectation(config, op);
    if ReturnsFeedback(op) {
      LastAnswerTells(limits, before + CommandsOf(steps, clock, |before|), config, steps[|steps| - 1]);
      LastHost(config, op);
      AllAnswerablePrefix(config, steps, |steps| - 1);
      MotorsAfterSteps(limits, before, config, steps[..|steps| - 1], clock, config.motorId);
    }
  }

  lemma AllAnswerablePrefix(config: Config, steps: seq<Exchange>, n: nat)
    requires AllAnswerable(config, steps) && n <= |steps|
    ensures AllAnswerable(config, steps[..n])
  {
    hide Answerable;
  }

  /** get_run_mode returns the low byte of what was last written to register 0x7005 of the motor, by any command. */
  lemma {:induction false} RunModeIsRead(
    limits: Limits, clock: nat -> real, patience: nat -> nat, config: Config,
    cache: Option<Feedback>, link: Link<World>)
    requires InStep(limits, clock, link) && forall n :: patience(n) > 0
    ensures Call(StubPort(limits, clock, patience), config, cache, link, Op.GetRunMode).reply
         == ByteRead(LastWritten(HistoryOf(link.log, clock), config.motorId, 0x7005)[0])
  {
    hide Performed, InStep, LastWritten, HistoryOf, ReadStep, ValueOf, StubPort, ByteWord;
    ReadExchange(limits, clock, patience, config, cache, link, RUN_MODE);
    ByteOfByteWord(LastWritten(HistoryOf(link.log, clock), config.motorId, RUN_MODE)[0]);
  }

  /** Directly after set_run_mode it returns the mode that was set. */
  lemma {:induction false} RunModeAfterSet(
    limits: Limits, clock: nat -> real, patience: nat -> nat, config: Config,
    cache: Option<Feedback>, link: Link<World>, mode: u8)
    requires InStep(limits, clock, link) && forall n :: patience(n) > 0
    ensures
      var port := StubPort(limits, clock, patience);
      var c := Call(port, config, cache, link, Op.SetRunMode(mode));
      c.reply == Done && Call(port, config, c.cache, c.link, Op.GetRunMode).reply == ByteRead(mode)
  {
    hide Call, StubPort, Run, HistoryOf, HeardIn, Alternates, LastWritten, EnabledBy, CommandsOf, StepsOf;
    var c := Call(StubPort(limits, clock, patience), config, cache, link, Op.SetRunMode(mode));
    SetRunModeEndsVerified(limits, clock, patience, config, cache, link, mode);
    CallsSucceed(limits, clock, patience, config, cache, link, Op.SetRunMode(mode));
    RunModeIsRead(limits, clock, patience, config, c.cache, c.link);
    HistoryDeterminesRegisters(limits, HistoryOf(c.link.log, clock), config.motorId);
  }

  /**
    * A CSP command to an enabled motor in CSP mode, over the simulator: the motor moves by at most
    * half the span to a value congruent to the target, and the position the call returns is within
    * half a code step of one.
    */
  lemma {:induction false} CspCallReachesTarget(
    limits: Limits, clock: nat -> real, patience: nat -> nat, config: Config,
    cache: Option<Feedback>, link: Link<World>, target: Word, speedLimit: Word)
    returns (turns: int)
    requires config.limits == limits && InStep(limits, clock, link) && forall n :: patience(n) > 0
    requires
      var s := MotorOf(link.state.stub, config.motorId);
      s.enabled && s.runMode == 5
    ensures
      var op := SendPositionCspCommand(target, speedLimit);
      var c := Call(StubPort(limits, clock, patience), config, cache, link, op);
      var from := MotorOf(link.state.stub, config.motorId).position;
      var to := MotorOf(c.link.state.stub, config.motorId).position;
      && ReachesTarget(limits, from, to, FloatValue(target))
      && c.reply.Reported?
      && -limits.position / 65535.0
           < c.reply.feedback.position - (FloatValue(target) - Spans(limits, turns))
           <= limits.position / 65535.0
  {
    hide Call, InStep, StubPort, FloatValue, Times, Turns, Tracking.Reported, Quantised, Speed;
    var op := SendPositionCspCommand(target, speedLimit);
    var c := Call(StubPort(limits, clock, patience), config, cache, link, op);
    var span := 2.0 * limits.position;
    CallsAccomplish(limits, clock, patience, config, cache, link, op);
    RepliesTell(limits, clock, patience, config, cache, link, op);
    var to := MotorOf(c.link.state.stub, config.motorId).position;
    var moved: int :| to == FloatValue(target) - Spans(limits, moved);
    turns := moved + Turns(to, span);
    ReportedIsNear(to, limits.position);
    Distribute(moved as real, Turns(to, span) as real, span);
    assert turns as real == moved as real + Turns(to, span) as real;
  }
}

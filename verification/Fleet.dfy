/** Any number of motor objects sharing the simulator, driven by any client. */
module Fleet {
  import opened Bytes
  import opened Can
  import Scaling
  import opened Protocol
  import opened Float32
  import opened Stub
  import opened StubTrace
  import opened Driver

  // ------------------------------------------------- the simulator as a transport

  datatype World = World(stub: StubState, sends: nat)

  const NEW_WORLD := World(NEW_STUB, 0)

  /** The simulator called directly; the n-th frame is sent at time clock(n). */
  function StubPort(limits: Limits, clock: nat -> real, patience: nat -> nat): Port<World> {
    Port(
      (w: World, frame: CanFrame) => (World(Stub.Sent(limits, w.stub, frame, clock(w.sends)), w.sends + 1), true),
      (w: World) =>
        if w.stub.responses == [] then (w, Silence)
        else (w.(stub := w.stub.(responses := w.stub.responses[1..])), Frame(w.stub.responses[0])),
      patience)
  }

  // ------------------------------------------------------------------ clients

  /** A call on motor object `who`. */
  datatype Request = Request(who: nat, op: Op)

  datatype Session<S> = Session(link: Link<S>, caches: map<nat, Feedback>)

  function CacheOf<S>(s: Session<S>, who: nat): Option<Feedback> {
    if who in s.caches then Some(s.caches[who]) else None
  }

  function Served<S>(port: Port<S>, fleet: nat -> Config, s: Session<S>, r: Request): (Session<S>, Reply) {
    var c := Call(port, fleet(r.who), CacheOf(s, r.who), s.link, r.op);
    (Session(c.link, if c.cache.Some? then s.caches[r.who := c.cache.value] else s.caches), c.reply)
  }

  /** n calls of a client that chooses each call from the replies it has had so far. */
  function Conducted<S>(
      port: Port<S>, fleet: nat -> Config, client: seq<Reply> -> Request, s: Session<S>, n: nat
    ): (Session<S>, seq<Reply>) {
    if n == 0 then (s, [])
    else
      var (before, replies) := Conducted(port, fleet, client, s, n - 1);
      var (after, reply) := Served(port, fleet, before, client(replies));
      (after, replies + [reply])
  }

  function NewSession<S>(state: S): Session<S> {
    Session(Link(state, 0, []), map[])
  }

  // ------------------------------------------------------------- one exchange

  /** A frame the simulator answers to this motor with the expected type. */
  predicate Answerable(config: Config, step: Exchange) {
    && Full(step.frame) && Supported(step.frame) && TargetOf(step.frame) == config.motorId
    && step.expected == if CommTypeOf(step.frame) == READ_PARAM then READ_PARAM else FEEDBACK
  }

  lemma PlainCommandFields(commType: u8, motor: u8, area: u16, data: Payload)
    requires commType in {ENABLE, STOP, SET_MECHANICAL_ZERO, MOTION_CONTROL}
    ensures
      var frame := CanFrame(MakeId(commType, area, motor), data, 8);
      Full(frame) && Supported(frame) && TargetOf(frame) == motor && CommTypeOf(frame) == commType
  {
    IdFields(commType, area, motor);
    hide MakeId;
  }

  /** Every frame the driver sends is answerable. */
  lemma {:induction false} StepsAreAnswerable(config: Config, op: Op)
    ensures forall k :: 0 <= k < |StepsOf(config, op)| ==> Answerable(config, StepsOf(config, op)[k])
  {
    hide Answerable, StepsOf, CommTypeOf, IndexOf;
    var steps := StepsOf(config, op);
    forall k | 0 <= k < |steps|
      ensures Answerable(config, steps[k])
    {
      StepIsAnswerable(config, op, k);
    }
  }

  lemma WriteAnswerable(config: Config, index: u16, value: Word)
    ensures Answerable(config, WriteStep(config, index, value)) && Answerable(config, ReadStep(config, index))
    ensures CommTypeOf(WriteStep(config, index, value).frame) == WRITE_PARAM
    ensures CommTypeOf(ReadStep(config, index).frame) == READ_PARAM
    ensures IndexOf(WriteStep(config, index, value).frame) == index
        && ValueOf(WriteStep(config, index, value).frame) == value
    ensures IndexOf(ReadStep(config, index).frame) == index
  {
    IndexedCommandFields(WRITE_PARAM, config.motorId, config.hostId, index, value);
    IndexedCommandFields(READ_PARAM, config.motorId, config.hostId, index, ZERO_WORD);
    hide MakeId, IndexPayload, IndexOf, ValueOf, TargetOf, CommTypeOf, HostOf, Full;
  }

  lemma StopAnswerable(config: Config, clearFault: bool)
    ensures Answerable(config, StopStep(config, clearFault))
    ensures CommTypeOf(StopStep(config, clearFault).frame) == STOP
  {
    PlainCommandFields(STOP, config.motorId, config.hostId, ZERO_PAYLOAD[0 := if clearFault then 1 else 0]);
    hide MakeId;
  }

  /** The step is answerable, and writes run_mode only where its call says so. */
  predicate StepIsSound(config: Config, op: Op, k: nat)
    requires k < |StepsOf(config, op)|
  {
    var step := StepsOf(config, op)[k];
    && Answerable(config, step)
    && (CommTypeOf(step.frame) == WRITE_PARAM && IndexOf(step.frame) == RUN_MODE ==>
          || (op.SetRunMode? && k == 1)
          || (op.WriteParamFloat? && op.index == RUN_MODE)
          || (op.WriteParamByte? && op.index == RUN_MODE))
  }

  lemma SingleStepIsSound(config: Config, op: Op)
    requires |StepsOf(config, op)| == 1
    ensures StepIsSound(config, op, 0)
  {
    hide StepIsSound, StepsOf;
    if op.ReadParamFloat? || op.ReadParamByte? || op.WriteParamFloat? || op.WriteParamByte? {
      ParamStepIsSound(config, op);
    } else {
      CommandStepIsSound(config, op);
    }
  }

  lemma ParamStepIsSound(config: Config, op: Op)
    requires op.ReadParamFloat? || op.ReadParamByte? || op.WriteParamFloat? || op.WriteParamByte?
    ensures StepIsSound(config, op, 0)
  {
    hide Answerable, WriteStep, ReadStep, StopStep, ByteWord, CommTypeOf, IndexOf, ValueOf;
    match op
    case ReadParamFloat(index) => WriteAnswerable(config, index, ZERO_WORD);
    case ReadParamByte(index) => WriteAnswerable(config, index, ZERO_WORD);
    case WriteParamFloat(index, value) => WriteAnswerable(config, index, value);
    case WriteParamByte(index, byte) => WriteAnswerable(config, index, ByteWord(byte));
    case _ =>
  }

  lemma CommandStepIsSound(config: Config, op: Op)
    requires |StepsOf(config, op)| == 1
    requires !(op.ReadParamFloat? || op.ReadParamByte? || op.WriteParamFloat? || op.WriteParamByte?)
    ensures StepIsSound(config, op, 0)
  {
    hide MakeId, MotionControlFrame, StopFrame, WriteParamFrame, ReadParamFrame;
    hide Answerable, WriteStep, ReadStep, StopStep, ByteWord, CommTypeOf, IndexOf, ValueOf;
    match op
    case Enable => PlainAnswerable(config, ENABLE, config.hostId, ZERO_PAYLOAD);
    case Disable(clearFault) => StopAnswerable(config, clearFault);
    case GetRunMode => WriteAnswerable(config, RUN_MODE, ZERO_WORD);
    case SendVelocityCommand(target) => WriteAnswerable(config, SPD_REF, target);
    case SendMotionCommand(torque, position, velocity, kp, kd) =>
      MotionAnswerable(config, torque, position, velocity, kp, kd);
    case _ =>
  }

  lemma SequenceStepIsSound(config: Config, op: Op, k: nat)
    requires |StepsOf(config, op)| > 1 && k < |StepsOf(config, op)|
    ensures StepIsSound(config, op, k)
  {
    hide Answerable, WriteStep, ReadStep, StopStep, ByteWord, CommTypeOf, IndexOf, ValueOf;
    match op
    case SetRunMode(mode) =>
      StopAnswerable(config, false);
      WriteAnswerable(config, RUN_MODE, ByteWord(mode));
    case ConfigureVelocityMode(currentLimit, acceleration) =>
      WriteAnswerable(config, LIMIT_CUR, currentLimit);
      WriteAnswerable(config, ACC_RAD, acceleration);
    case SendPositionCspCommand(target, speedLimit) =>
      WriteAnswerable(config, LIMIT_SPD, speedLimit);
      WriteAnswerable(config, LOC_REF, target);
    case SetMechanicalZero =>
      StopAnswerable(config, false);
      PlainAnswerable(config, SET_MECHANICAL_ZERO, config.hostId, ZERO_PAYLOAD[0 := 1]);
    case _ =>
  }

  lemma StepIsAnswerable(config: Config, op: Op, k: nat)
    requires k < |StepsOf(config, op)|
    ensures StepIsSound(config, op, k)
  {
    hide StepIsSound, StepsOf;
    if |StepsOf(config, op)| == 1 {
      SingleStepIsSound(config, op);
    } else {
      SequenceStepIsSound(config, op, k);
    }
  }

  lemma PlainAnswerable(config: Config, commType: u8, area: u16, data: Payload)
    requires commType in {ENABLE, STOP, SET_MECHANICAL_ZERO, MOTION_CONTROL}
    ensures Answerable(config, Exchange(CanFrame(MakeId(commType, area, config.motorId), data, 8), FEEDBACK))
    ensures CommTypeOf(CanFrame(MakeId(commType, area, config.motorId), data, 8)) == commType
  {
    PlainCommandFields(commType, config.motorId, area, data);
    hide MakeId, Full, Supported, TargetOf, CommTypeOf;
  }

  lemma MotionAnswerable(config: Config, torque: real, position: real, velocity: real, kp: real, kd: real)
    ensures
      var frame := MotionControlFrame(config.motorId, torque, position, velocity, kp, kd, config.limits);
      Answerable(config, Exchange(frame, FEEDBACK)) && CommTypeOf(frame) == MOTION_CONTROL
  {
    var frame := MotionControlFrame(config.motorId, torque, position, velocity, kp, kd, config.limits);
    PlainAnswerable(
      config, MOTION_CONTROL,
      Scaling.FloatToUint(torque, -config.limits.torque, config.limits.torque), frame.data);
    hide MakeId, Answerable, BigEndianPayload, CommTypeOf;
  }

  /** The simulator after one more command, with its answer taken from the queue. */
  function Commanded(limits: Limits, stub: StubState, frame: CanFrame, now: real): StubState {
    Stub.Sent(limits, stub, frame, now).(responses := [])
  }

  /** Over the simulator with an empty queue, one exchange is answered at once and the queue is empty again. */
  lemma OneExchange(
    limits: Limits, clock: nat -> real, patience: nat -> nat, config: Config,
    cache: Option<Feedback>, link: Link<World>, step: Exchange)
    returns (answer: CanFrame)
    requires Answerable(config, step) && link.state.stub.responses == [] && patience(link.exchanges) > 0
    ensures
      var w := link.state;
      var x := Transceived(StubPort(limits, clock, patience), config, cache, link, step.frame, step.expected);
      && x.result == Ok(answer)
      && x.link == Link(
           World(Commanded(limits, w.stub, step.frame, clock(w.sends)), w.sends + 1),
           link.exchanges + 1, link.log + [SentOut(step.frame), Got(answer)])
      && Full(answer) && SourceOf(answer) == config.motorId && CommTypeOf(answer) == step.expected
    ensures answer == Response(limits, Effect(limits, MotorOf(link.state.stub, config.motorId), step.frame,
        clock(link.state.sends)), step.frame, link.state.stub.temperature)
  {
    hide Effect, Response, Full, Supported, TargetOf, SourceOf, CommTypeOf, Cached, MotorOf, Await, Stub.Sent;
    var w := link.state;
    var port := StubPort(limits, clock, patience);
    answer := QueuedAnswer(limits, w.stub, config, step, clock(w.sends));
    var next := Submitted(port, link, step.frame).0;
    var heard := Listened(port, next).0;
    assert heard.state == World(Commanded(limits, w.stub, step.frame, clock(w.sends)), w.sends + 1);
    assert link.log + [SentOut(step.frame)] + [Got(answer)] == link.log + [SentOut(step.frame), Got(answer)];
    AwaitFirst(port, config, cache, next, step.expected, patience(link.exchanges), answer);
  }

  lemma QueuedAnswer(
      limits: Limits, stub: StubState, config: Config, step: Exchange, now: real) returns (answer: CanFrame)
    requires Answerable(config, step) && stub.responses == []
    ensures Stub.Sent(limits, stub, step.frame, now).responses == [answer]
    ensures Full(answer) && SourceOf(answer) == config.motorId && CommTypeOf(answer) == step.expected
    ensures answer == Response(limits, Effect(limits, MotorOf(stub, config.motorId), step.frame, now), step.frame,
        stub.temperature)
  {
    hide Effect, Response, Full, Supported, TargetOf, SourceOf, CommTypeOf, MotorOf;
    var s := Effect(limits, MotorOf(stub, config.motorId), step.frame, now);
    answer := Response(limits, s, step.frame, stub.temperature);
    ResponseFacts(limits, s, step.frame, stub.temperature);
  }

  /** A wait whose first heard frame matches ends there. */
  lemma AwaitFirst<S>(
      port: Port<S>, config: Config, cache: Option<Feedback>, link: Link<S>, expected: u8, passes: nat,
      answer: CanFrame)
    requires passes > 0 && Listened(port, link).1 == Frame(answer)
    requires SourceOf(answer) == config.motorId && CommTypeOf(answer) == expected
    ensures Await(port, config, cache, link, expected, passes)
        == Exchanged(Ok(answer), Cached(config, cache, answer), Listened(port, link).0)
  {
    hide SourceOf, CommTypeOf, Cached;
  }

  // ---------------------------------------------------------- a run in lockstep

  /** The commands in a log, with the times at which they were sent. */
  function HistoryOf(log: seq<Entry>, clock: nat -> real): (events: seq<Event>)
    ensures |events| <= |log|
  {
    if log == [] then []
    else
      var before := HistoryOf(Init(log), clock);
      if Last(log).SentOut? then before + [Event(clock(|before|), Command(Last(log).frame))] else before
  }

  /** Every frame sent is followed at once by one answer from the motor it addressed. */
  predicate Alternates(log: seq<Entry>) {
    && |log| % 2 == 0
    && forall i :: 0 <= i < |log| / 2 ==> AnsweredAt(log, i)
  }

  predicate AnsweredAt(log: seq<Entry>, i: nat)
    requires 2 * i + 1 < |log|
  {
    && log[2 * i].SentOut? && log[2 * i + 1].Got?
    && SourceOf(log[2 * i + 1].frame) == TargetOf(log[2 * i].frame)
  }

  /** The frames received in a log. */
  function HeardIn(log: seq<Entry>): seq<CanFrame> {
    if log == [] then []
    else HeardIn(Init(log)) + if Last(log).Got? then [Last(log).frame] else []
  }

  /**
    * A session in lockstep: nothing queued, the simulator is where its command history puts it, and
    * every response of that history has been received, in order.
    */
  predicate InStep(limits: Limits, clock: nat -> real, link: Link<World>) {
    && link.state.stub.responses == []
    && Alternates(link.log)
    && link.state.sends == |HistoryOf(link.log, clock)|
    && link.state.stub == Run(limits, NEW_STUB, HistoryOf(link.log, clock)).(responses := [])
    && HeardIn(link.log) == Run(limits, NEW_STUB, HistoryOf(link.log, clock)).responses
  }

  lemma HistoryOfExchange(log: seq<Entry>, clock: nat -> real, frame: CanFrame, answer: CanFrame)
    ensures
      var before := HistoryOf(log, clock);
      HistoryOf(log + [SentOut(frame), Got(answer)], clock) == before + [Event(clock(|before|), Command(frame))]
    ensures HeardIn(log + [SentOut(frame), Got(answer)]) == HeardIn(log) + [answer]
  {
    var one := log + [SentOut(frame)];
    var both := log + [SentOut(frame), Got(answer)];
    assert Init(both) == one && Last(both) == Got(answer);
    assert Init(one) == log && Last(one) == SentOut(frame);
  }

  lemma AlternatesExchange(log: seq<Entry>, frame: CanFrame, answer: CanFrame)
    requires Alternates(log) && SourceOf(answer) == TargetOf(frame)
    ensures Alternates(log + [SentOut(frame), Got(answer)])
  {
    hide SourceOf, TargetOf;
    var both := log + [SentOut(frame), Got(answer)];
    forall i | 0 <= i < |both| / 2
      ensures AnsweredAt(both, i)
    {
      if i < |log| / 2 {
        assert AnsweredAt(log, i);
      }
    }
  }

  /** Queued responses do not influence what a command does. */
  lemma SentIgnoresQueue(limits: Limits, st: StubState, frame: CanFrame, now: real)
    ensures Stub.Sent(limits, st.(responses := []), frame, now).(responses := [])
        == Stub.Sent(limits, st, frame, now).(responses := [])
  {
    hide Effect, Response, Supported, TargetOf;
  }

  /** Sending to a simulator with responses queued adds to the queue and is otherwise the same. */
  lemma SentAddsToQueue(limits: Limits, st: StubState, frame: CanFrame, now: real)
    ensures
      var alone := Stub.Sent(limits, st.(responses := []), frame, now);
      Stub.Sent(limits, st, frame, now) == alone.(responses := st.responses + alone.responses)
  {
    hide Effect, Response, Supported, TargetOf;
  }

  lemma RunSnoc(limits: Limits, st: StubState, events: seq<Event>, e: Event)
    ensures Run(limits, st, events + [e]) == Applied(limits, Run(limits, st, events), e)
  {
    SnocParts(events, e);
  }

  lemma ExchangeKeepsStep(
    limits: Limits, clock: nat -> real, patience: nat -> nat, config: Config,
    cache: Option<Feedback>, link: Link<World>, step: Exchange)
    returns (answer: CanFrame)
    requires Answerable(config, step) && InStep(limits, clock, link) && patience(link.exchanges) > 0
    ensures
      var x := Transceived(StubPort(limits, clock, patience), config, cache, link, step.frame, step.expected);
      var before, after := HistoryOf(link.log, clock), HistoryOf(x.link.log, clock);
      && x.result == Ok(answer) && WellFormedAnswer(answer)
      && InStep(limits, clock, x.link)
      && after == before + [Event(clock(|before|), Command(step.frame))]
      && answer == AnswerTo(limits, after)
  {
    answer := OneExchange(limits, clock, patience, config, cache, link, step);
    hide Transceived, Run, Stub.Sent, Supported, TargetOf, SourceOf, CommTypeOf, Effect, Response, AnswerTo,
      HistoryOf, HeardIn, Alternates;
    var events := HistoryOf(link.log, clock);
    var e := Event(clock(|events|), Command(step.frame));
    HistoryOfExchange(link.log, clock, step.frame, answer);
    AlternatesExchange(link.log, step.frame, answer);
    RunSnoc(limits, NEW_STUB, events, e);
    SentIgnoresQueue(limits, Run(limits, NEW_STUB, events), step.frame, e.time);
    AnswerToSnoc(limits, events, e);
  }

  lemma AnswerToSnoc(limits: Limits, events: seq<Event>, e: Event)
    requires e.action.Command? && Supported(e.action.frame)
    ensures
      var st := Run(limits, NEW_STUB, events);
      var frame := e.action.frame;
      AnswerTo(limits, events + [e])
          == Response(limits, Effect(limits, MotorOf(st, TargetOf(frame)), frame, e.time), frame, st.temperature)
    ensures Run(limits, NEW_STUB, events + [e]).responses
         == Run(limits, NEW_STUB, events).responses + [AnswerTo(limits, events + [e])]
  {
    hide Run, Applied, Effect, Response, Supported, TargetOf;
    var st := Run(limits, NEW_STUB, events);
    SnocParts(events, e);
    RunSnoc(limits, NEW_STUB, events, e);
    CommandedMotor(limits, st, e, TargetOf(e.action.frame));
  }

  /** The commands of a sequence of exchanges whose first is the n-th frame sent. */
  function CommandsOf(steps: seq<Exchange>, clock: nat -> real, n: nat): (events: seq<Event>)
    ensures |events| == |steps|
  {
    seq(|steps|, k requires 0 <= k < |steps| => Event(clock(n + k), Command(steps[k].frame)))
  }

  lemma CommandsOfCons(steps: seq<Exchange>, clock: nat -> real, n: nat)
    requires steps != []
    ensures CommandsOf(steps, clock, n)
        == [Event(clock(n), Command(steps[0].frame))] + CommandsOf(steps[1..], clock, n + 1)
  {
  }

  /** What the simulator answers to the last command of a history. */
  function AnswerTo(limits: Limits, events: seq<Event>): CanFrame
    requires events != [] && Last(events).action.Command?
  {
    var frame := Last(events).action.frame;
    Response(limits, MotorOf(Run(limits, NEW_STUB, events), TargetOf(frame)), frame,
      Run(limits, NEW_STUB, Init(events)).temperature)
  }

  predicate AllAnswerable(config: Config, steps: seq<Exchange>) {
    forall k :: 0 <= k < |steps| ==> Answerable(config, steps[k])
  }

  lemma AnswerableParts(config: Config, steps: seq<Exchange>)
    requires steps != [] && AllAnswerable(config, steps)
    ensures Answerable(config, steps[0]) && AllAnswerable(config, steps[1..])
  {
    hide Answerable;
  }

  /** A sequence of answerable exchanges over the simulator always succeeds and stays in step. */
  lemma {:induction false} PerformedInStep(
    limits: Limits, clock: nat -> real, patience: nat -> nat, config: Config,
    cache: Option<Feedback>, link: Link<World>, steps: seq<Exchange>)
    requires steps != [] && InStep(limits, clock, link) && AllAnswerable(config, steps)
    requires forall n :: patience(n) > 0
    ensures
      var x := Performed(StubPort(limits, clock, patience), config, cache, link, steps);
      var before, after := HistoryOf(link.log, clock), HistoryOf(x.link.log, clock);
      && x.result.Ok? && InStep(limits, clock, x.link)
      && after == before + CommandsOf(steps, clock, |before|)
      && x.result.value == AnswerTo(limits, after)
    decreases |steps|
  {
    hide InStep, Answerable, WellFormedAnswer, StubPort, AnswerTo, HistoryOf, AllAnswerable, Transceived,
      CommandsOf, CommTypeOf;
    var port := StubPort(limits, clock, patience);
    var before := HistoryOf(link.log, clock);
    AnswerableParts(config, steps);
    CommandsOfCons(steps, clock, |before|);
    NoCommands(clock, |before| + 1);
    var answer := ExchangeKeepsStep(limits, clock, patience, config, cache, link, steps[0]);
    var x := Transceived(port, config, cache, link, steps[0].frame, steps[0].expected);
    if |steps| > 1 {
      PerformedInStep(limits, clock, patience, config, x.cache, x.link, steps[1..]);
    } else {
      assert steps[1..] == [];
    }
  }

  lemma NoCommands(clock: nat -> real, n: nat)
    ensures CommandsOf([], clock, n) == []
  {
  }

  // ------------------------------------------------------------- whole clients

  /** A read over the simulator decodes to the register contents its history says. */
  lemma ReadAnswer(limits: Limits, events: seq<Event>, config: Config, index: u16)
    requires events != [] && Last(events).action == Command(ReadStep(config, index).frame)
    ensures
      var word := LastWritten(Init(events), config.motorId, index);
      ValueOf(AnswerTo(limits, events)) == if index == RUN_MODE then ByteWord(word[0]) else word
  {
    var m, h := config.motorId, config.hostId;
    WriteAnswerable(config, index, ZERO_WORD);
    IndexedCommandFields(READ_PARAM, m, h, index, ZERO_WORD);
    HistoryDeterminesRegisters(limits, events, m);
    hide Run, EnabledBy, IndexOf, ValueOf, TargetOf, CommTypeOf, HostOf, MakeId, IndexPayload,
      ParamResponseFrame, Supported, ByteWord;
    var s := MotorOf(Run(limits, NEW_STUB, events), m);
    assert LastWritten(events, m, index) == LastWritten(Init(events), m, index);
    ParamResponseRoundTrip(m, h, index, if index == RUN_MODE then ByteWord(s.runMode)
        else ParamOrZero(s.params, index));
  }

  lemma HistoryGrowsByOne(before: seq<Event>, steps: seq<Exchange>, clock: nat -> real)
    requires steps != []
    ensures
      var after := before + CommandsOf(steps, clock, |before|);
      && after != [] && Last(after).action == Command(steps[|steps| - 1].frame)
      && Init(after) == before + CommandsOf(steps[..|steps| - 1], clock, |before|)
  {
  }

  /**
    * A driver read over the simulator returns the word last written to that register of that
    * motor by any earlier command of any motor object, or zero.
    */
  lemma {:induction false} DriverReadsLastWritten(
    limits: Limits, clock: nat -> real, patience: nat -> nat, config: Config,
    cache: Option<Feedback>, link: Link<World>, index: u16)
    requires InStep(limits, clock, link) && forall n :: patience(n) > 0
    ensures
      var word := LastWritten(HistoryOf(link.log, clock), config.motorId, index);
      && (index != RUN_MODE ==>
            Call(StubPort(limits, clock, patience), config, cache, link, ReadParamFloat(index)).reply == WordRead(word))
      && Call(StubPort(limits, clock, patience), config, cache, link, ReadParamByte(index)).reply == ByteRead(word[0])
  {
    hide Performed, InStep, LastWritten, HistoryOf, ReadStep, ValueOf, StubPort, ByteWord;
    ReadExchange(limits, clock, patience, config, cache, link, index);
    ByteOfByteWord(LastWritten(HistoryOf(link.log, clock), config.motorId, index)[0]);
  }

  lemma ByteOfByteWord(b: u8)
    ensures ByteWord(b)[0] == b
  {
  }

  lemma ReadExchange(
    limits: Limits, clock: nat -> real, patience: nat -> nat, config: Config,
    cache: Option<Feedback>, link: Link<World>, index: u16)
    requires InStep(limits, clock, link) && forall n :: patience(n) > 0
    ensures
      var word := LastWritten(HistoryOf(link.log, clock), config.motorId, index);
      var x := Performed(StubPort(limits, clock, patience), config, cache, link, [ReadStep(config, index)]);
      x.result.Ok? && ValueOf(x.result.value) == if index == RUN_MODE then ByteWord(word[0]) else word
  {
    var before := HistoryOf(link.log, clock);
    var steps := [ReadStep(config, index)];
    WriteAnswerable(config, index, ZERO_WORD);
    hide Performed, InStep, LastWritten, AnswerTo, HistoryOf, ReadStep, Answerable, CommandsOf, ValueOf,
      StubPort, ByteWord;
    PerformedInStep(limits, clock, patience, config, cache, link, steps);
    HistoryGrowsByOne(before, steps, clock);
    assert steps[..0] == [];
    NoCommands(clock, |before|);
    assert before + [] == before;
    ReadAnswer(limits, before + CommandsOf(steps, clock, |before|), config, index);
  }

  lemma ModeAfterWrite(limits: Limits, before: seq<Event>, config: Config, mode: u8, clock: nat -> real)
    ensures
      var steps := StepsOf(config, Op.SetRunMode(mode));
      var after := before + CommandsOf(steps, clock, |before|);
      && LastWritten(Init(after), config.motorId, RUN_MODE) == ByteWord(mode)
      && ModeBy(after, config.motorId) == mode
      && !EnabledBy(after, config.motorId)
  {
    StopAnswerable(config, false);
    WriteAnswerable(config, RUN_MODE, ByteWord(mode));
    hide IndexOf, ValueOf, TargetOf, CommTypeOf, Supported, StopStep, WriteStep, ReadStep, Full;
    var steps := StepsOf(config, Op.SetRunMode(mode));
    var n := |before|;
    var one := before + [Event(clock(n), Command(steps[0].frame))];
    var two := one + [Event(clock(n + 1), Command(steps[1].frame))];
    var after := before + CommandsOf(steps, clock, n);
    SnocParts(before, Event(clock(n), Command(steps[0].frame)));
    SnocParts(one, Event(clock(n + 1), Command(steps[1].frame)));
    SnocParts(two, Event(clock(n + 2), Command(steps[2].frame)));
    assert after == two + [Event(clock(n + 2), Command(steps[2].frame))];
    assert !EnabledBy(one, config.motorId);
    assert !EnabledBy(two, config.motorId) && LastWritten(two, config.motorId, RUN_MODE) == ByteWord(mode);
  }

  /**
    * Changing the run mode over the simulator always succeeds, and leaves the motor disabled and
    * in the requested mode.
    */
  lemma {:induction false} SetRunModeEndsVerified(
    limits: Limits, clock: nat -> real, patience: nat -> nat, config: Config,
    cache: Option<Feedback>, link: Link<World>, mode: u8)
    requires InStep(limits, clock, link) && forall n :: patience(n) > 0
    ensures
      var c := Call(StubPort(limits, clock, patience), config, cache, link, Op.SetRunMode(mode));
      var s := MotorOf(c.link.state.stub, config.motorId);
      c.reply == Done && s.runMode == mode && !s.enabled
  {
    hide Performed, LastWritten, AnswerTo, HistoryOf, Answerable, CommandsOf, ValueOf, StubPort, Run, EnabledBy,
      ModeBy, StepsOf, Alternates;
    var before := HistoryOf(link.log, clock);
    var steps := StepsOf(config, Op.SetRunMode(mode));
    StepsAreAnswerable(config, Op.SetRunMode(mode));
    PerformedInStep(limits, clock, patience, config, cache, link, steps);
    HistoryGrowsByOne(before, steps, clock);
    ModeAfterWrite(limits, before, config, mode, clock);
    var after := before + CommandsOf(steps, clock, |before|);
    LastStepReads(config, mode);
    ReadAnswer(limits, after, config, RUN_MODE);
    HistoryDeterminesRegisters(limits, after, config.motorId);
  }

  lemma LastStepReads(config: Config, mode: u8)
    ensures
      var steps := StepsOf(config, Op.SetRunMode(mode));
      steps[|steps| - 1] == ReadStep(config, RUN_MODE)
    ensures ByteWord(ByteWord(mode)[0])[0] == mode
  {
    hide ReadStep, WriteStep, StopStep;
  }

  lemma LastExpectation(config: Config, op: Op)
    ensures
      var steps := StepsOf(config, op);
      steps[|steps| - 1].expected == (
        if op.SetRunMode? || op.GetRunMode? || op.ReadParamFloat? || op.ReadParamByte? then READ_PARAM else FEEDBACK)
  {
    hide StopFrame, WriteParamFrame, ReadParamFrame, MotionControlFrame, EnableFrame, SetMechanicalZeroFrame, ByteWord;
  }

  /** Every public call over the simulator succeeds and leaves the session in step. */
  lemma CallsSucceed(
    limits: Limits, clock: nat -> real, patience: nat -> nat, config: Config,
    cache: Option<Feedback>, link: Link<World>, op: Op)
    requires InStep(limits, clock, link) && forall n :: patience(n) > 0
    ensures
      var c := Call(StubPort(limits, clock, patience), config, cache, link, op);
      var before := HistoryOf(link.log, clock);
      && !c.reply.Failed? && InStep(limits, clock, c.link)
      && HistoryOf(c.link.log, clock) == before + CommandsOf(StepsOf(config, op), clock, |before|)
  {
    hide Performed, InStep, AnswerTo, HistoryOf, Answerable, CommandsOf, ValueOf, StubPort, StepsOf, ParseFeedback;
    var port := StubPort(limits, clock, patience);
    StepsAreAnswerable(config, op);
    PerformedInStep(limits, clock, patience, config, cache, link, StepsOf(config, op));
    FeedbackOps(port, config, cache, link, op);
    LastExpectation(config, op);
    if op.SetRunMode? {
      SetRunModeEndsVerified(limits, clock, patience, config, cache, link, op.mode);
    }
  }

  // ----------------------------------------------------------------- lockstep

  /**
    * Lockstep: whatever a client does with any set of motor objects sharing the simulator, no call
    * ever fails or times out, every frame sent is answered by exactly one response from the motor
    * it addressed, and after every call the queue is empty and the simulator is where the commands
    * sent so far put it.
    */
  lemma {:induction false} LockstepForever(
    limits: Limits, clock: nat -> real, patience: nat -> nat,
    fleet: nat -> Config, client: seq<Reply> -> Request, n: nat)
    requires forall n :: patience(n) > 0
    ensures
      var (s, replies) := Conducted(StubPort(limits, clock, patience), fleet, client, NewSession(NEW_WORLD), n);
      && InStep(limits, clock, s.link)
      && |replies| == n && forall k :: 0 <= k < n ==> !replies[k].Failed?
    decreases n
  {
    hide Call, StubPort;
    if n == 0 {
      hide *;
      FreshIsInStep(limits, clock);
      NothingConducted(StubPort(limits, clock, patience), fleet, client, NewSession(NEW_WORLD));
    } else {
      hide InStep;
      LockstepForever(limits, clock, patience, fleet, client, n - 1);
      var (s, replies) := Conducted(StubPort(limits, clock, patience), fleet, client, NewSession(NEW_WORLD), n - 1);
      var r := client(replies);
      CallsSucceed(limits, clock, patience, fleet(r.who), CacheOf(s, r.who), s.link, r.op);
    }
  }

  lemma FreshIsInStep(limits: Limits, clock: nat -> real)
    ensures InStep(limits, clock, NewSession(NEW_WORLD).link)
  {
  }

  lemma NothingConducted<S>(port: Port<S>, fleet: nat -> Config, client: seq<Reply> -> Request, s: Session<S>)
    ensures Conducted(port, fleet, client, s, 0) == (s, [])
  {
  }
}

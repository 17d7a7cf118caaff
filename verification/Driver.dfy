/** The synchronous request/response driver of one motor, over any transport. */
module Driver {
  import opened Bytes
  import opened Can
  import opened Protocol

  // --------------------------------------------------------------- transports

  datatype Heard = Frame(frame: CanFrame) | Silence | Broken

  /**
    * A transport with states S: what sending a frame and receiving one do, and how many receive
    * passes fit before the deadline of the n-th exchange.
    */
  datatype Port<!S> = Port(
    send: (S, CanFrame) -> (S, bool),
    receive: S -> (S, Heard),
    patience: nat -> nat)

  datatype Entry = SentOut(frame: CanFrame) | Got(frame: CanFrame)

  /** A transport in use, with the history of what passed through it. */
  datatype Link<S> = Link(state: S, exchanges: nat, log: seq<Entry>)

  function Submitted<S>(port: Port<S>, link: Link<S>, frame: CanFrame): (Link<S>, bool) {
    var (state, ok) := port.send(link.state, frame);
    (Link(state, link.exchanges + 1, link.log + [SentOut(frame)]), ok)
  }

  function Listened<S>(port: Port<S>, link: Link<S>): (Link<S>, Heard) {
    var (state, heard) := port.receive(link.state);
    (Link(state, link.exchanges, link.log + if heard.Frame? then [Got(heard.frame)] else []), heard)
  }

  // ------------------------------------------------------------------ driver

  datatype Config = Config(motorId: u8, hostId: u8, limits: Limits)

  datatype Error = Timeout | TransportFailure | Malformed | ModeMismatch(actual: u8)

  datatype Result<+T> = Ok(value: T) | Err(error: Error)

  datatype Exchanged<S> = Exchanged(result: Result<CanFrame>, cache: Option<Feedback>, link: Link<S>)

  function Cached(config: Config, cache: Option<Feedback>, frame: CanFrame): Option<Feedback> {
    var feedback := ParseFeedback(frame, config.limits);
    if feedback.Some? then feedback else cache
  }

  /** Waiting for the answer of the expected type, for at most `passes` receive calls. */
  function Await<S>(
      port: Port<S>, config: Config, cache: Option<Feedback>, link: Link<S>, expected: u8, passes: nat): Exchanged<S>
    decreases passes
  {
    if passes == 0 then Exchanged(Err(Timeout), cache, link)
    else
      var (next, heard) := Listened(port, link);
      match heard
      case Silence => Exchanged(Err(Timeout), cache, next)
      case Broken => Exchanged(Err(TransportFailure), cache, next)
      case Frame(frame) =>
        if SourceOf(frame) != config.motorId then Await(port, config, cache, next, expected, passes - 1)
        else if CommTypeOf(frame) == expected then Exchanged(Ok(frame), Cached(config, cache, frame), next)
        else Await(port, config, Cached(config, cache, frame), next, expected, passes - 1)
  }

  function Transceived<S>(
      port: Port<S>, config: Config, cache: Option<Feedback>, link: Link<S>, frame: CanFrame, expected: u8
    ): Exchanged<S> {
    var (next, ok) := Submitted(port, link, frame);
    if !ok then Exchanged(Err(TransportFailure), cache, next)
    else Await(port, config, cache, next, expected, port.patience(link.exchanges))
  }

  /** One frame to send and the communication type that answers it. */
  datatype Exchange = Exchange(frame: CanFrame, expected: u8)

  predicate WellFormedAnswer(frame: CanFrame) {
    frame.dlc >= 8
  }

  /** A sequence of exchanges, abandoned at the first that fails or is answered by a truncated frame. */
  function Performed<S>(
      port: Port<S>, config: Config, cache: Option<Feedback>, link: Link<S>, steps: seq<Exchange>): Exchanged<S>
    requires steps != []
    decreases |steps|
  {
    var x := Transceived(port, config, cache, link, steps[0].frame, steps[0].expected);
    if x.result.Err? then x
    else if !WellFormedAnswer(x.result.value) then x.(result := Err(Malformed))
    else if |steps| == 1 then x
    else Performed(port, config, x.cache, x.link, steps[1..])
  }

  /** The public calls. Float arguments are the words the code converts them to. */
  datatype Op =
    | Enable
    | Disable(clearFault: bool)
    | SetRunMode(mode: u8)
    | GetRunMode
    | ConfigureVelocityMode(currentLimit: Word, acceleration: Word)
    | SendVelocityCommand(target: Word)
    | SendPositionCspCommand(target: Word, speedLimit: Word)
    | SendMotionCommand(torque: real, position: real, velocity: real, kp: real, kd: real)
    | SetMechanicalZero
    | ReadParamFloat(index: u16)
    | ReadParamByte(index: u16)
    | WriteParamFloat(index: u16, value: Word)
    | WriteParamByte(index: u16, byte: u8)

  function WriteStep(config: Config, index: u16, value: Word): Exchange {
    Exchange(WriteParamFrame(config.motorId, config.hostId, index, value), FEEDBACK)
  }

  function ReadStep(config: Config, index: u16): Exchange {
    Exchange(ReadParamFrame(config.motorId, config.hostId, index), READ_PARAM)
  }

  function StopStep(config: Config, clearFault: bool): Exchange {
    Exchange(StopFrame(config.motorId, config.hostId, clearFault), FEEDBACK)
  }

  /** The exchanges a call consists of, in order. */
  function StepsOf(config: Config, op: Op): (steps: seq<Exchange>)
    ensures 1 <= |steps| <= 3
  {
    var m, h := config.motorId, config.hostId;
    match op
    case Enable => [Exchange(EnableFrame(m, h), FEEDBACK)]
    case Disable(clearFault) => [StopStep(config, clearFault)]
    case SetRunMode(mode) =>
      [StopStep(config, false), WriteStep(config, RUN_MODE, ByteWord(mode)), ReadStep(config, RUN_MODE)]
    case GetRunMode => [ReadStep(config, RUN_MODE)]
    case ConfigureVelocityMode(currentLimit, acceleration) =>
      [WriteStep(config, LIMIT_CUR, currentLimit), WriteStep(config, ACC_RAD, acceleration)]
    case SendVelocityCommand(target) => [WriteStep(config, SPD_REF, target)]
    case SendPositionCspCommand(target, speedLimit) =>
      [WriteStep(config, LIMIT_SPD, speedLimit), WriteStep(config, LOC_REF, target)]
    case SendMotionCommand(torque, position, velocity, kp, kd) =>
      [Exchange(MotionControlFrame(m, torque, position, velocity, kp, kd, config.limits), FEEDBACK)]
    case SetMechanicalZero => [StopStep(config, false), Exchange(SetMechanicalZeroFrame(m, h), FEEDBACK)]
    case ReadParamFloat(index) => [ReadStep(config, index)]
    case ReadParamByte(index) => [ReadStep(config, index)]
    case WriteParamFloat(index, value) => [WriteStep(config, index, value)]
    case WriteParamByte(index, byte) => [WriteStep(config, index, ByteWord(byte))]
  }

  datatype Reply =
    | Done
    | Reported(feedback: Feedback)
    | WordRead(word: Word)
    | ByteRead(byte: u8)
    | Failed(error: Error)

  /** What a call makes of its last answer. */
  function Concluded(config: Config, op: Op, result: Result<CanFrame>): Reply {
    if result.Err? then Failed(result.error)
    else
      var frame := result.value;
      match op
      case SetRunMode(mode) => if ValueOf(frame)[0] == mode then Done else Failed(ModeMismatch(ValueOf(frame)[0]))
      case GetRunMode => ByteRead(ValueOf(frame)[0])
      case ReadParamByte(_) => ByteRead(ValueOf(frame)[0])
      case ReadParamFloat(_) => WordRead(ValueOf(frame))
      case ConfigureVelocityMode(_, _) => Done
      case SetMechanicalZero => Done
      case _ =>
        var feedback := ParseFeedback(frame, config.limits);
        if feedback.Some? then Reported(feedback.value) else Failed(Malformed)
  }

  function FeedbackResult(config: Config, result: Result<CanFrame>): Result<Feedback> {
    if result.Err? then Err(result.error)
    else
      var feedback := ParseFeedback(result.value, config.limits);
      if feedback.Some? then Ok(feedback.value) else Err(Malformed)
  }

  datatype Called<S> = Called(reply: Reply, cache: Option<Feedback>, link: Link<S>)

  function Call<S>(port: Port<S>, config: Config, cache: Option<Feedback>, link: Link<S>, op: Op): Called<S> {
    var x := Performed(port, config, cache, link, StepsOf(config, op));
    Called(Concluded(config, op, x.result), x.cache, x.link)
  }

  // ----------------------------------------------------------------- objects

  class CanBus<S> {
    const port: Port<S>
    var link: Link<S>

    constructor (port: Port<S>, link: Link<S>)
      ensures this.port == port && this.link == link
    {
      this.port := port;
      this.link := link;
    }

    method Send(frame: CanFrame) returns (ok: bool)
      modifies this
      ensures (link, ok) == Submitted(port, old(link), frame)
    {
      var (state, sent) := port.send(link.state, frame);
      link := Link(state, link.exchanges + 1, link.log + [SentOut(frame)]);
      ok := sent;
    }

    method Receive() returns (heard: Heard)
      modifies this
      ensures (link, heard) == Listened(port, old(link))
    {
      var (state, h) := port.receive(link.state);
      heard := h;
      link := Link(state, link.exchanges, link.log + if heard.Frame? then [Got(heard.frame)] else []);
    }
  }

  class RobstrideMotor<S> {
    const can: CanBus<S>
    const config: Config
    var lastFeedback: Option<Feedback>

    constructor (can: CanBus<S>, config: Config)
      ensures this.can == can && this.config == config && lastFeedback == None
    {
      this.can := can;
      this.config := config;
      lastFeedback := None;
    }

    method Transceive(frame: CanFrame, expected: u8) returns (r: Result<CanFrame>)
      modifies this, can
      ensures Exchanged(r, lastFeedback, can.link)
          == Transceived(can.port, config, old(lastFeedback), old(can.link), frame, expected)
    {
      hide ParseFeedback, SourceOf, CommTypeOf;
      var passes := can.port.patience(can.link.exchanges);
      var ok := can.Send(frame);
      if !ok {
        return Err(TransportFailure);
      }
      ghost var start := can.link;
      while true
        invariant Await(can.port, config, lastFeedback, can.link, expected, passes)
               == Await(can.port, config, old(lastFeedback), start, expected,
                   can.port.patience(old(can.link).exchanges))
        decreases passes
      {
        if passes == 0 {
          return Err(Timeout);
        }
        passes := passes - 1;
        var received := can.Receive();
        match received {
          case Silence => return Err(Timeout);
          case Broken => return Err(TransportFailure);
          case Frame(answer) =>
            if SourceOf(answer) == config.motorId {
              var feedback := ParseFeedback(answer, config.limits);
              if feedback.Some? {
                lastFeedback := feedback;
              }
              if CommTypeOf(answer) == expected {
                return Ok(answer);
              }
            }
        }
      }
    }

    /** The reply of a call that returns feedback. */
    static function FeedbackReply(r: Result<Feedback>): Reply {
      if r.Ok? then Reported(r.value) else Failed(r.error)
    }

    static function VoidReply(r: Result<()>): Reply {
      if r.Ok? then Done else Failed(r.error)
    }

    method TransceiveFeedback(frame: CanFrame) returns (r: Result<Feedback>)
      modifies this, can
      ensures
        var x := Performed(can.port, config, old(lastFeedback), old(can.link), [Exchange(frame, FEEDBACK)]);
        && lastFeedback == x.cache && can.link == x.link
        && r == FeedbackResult(config, x.result)
    {
      hide Await;
      var response := Transceive(frame, FEEDBACK);
      AnswerHasType(can.port, config, old(lastFeedback), old(can.link), frame, FEEDBACK);
      if response.Err? {
        return Err(response.error);
      }
      var feedback := ParseFeedback(response.value, config.limits);
      if feedback.None? {
        return Err(Malformed);
      }
      r := Ok(feedback.value);
    }

    method Enable() returns (r: Result<Feedback>)
      modifies this, can
      ensures Called(FeedbackReply(r), lastFeedback, can.link)
          == Call(can.port, config, old(lastFeedback), old(can.link), Op.Enable)
    {
      hide Performed;
      FeedbackOps(can.port, config, lastFeedback, can.link, Op.Enable);
      r := TransceiveFeedback(EnableFrame(config.motorId, config.hostId));
    }

    method Disable(clearFault: bool) returns (r: Result<Feedback>)
      modifies this, can
      ensures Called(FeedbackReply(r), lastFeedback, can.link)
           == Call(can.port, config, old(lastFeedback), old(can.link), Op.Disable(clearFault))
    {
      hide Performed;
      FeedbackOps(can.port, config, lastFeedback, can.link, Op.Disable(clearFault));
      r := TransceiveFeedback(StopFrame(config.motorId, config.hostId, clearFault));
    }

    method WriteParam(index: u16, value: Word) returns (r: Result<Feedback>)
      modifies this, can
      ensures Called(FeedbackReply(r), lastFeedback, can.link)
           == Call(can.port, config, old(lastFeedback), old(can.link), WriteParamFloat(index, value))
    {
      hide Performed;
      FeedbackOps(can.port, config, lastFeedback, can.link, WriteParamFloat(index, value));
      r := TransceiveFeedback(WriteParamFrame(config.motorId, config.hostId, index, value));
    }

    method ReadParam(index: u16) returns (r: Result<Word>)
      modifies this, can
      ensures
        var x := Performed(can.port, config, old(lastFeedback), old(can.link), [ReadStep(config, index)]);
        && lastFeedback == x.cache && can.link == x.link
        && r == (if x.result.Err? then Err(x.result.error) else Ok(ValueOf(x.result.value)))
    {
      hide Await;
      var response := Transceive(ReadParamFrame(config.motorId, config.hostId, index), READ_PARAM);
      AnswerHasType(can.port, config, old(lastFeedback), old(can.link),
        ReadParamFrame(config.motorId, config.hostId, index), READ_PARAM);
      if response.Err? {
        return Err(response.error);
      }
      var parsed := ParseParamResponse(response.value);
      if parsed.None? {
        return Err(Malformed);
      }
      r := Ok(parsed.value.data);
    }

    method SendVelocityCommand(target: Word) returns (r: Result<Feedback>)
      modifies this, can
      ensures Called(FeedbackReply(r), lastFeedback, can.link)
           == Call(can.port, config, old(lastFeedback), old(can.link), Op.SendVelocityCommand(target))
    {
      hide Performed;
      r := WriteParam(SPD_REF, target);
    }

    method GetRunMode() returns (r: Result<u8>)
      modifies this, can
      ensures Called(if r.Ok? then ByteRead(r.value) else Failed(r.error), lastFeedback, can.link)
           == Call(can.port, config, old(lastFeedback), old(can.link), Op.GetRunMode)
    {
      hide Performed;
      var word := ReadParam(RUN_MODE);
      r := if word.Ok? then Ok(word.value[0]) else Err(word.error);
    }

    method SetRunMode(mode: u8) returns (r: Result<()>)
      modifies this, can
      ensures Called(VoidReply(r), lastFeedback, can.link)
           == Call(can.port, config, old(lastFeedback), old(can.link), Op.SetRunMode(mode))
    {
      hide Transceived, ParseFeedback, ValueOf, StopFrame, WriteParamFrame, ReadParamFrame, ByteWord;
      ghost var port, link, cache := can.port, can.link, lastFeedback;
      ghost var steps := StepsOf(config, Op.SetRunMode(mode));
      PerformedInTurn(port, config, cache, link, steps);
      FeedbackOps(port, config, cache, link, Op.Disable(false));
      var stopped := Disable(false);
      if stopped.Err? {
        return Err(stopped.error);
      }
      PerformedInTurn(port, config, lastFeedback, can.link, steps[1..]);
      FeedbackOps(port, config, lastFeedback, can.link, WriteParamFloat(RUN_MODE, ByteWord(mode)));
      var written := WriteParam(RUN_MODE, ByteWord(mode));
      if written.Err? {
        return Err(written.error);
      }
      var actual := GetRunMode();
      if actual.Err? {
        return Err(actual.error);
      }
      if actual.value != mode {
        return Err(ModeMismatch(actual.value));
      }
      r := Ok(());
    }

    method ConfigureVelocityMode(currentLimit: Word, acceleration: Word) returns (r: Result<()>)
      modifies this, can
      ensures Called(VoidReply(r), lastFeedback, can.link)
           == Call(can.port, config, old(lastFeedback), old(can.link),
               Op.ConfigureVelocityMode(currentLimit, acceleration))
    {
      hide Transceived, ParseFeedback, ValueOf, StopFrame, WriteParamFrame, SetMechanicalZeroFrame;
      PerformedInTurn(can.port, config, lastFeedback, can.link,
        StepsOf(config, Op.ConfigureVelocityMode(currentLimit, acceleration)));
      FeedbackOps(can.port, config, lastFeedback, can.link, WriteParamFloat(LIMIT_CUR, currentLimit));
      var first := WriteParam(LIMIT_CUR, currentLimit);
      if first.Err? {
        return Err(first.error);
      }
      FeedbackOps(can.port, config, lastFeedback, can.link, WriteParamFloat(ACC_RAD, acceleration));
      var second := WriteParam(ACC_RAD, acceleration);
      r := if second.Ok? then Ok(()) else Err(second.error);
    }

    method SendPositionCspCommand(position: Word, speedLimit: Word) returns (r: Result<Feedback>)
      modifies this, can
      ensures Called(FeedbackReply(r), lastFeedback, can.link)
           == Call(can.port, config, old(lastFeedback), old(can.link), Op.SendPositionCspCommand(position, speedLimit))
    {
      hide Transceived, ParseFeedback, ValueOf, StopFrame, WriteParamFrame, SetMechanicalZeroFrame;
      PerformedInTurn(can.port, config, lastFeedback, can.link,
        StepsOf(config, Op.SendPositionCspCommand(position, speedLimit)));
      FeedbackOps(can.port, config, lastFeedback, can.link, WriteParamFloat(LIMIT_SPD, speedLimit));
      var first := WriteParam(LIMIT_SPD, speedLimit);
      if first.Err? {
        return Err(first.error);
      }
      r := WriteParam(LOC_REF, position);
    }

    method SetMechanicalZero() returns (r: Result<()>)
      modifies this, can
      ensures Called(VoidReply(r), lastFeedback, can.link)
           == Call(can.port, config, old(lastFeedback), old(can.link), Op.SetMechanicalZero)
    {
      hide Transceived, ParseFeedback, ValueOf, StopFrame, WriteParamFrame, SetMechanicalZeroFrame;
      PerformedInTurn(can.port, config, lastFeedback, can.link, StepsOf(config, Op.SetMechanicalZero));
      FeedbackOps(can.port, config, lastFeedback, can.link, Op.SetMechanicalZero);
      FeedbackOps(can.port, config, lastFeedback, can.link, Op.Disable(false));
      var first := Disable(false);
      if first.Err? {
        return Err(first.error);
      }
      var second := TransceiveFeedback(SetMechanicalZeroFrame(config.motorId, config.hostId));
      r := if second.Ok? then Ok(()) else Err(second.error);
    }

    method SendMotionCommand(
        torque: real, position: real, velocity: real, kp: real, kd: real) returns (r: Result<Feedback>)
      modifies this, can
      ensures Called(FeedbackReply(r), lastFeedback, can.link)
           == Call(can.port, config, old(lastFeedback), old(can.link),
               Op.SendMotionCommand(torque, position, velocity, kp, kd))
    {
      hide Performed;
      FeedbackOps(can.port, config, lastFeedback, can.link, Op.SendMotionCommand(torque, position, velocity, kp, kd));
      r := TransceiveFeedback(MotionControlFrame(config.motorId, torque, position, velocity, kp, kd, config.limits));
    }
  }

  // -------------------------------------------------- what the objects rely on

  /** A successful wait ends with a frame of the expected type from this motor. */
  lemma {:induction false} AwaitHasType<S>(
      port: Port<S>, config: Config, cache: Option<Feedback>, link: Link<S>, expected: u8, passes: nat)
    ensures
      var x := Await(port, config, cache, link, expected, passes);
      x.result.Ok? ==> CommTypeOf(x.result.value) == expected && SourceOf(x.result.value) == config.motorId
    decreases passes
  {
    hide CommTypeOf, SourceOf, Cached;
    if passes > 0 {
      var (next, heard) := Listened(port, link);
      if heard.Frame? {
        AwaitHasType(port, config, cache, next, expected, passes - 1);
        AwaitHasType(port, config, Cached(config, cache, heard.frame), next, expected, passes - 1);
      }
    }
  }

  lemma AnswerHasType<S>(
      port: Port<S>, config: Config, cache: Option<Feedback>, link: Link<S>, frame: CanFrame, expected: u8)
    ensures
      var x := Transceived(port, config, cache, link, frame, expected);
      x.result.Ok? ==> CommTypeOf(x.result.value) == expected && SourceOf(x.result.value) == config.motorId
  {
    hide CommTypeOf, SourceOf, Await;
    AwaitHasType(port, config, cache, Submitted(port, link, frame).0, expected, port.patience(link.exchanges));
  }

  /** A sequence of exchanges is its first exchange followed by the rest. */
  lemma PerformedInTurn<S>(port: Port<S>, config: Config, cache: Option<Feedback>, link: Link<S>, steps: seq<Exchange>)
    requires |steps| > 1
    ensures
      var first := Performed(port, config, cache, link, [steps[0]]);
      Performed(port, config, cache, link, steps)
      == if first.result.Err? then first else Performed(port, config, first.cache, first.link, steps[1..])
  {
    hide Transceived;
  }

  /** The last answer of a performed sequence is well formed and of the last expected type. */
  lemma {:induction false} LastAnswer<S>(
      port: Port<S>, config: Config, cache: Option<Feedback>, link: Link<S>, steps: seq<Exchange>)
    requires steps != []
    ensures
      var x := Performed(port, config, cache, link, steps);
      x.result.Ok? ==>
        && WellFormedAnswer(x.result.value)
        && CommTypeOf(x.result.value) == steps[|steps| - 1].expected && SourceOf(x.result.value) == config.motorId
    decreases |steps|
  {
    hide Transceived, CommTypeOf, SourceOf, WellFormedAnswer;
    var x := Transceived(port, config, cache, link, steps[0].frame, steps[0].expected);
    AnswerHasType(port, config, cache, link, steps[0].frame, steps[0].expected);
    if |steps| > 1 {
      LastAnswer(port, config, x.cache, x.link, steps[1..]);
    }
  }

  lemma FeedbackOps<S>(port: Port<S>, config: Config, cache: Option<Feedback>, link: Link<S>, op: Op)
    ensures
      var steps := StepsOf(config, op);
      var x := Performed(port, config, cache, link, steps);
      x.result.Ok? && steps[|steps| - 1].expected == FEEDBACK ==> ParseFeedback(x.result.value, config.limits).Some?
  {
    hide Performed, CommTypeOf, SourceOf, StepsOf;
    LastAnswer(port, config, cache, link, StepsOf(config, op));
  }
}

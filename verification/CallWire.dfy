/** Every call of the driver over any transport: the bytes it sends, how it fails, what it replies and caches. */
module CallWire {
  import opened Bytes
  import opened Can
  import opened Protocol
  import opened Wire
  import opened StubTrace
  import opened Driver
  import opened AnyBus
  import opened Fleet

  /** The frames sent in a log. */
  function SentIn(log: seq<Entry>): seq<CanFrame> {
    if log == [] then []
    else SentIn(Init(log)) + if Last(log).SentOut? then [Last(log).frame] else []
  }

  function FramesOf(steps: seq<Exchange>): (frames: seq<CanFrame>)
    ensures |frames| == |steps|
  {
    seq(|steps|, k requires 0 <= k < |steps| => steps[k].frame)
  }

  lemma LogParts(log: seq<Entry>, frame: CanFrame)
    ensures SentIn(log + [SentOut(frame)]) == SentIn(log) + [frame] && HeardIn(log + [SentOut(frame)]) == HeardIn(log)
    ensures SentIn(log + [Got(frame)]) == SentIn(log) && HeardIn(log + [Got(frame)]) == HeardIn(log) + [frame]
  {
    SnocParts(log, SentOut(frame));
    SnocParts(log, Got(frame));
  }

  lemma {:induction false} HeardsAdded(log: seq<Entry>, heard: seq<CanFrame>)
    ensures SentIn(log + Heards(heard)) == SentIn(log)
    ensures HeardIn(log + Heards(heard)) == HeardIn(log) + heard
    ensures heard != [] ==> (log + Heards(heard)) != [] && Last(log + Heards(heard)) == Got(Last(heard))
    decreases |heard|
  {
    if heard == [] {
      assert Heards(heard) == [];
      assert log + [] == log;
    } else {
      var init := Init(heard);
      HeardsAdded(log, init);
      LogParts(log + Heards(init), Last(heard));
      HeardsSnoc(log, heard);
      hide Heards, SentIn, HeardIn;
      assert heard == init + [Last(heard)];
    }
  }

  lemma HeardsSnoc(log: seq<Entry>, heard: seq<CanFrame>)
    requires heard != []
    ensures log + Heards(heard) == (log + Heards(Init(heard))) + [Got(Last(heard))]
  {
    assert Heards(heard) == Heards(Init(heard)) + [Got(Last(heard))];
  }

  // ----------------------------------------------------------- one exchange

  /** The link after k receives. */
  function ListenedTimes<S>(port: Port<S>, link: Link<S>, k: nat): Link<S>
    decreases k
  {
    if k == 0 then link else ListenedTimes(port, Listened(port, link).0, k - 1)
  }

  /** Receive number k, counted from zero, brings a frame that is not the answer. */
  predicate PassesOver<S>(port: Port<S>, config: Config, link: Link<S>, expected: u8, k: nat) {
    var heard := Listened(port, ListenedTimes(port, link, k)).1;
    heard.Frame? && !Matches(config, expected, heard.frame)
  }

  /**
    * How a wait ends on any transport: after k receives that bring other frames it is out of passes
    * and times out, or the next receive decides it: silence is a timeout, an error a failure of the
    * transport, and a frame of the expected type from this motor the result.
    */
  lemma {:induction false} AwaitOutcome<S>(
    port: Port<S>, config: Config, cache: Option<Feedback>, link: Link<S>, expected: u8, passes: nat)
    returns (k: nat)
    ensures k <= passes && forall j :: 0 <= j < k ==> PassesOver(port, config, link, expected, j)
    ensures
      var x := Await(port, config, cache, link, expected, passes);
      var at := ListenedTimes(port, link, k);
      if k == passes then x.result == Err(Timeout) && x.link == at
      else
        x.link == Listened(port, at).0 &&
        match Listened(port, at).1
        case Silence => x.result == Err(Timeout)
        case Broken => x.result == Err(TransportFailure)
        case Frame(frame) => Matches(config, expected, frame) && x.result == Ok(frame)
    decreases passes
  {
    hide SourceOf, CommTypeOf, Cached;
    k := 0;
    if passes > 0 {
      var (next, heard) := Listened(port, link);
      if heard.Frame? && !Matches(config, expected, heard.frame) {
        var after := if SourceOf(heard.frame) == config.motorId then Cached(config, cache, heard.frame) else cache;
        var more := AwaitOutcome(port, config, after, next, expected, passes - 1);
        k := 1 + more;
        forall j | 0 <= j < k
          ensures PassesOver(port, config, link, expected, j)
        {
          if j > 0 {
            assert PassesOver(port, config, next, expected, j - 1);
          }
        }
      }
    }
  }

  /** A send that fails ends the exchange: nothing is listened to and nothing cached. */
  lemma FailedSendEnds<S>(
    port: Port<S>, config: Config, cache: Option<Feedback>, link: Link<S>, frame: CanFrame, expected: u8)
    requires !port.send(link.state, frame).1
    ensures Transceived(port, config, cache, link, frame, expected)
      == Exchanged(Err(TransportFailure), cache,
           Link(port.send(link.state, frame).0, link.exchanges + 1, link.log + [SentOut(frame)]))
  {
  }

  // --------------------------------------------------------------- whole calls

  /**
    * What a sequence of exchanges does on any transport: its frames go out up to some exchange, which
    * decides the result: its own failure, a truncated answer, or, for the last, its answer. The frames
    * heard decide the cache.
    */
  lemma {:induction false} PerformedOnAnyBus<S>(
    port: Port<S>, config: Config, cache: Option<Feedback>, link: Link<S>, steps: seq<Exchange>)
    returns (m: nat, heard: seq<CanFrame>, cached: Option<Feedback>, before: Link<S>)
    requires steps != []
    ensures 1 <= m <= |steps|
    ensures
      var x := Performed(port, config, cache, link, steps);
      && SentIn(x.link.log) == SentIn(link.log) + FramesOf(steps[..m])
      && HeardIn(x.link.log) == HeardIn(link.log) + heard
      && x.cache == LatestFeedback(config, cache, heard)
      && (x.result.Ok? ==>
            && m == |steps| && heard != [] && x.link.log != [] && Last(x.link.log) == Got(x.result.value)
            && x.result.value == Last(heard) && Matches(config, Last(steps).expected, x.result.value))
    ensures
      var x := Performed(port, config, cache, link, steps);
      var last := Transceived(port, config, cached, before, steps[m - 1].frame, steps[m - 1].expected);
      && x.link == last.link && x.cache == last.cache
      && x.result == if last.result.Err? || WellFormedAnswer(last.result.value) then last.result else Err(Malformed)
    decreases |steps|
  {
    hide Await, LatestFeedback, Matches, WellFormedAnswer, SentIn, HeardIn, Heards, FramesOf, NoneMatches;
    var (next, ok) := Submitted(port, link, steps[0].frame);
    var x := Transceived(port, config, cache, link, steps[0].frame, steps[0].expected);
    m, cached, before := 1, cache, link;
    LogParts(link.log, steps[0].frame);
    FirstFrames(steps, 0);
    if !ok {
      heard := [];
      NothingHeard(config, cache);
      assert HeardIn(link.log) + [] == HeardIn(link.log);
    } else {
      heard := AwaitTranscript(port, config, cache, next, steps[0].expected, port.patience(link.exchanges));
      HeardsAdded(next.log, heard);
      if x.result.Ok? && WellFormedAnswer(x.result.value) && |steps| > 1 {
        var more, later, c, b := PerformedOnAnyBus(port, config, x.cache, x.link, steps[1..]);
        FirstFrames(steps, more);
        LatestOfBoth(config, cache, heard, later);
        assert SentIn(link.log) + [steps[0].frame] + FramesOf(steps[1..][..more])
            == SentIn(link.log) + FramesOf(steps[..1 + more]);
        assert HeardIn(link.log) + heard + later == HeardIn(link.log) + (heard + later);
        m, cached, before := 1 + more, c, b;
        assert later != [] ==> Last(heard + later) == Last(later);
        heard := heard + later;
      }
    }
  }

  lemma FirstFrames(steps: seq<Exchange>, more: nat)
    requires more < |steps|
    ensures FramesOf(steps[..1]) == [steps[0].frame]
    ensures FramesOf(steps[..1 + more]) == [steps[0].frame] + FramesOf(steps[1..][..more])
    ensures more > 0 ==> steps[1..][more - 1] == steps[more]
    ensures |steps| > 1 ==> Last(steps[1..]) == Last(steps)
  {
  }

  lemma {:induction false} LatestOfBoth(
      config: Config, cache: Option<Feedback>, a: seq<CanFrame>, b: seq<CanFrame>)
    ensures LatestFeedback(config, LatestFeedback(config, cache, a), b) == LatestFeedback(config, cache, a + b)
    decreases |b|
  {
    hide SourceOf, ParseFeedback;
    if b == [] {
      assert a + b == a;
    } else {
      assert (a + b)[..|a + b| - 1] == a + b[..|b| - 1];
      LatestOfBoth(config, cache, a, b[..|b| - 1]);
    }
  }

  /** How many frames a call sends if nothing fails. */
  function CommandCount(op: Op): nat {
    if op.SetRunMode? then 3
    else if op.ConfigureVelocityMode? || op.SendPositionCspCommand? || op.SetMechanicalZero? then 2
    else 1
  }

  /** The frames of a call, byte by byte, from the first up to some point. */
  predicate OnWire(config: Config, op: Op, sent: seq<CanFrame>) {
    var m, h, l := config.motorId, config.hostId, config.limits;
    1 <= |sent| <= CommandCount(op) &&
    match op
    case Enable => IsFrame(sent[0], 0x03, h, m, [0, 0, 0, 0, 0, 0, 0, 0])
    case Disable(clearFault) => IsFrame(sent[0], 0x04, h, m, [if clearFault then 1 else 0, 0, 0, 0, 0, 0, 0, 0])
    case SetRunMode(mode) =>
      && IsFrame(sent[0], 0x04, h, m, [0, 0, 0, 0, 0, 0, 0, 0])
      && (|sent| > 1 ==> IsIndexed(sent[1], 0x12, h, m, 0x7005, [mode, 0, 0, 0]))
      && (|sent| > 2 ==> IsIndexed(sent[2], 0x11, h, m, 0x7005, [0, 0, 0, 0]))
    case GetRunMode => IsIndexed(sent[0], 0x11, h, m, 0x7005, [0, 0, 0, 0])
    case ConfigureVelocityMode(currentLimit, acceleration) =>
      && IsIndexed(sent[0], 0x12, h, m, 0x7018, currentLimit)
      && (|sent| > 1 ==> IsIndexed(sent[1], 0x12, h, m, 0x7022, acceleration))
    case SendVelocityCommand(target) => IsIndexed(sent[0], 0x12, h, m, 0x700A, target)
    case SendPositionCspCommand(target, speedLimit) =>
      && IsIndexed(sent[0], 0x12, h, m, 0x7017, speedLimit)
      && (|sent| > 1 ==> IsIndexed(sent[1], 0x12, h, m, 0x7016, target))
    case SendMotionCommand(torque, position, velocity, kp, kd) =>
      && sent[0].dlc == 8 && sent[0].id / 0x100_0000 == 0x01 && sent[0].id % 0x100 == m
      && IsCode(sent[0].id / 0x100 % 0x1_0000, torque, -l.torque, l.torque)
      && IsCode(PairAt(sent[0], 0), position, -l.position, l.position)
      && IsCode(PairAt(sent[0], 1), velocity, -l.velocity, l.velocity)
      && IsCode(PairAt(sent[0], 2), kp, 0.0, l.kpMax)
      && IsCode(PairAt(sent[0], 3), kd, 0.0, l.kdMax)
    case SetMechanicalZero =>
      && IsFrame(sent[0], 0x04, h, m, [0, 0, 0, 0, 0, 0, 0, 0])
      && (|sent| > 1 ==> IsFrame(sent[1], 0x06, h, m, [1, 0, 0, 0, 0, 0, 0, 0]))
    case ReadParamFloat(index) => IsIndexed(sent[0], 0x11, h, m, index, [0, 0, 0, 0])
    case ReadParamByte(index) => IsIndexed(sent[0], 0x11, h, m, index, [0, 0, 0, 0])
    case WriteParamFloat(index, value) => IsIndexed(sent[0], 0x12, h, m, index, value)
    case WriteParamByte(index, byte) => IsIndexed(sent[0], 0x12, h, m, index, [byte, 0, 0, 0])
  }

  lemma StepsOnWire(config: Config, op: Op, n: nat)
    requires 1 <= n <= |StepsOf(config, op)|
    ensures |StepsOf(config, op)| == CommandCount(op)
    ensures OnWire(config, op, FramesOf(StepsOf(config, op)[..n]))
  {
    var m, h := config.motorId, config.hostId;
    hide IsFrame, IsIndexed, IsCode, PairAt, EnableFrame, StopFrame, SetMechanicalZeroFrame, ReadParamFrame,
      WriteParamFrame, MotionControlFrame, ByteWord;
    match op
    case SetRunMode(mode) =>
      CommandLayouts(m, h, false, 0x7005, ZERO_WORD, mode);
    case Disable(clearFault) => CommandLayouts(m, h, clearFault, 0, ZERO_WORD, 0);
    case GetRunMode => CommandLayouts(m, h, false, 0x7005, ZERO_WORD, 0);
    case ConfigureVelocityMode(currentLimit, acceleration) =>
      CommandLayouts(m, h, false, 0x7018, currentLimit, 0);
      CommandLayouts(m, h, false, 0x7022, acceleration, 0);
    case SendVelocityCommand(target) => CommandLayouts(m, h, false, 0x700A, target, 0);
    case SendPositionCspCommand(target, speedLimit) =>
      CommandLayouts(m, h, false, 0x7017, speedLimit, 0);
      CommandLayouts(m, h, false, 0x7016, target, 0);
    case SendMotionCommand(torque, position, velocity, kp, kd) =>
      MotionLayout(m, torque, position, velocity, kp, kd, config.limits);
    case ReadParamFloat(index) => CommandLayouts(m, h, false, index, ZERO_WORD, 0);
    case ReadParamByte(index) => CommandLayouts(m, h, false, index, ZERO_WORD, 0);
    case WriteParamFloat(index, value) => CommandLayouts(m, h, false, index, value, 0);
    case WriteParamByte(index, byte) => CommandLayouts(m, h, false, index, ZERO_WORD, byte);
    case _ => CommandLayouts(m, h, false, 0, ZERO_WORD, 0);
  }

  /** What a call makes of its last answer, in plain bytes. */
  predicate Fits(config: Config, op: Op, answer: CanFrame, reply: Reply) {
    match op
    case SetRunMode(mode) => reply == if answer.data[4] == mode then Done else Failed(ModeMismatch(answer.data[4]))
    case GetRunMode => reply == ByteRead(answer.data[4])
    case ReadParamByte(_) => reply == ByteRead(answer.data[4])
    case ReadParamFloat(_) => reply == WordRead([answer.data[4], answer.data[5], answer.data[6], answer.data[7]])
    case ConfigureVelocityMode(_, _) => reply == Done
    case SetMechanicalZero => reply == Done
    case _ => reply.Reported? && ParseFeedback(answer, config.limits) == Some(reply.feedback)
  }

  /** The call did not get to its last answer. */
  predicate Aborted(reply: Reply) {
    reply == Failed(Timeout) || reply == Failed(TransportFailure) || reply == Failed(Malformed)
  }

  /** The type that answers the last command of a call. */
  function AnswerType(op: Op): int {
    if op.SetRunMode? || op.GetRunMode? || op.ReadParamFloat? || op.ReadParamByte? then 0x11 else 0x02
  }

  /**
    * Every call on any transport, whatever comes back: the frames it sends, byte by byte, are the first
    * ones of the call in order, and all of them unless it fails; it fails only by a timeout, a failed
    * transport or a truncated answer; otherwise the last frame it heard is an untruncated answer of
    * this motor and of the right type, and the reply is what that answer says.
    */
  lemma {:induction false} CallOnAnyBus<S>(
    port: Port<S>, config: Config, cache: Option<Feedback>, link: Link<S>, op: Op)
    returns (sent: seq<CanFrame>, heard: seq<CanFrame>)
    ensures
      var c := Call(port, config, cache, link, op);
      && SentIn(c.link.log) == SentIn(link.log) + sent && OnWire(config, op, sent)
      && HeardIn(c.link.log) == HeardIn(link.log) + heard
      && c.cache == LatestFeedback(config, cache, heard)
      && (!Aborted(c.reply) ==>
            && |sent| == CommandCount(op)
            && heard != [] && c.link.log != [] && Last(c.link.log) == Got(Last(heard))
            && SourceOf(Last(heard)) == config.motorId && CommTypeOf(Last(heard)) == AnswerType(op)
            && Last(heard).dlc >= 8
            && Fits(config, op, Last(heard), c.reply))
  {
    hide Performed, StepsOf, OnWire, SentIn, HeardIn, LatestFeedback, FramesOf, ParseFeedback, SourceOf, CommTypeOf,
      Transceived;
    var steps := StepsOf(config, op);
    var m, h, _, _ := PerformedOnAnyBus(port, config, cache, link, steps);
    sent, heard := FramesOf(steps[..m]), h;
    StepsOnWire(config, op, m);
    LastAnswer(port, config, cache, link, steps);
    FeedbackOps(port, config, cache, link, op);
    LastExpectation(config, op);
    var x := Performed(port, config, cache, link, steps);
    if x.result.Err? {
      ErrorsOfPerformed(port, config, cache, link, steps);
    } else {
      assert steps[..|steps|] == steps;
    }
  }

  lemma {:induction false} ErrorsOfPerformed<S>(
    port: Port<S>, config: Config, cache: Option<Feedback>, link: Link<S>, steps: seq<Exchange>)
    requires steps != []
    ensures
      var x := Performed(port, config, cache, link, steps);
      x.result.Err? ==> x.result.error in {Timeout, TransportFailure, Malformed}
    decreases |steps|
  {
    hide Await, WellFormedAnswer;
    var next := Submitted(port, link, steps[0].frame).0;
    var passes := port.patience(link.exchanges);
    var k := AwaitOutcome(port, config, cache, next, steps[0].expected, passes);
    var x := Transceived(port, config, cache, link, steps[0].frame, steps[0].expected);
    if |steps| > 1 {
      ErrorsOfPerformed(port, config, x.cache, x.link, steps[1..]);
    }
  }

  /** A call leaves the latest own feedback it heard in its own object's cache, and no other object's cache changes. */
  lemma {:induction false} ServedCaches<S>(
      port: Port<S>, fleet: nat -> Config, s: Session<S>, r: Request, other: nat)
    returns (heard: seq<CanFrame>)
    ensures
      var after := Served(port, fleet, s, r).0;
      && HeardIn(after.link.log) == HeardIn(s.link.log) + heard
      && CacheOf(after, other)
         == if other == r.who then LatestFeedback(fleet(r.who), CacheOf(s, r.who), heard) else CacheOf(s, other)
  {
    hide Call, HeardIn, SentIn, OnWire, Fits, LatestFeedback;
    var sent;
    sent, heard := CallOnAnyBus(port, fleet(r.who), CacheOf(s, r.who), s.link, r.op);
    CacheStays(fleet(r.who), CacheOf(s, r.who), heard);
  }

  lemma {:induction false} CacheStays(config: Config, cache: Option<Feedback>, heard: seq<CanFrame>)
    ensures cache.Some? ==> LatestFeedback(config, cache, heard).Some?
    decreases |heard|
  {
    hide SourceOf, ParseFeedback;
    if heard != [] {
      CacheStays(config, cache, heard[..|heard| - 1]);
    }
  }
}

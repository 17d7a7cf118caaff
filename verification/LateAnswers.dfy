/**
  * What one expired exchange does to the driver over the simulator: its answer stays queued, and the
  * driver, which does not match answers to requests, may take it for a later one.
  */
module LateAnswers {
  import opened Bytes
  import opened Can
  import opened Protocol
  import opened Stub
  import opened StubTrace
  import opened Driver
  import opened Fleet
  import opened AnyBus

  /** The answer to a command sent to the simulator. */
  function AnswerOf(limits: Limits, stub: StubState, frame: CanFrame, now: real): CanFrame {
    Response(limits, Effect(limits, MotorOf(stub, TargetOf(frame)), frame, now), frame, stub.temperature)
  }

  /** The simulator's queue is heard in order, as any fixed queue is. */
  lemma {:induction false} StubIsHeardInOrder(
    limits: Limits, clock: nat -> real, patience: nat -> nat, config: Config, cache: Option<Feedback>,
    link: Link<World>, script: Link<seq<CanFrame>>, expected: u8, passes: nat)
    requires script.state == link.state.stub.responses
    ensures
      var x := Await(StubPort(limits, clock, patience), config, cache, link, expected, passes);
      var y := Await(ScriptPort(patience), config, cache, script, expected, passes);
      && x.result == y.result && x.cache == y.cache
      && x.link.exchanges == link.exchanges
      && x.link.state == link.state.(stub := link.state.stub.(responses := y.link.state))
    decreases passes
  {
    hide SourceOf, CommTypeOf, Cached;
    if passes > 0 && script.state != [] {
      var a, b := Listened(StubPort(limits, clock, patience), link).0, Listened(ScriptPort(patience), script).0;
      var frame := script.state[0];
      var after := if SourceOf(frame) == config.motorId then Cached(config, cache, frame) else cache;
      StubIsHeardInOrder(limits, clock, patience, config, after, a, b, expected, passes - 1);
    }
  }

  /**
    * One exchange with any answers still queued from earlier ones: the driver takes the first frame
    * of its motor and the expected type, its own answer or a late one before it, if that comes
    * within the receive passes before the deadline; what comes after it stays queued. Otherwise the
    * exchange times out, and everything beyond those passes stays queued. The command takes effect
    * either way.
    */
  lemma {:induction false} ExchangeOverQueue(
    limits: Limits, clock: nat -> real, patience: nat -> nat, config: Config,
    cache: Option<Feedback>, link: Link<World>, step: Exchange, i: nat)
    returns (answer: CanFrame)
    requires Answerable(config, step)
    requires i <= |link.state.stub.responses| && NoneMatches(config, step.expected, link.state.stub.responses[..i])
    requires i < |link.state.stub.responses| ==> Matches(config, step.expected, link.state.stub.responses[i])
    ensures
      var w, passes := link.state, patience(link.exchanges);
      var x := Transceived(StubPort(limits, clock, patience), config, cache, link, step.frame, step.expected);
      var queue := w.stub.responses + [answer];
      var heard := if i < passes then i + 1 else passes;
      && x.result == (if i < passes then Ok(queue[i]) else Err(Timeout))
      && x.cache == LatestFeedback(config, cache, queue[..heard])
      && x.link.exchanges == link.exchanges + 1
      && x.link.state == World(
           Commanded(limits, w.stub, step.frame, clock(w.sends)).(responses := queue[heard..]), w.sends + 1)
      && answer == AnswerOf(limits, w.stub, step.frame, clock(w.sends))
    ensures Full(answer) && Matches(config, step.expected, answer)
  {
    hide Effect, Response, Full, Supported, TargetOf, SourceOf, CommTypeOf, Cached, MotorOf, Await, Stub.Sent,
      LatestFeedback;
    var w := link.state;
    var now := clock(w.sends);
    answer := QueuedAnswer(limits, w.stub.(responses := []), config, step, now);
    SentAddsToQueue(limits, w.stub, step.frame, now);
    SentIgnoresQueue(limits, w.stub, step.frame, now);
    MotorBesideQueue(w.stub, [], config.motorId);
    MotorBesideQueue(w.stub, [], TargetOf(step.frame));
    var sent := Submitted(StubPort(limits, clock, patience), link, step.frame).0;
    var queue := w.stub.responses + [answer];
    assert sent.state.stub.responses == queue;
    assert queue[..i] == w.stub.responses[..i];
    var script := Link(queue, 0, []);
    StubIsHeardInOrder(limits, clock, patience, config, cache, sent, script, step.expected, patience(link.exchanges));
    AwaitReturnsFirstMatch(patience, config, cache, script, step.expected, patience(link.exchanges), i);
  }

  /** The queue is no part of a motor's state. */
  lemma MotorBesideQueue(st: StubState, queue: seq<CanFrame>, id: u8)
    ensures MotorOf(st.(responses := queue), id) == MotorOf(st, id)
  {
  }

  /** A deadline that passes before the first receive loses nothing: the answer is queued for whoever listens next. */
  lemma {:induction false} ExpiredExchange(
    limits: Limits, clock: nat -> real, patience: nat -> nat, config: Config,
    cache: Option<Feedback>, link: Link<World>, step: Exchange)
    returns (late: CanFrame)
    requires Answerable(config, step) && link.state.stub.responses == [] && patience(link.exchanges) == 0
    ensures
      var w := link.state;
      var x := Transceived(StubPort(limits, clock, patience), config, cache, link, step.frame, step.expected);
      && x.result == Err(Timeout) && x.cache == cache
      && x.link.exchanges == link.exchanges + 1
      && x.link.state
         == World(Commanded(limits, w.stub, step.frame, clock(w.sends)).(responses := [late]), w.sends + 1)
      && late == AnswerOf(limits, w.stub, step.frame, clock(w.sends))
    ensures Full(late) && Matches(config, step.expected, late)
  {
    hide Transceived, Matches, LatestFeedback, AnswerOf, Commanded, Full, Answerable;
    NothingHeard(config, cache);
    late := ExchangeOverQueue(limits, clock, patience, config, cache, link, step, 0);
    assert [] + [late] == [late] && [late][..0] == [];
  }

  /**
    * The first exchange after an expired one: if it is with the same motor and expects the same type
    * it is given the late answer and leaves its own behind; otherwise it passes over the late answer,
    * and with time for a second receive gets its own and is back in step, without it times out and
    * leaves its own queued instead.
    */
  lemma {:induction false} ExchangeAfterExpiry(
    limits: Limits, clock: nat -> real, patience: nat -> nat, config: Config,
    cache: Option<Feedback>, link: Link<World>, step: Exchange, late: CanFrame)
    returns (answer: CanFrame)
    requires Answerable(config, step) && link.state.stub.responses == [late] && patience(link.exchanges) >= 1
    ensures
      var w := link.state;
      var x := Transceived(StubPort(limits, clock, patience), config, cache, link, step.frame, step.expected);
      var stale := Matches(config, step.expected, late);
      var inTime := patience(link.exchanges) >= 2;
      && x.result == (if stale then Ok(late) else if inTime then Ok(answer) else Err(Timeout))
      && x.link.exchanges == link.exchanges + 1
      && x.link.state == World(
           Commanded(limits, w.stub, step.frame, clock(w.sends))
             .(responses := if !stale && inTime then [] else [answer]),
           w.sends + 1)
      && answer == AnswerOf(limits, w.stub, step.frame, clock(w.sends))
    ensures Full(answer) && Matches(config, step.expected, answer)
  {
    hide Transceived, Matches, LatestFeedback, AnswerOf, Commanded, Full, Answerable;
    answer := ExchangeOverQueue(limits, clock, patience, config, cache, link, step,
      if Matches(config, step.expected, late) then 0 else 1);
    assert [late] + [answer] == [late, answer];
  }

  // ----------------------------------------------------------- behind for ever

  /** The answers to a sequence of exchanges, the first of which is the n-th frame sent. */
  function AnswersTo(limits: Limits, stub: StubState, steps: seq<Exchange>, clock: nat -> real, n: nat):
      (answers: seq<CanFrame>)
    ensures |answers| == |steps|
    decreases |steps|
  {
    if steps == [] then []
    else [AnswerOf(limits, stub, steps[0].frame, clock(n))] +
         AnswersTo(limits, Commanded(limits, stub, steps[0].frame, clock(n)), steps[1..], clock, n + 1)
  }

  /** Exchanges with one motor that all expect the same type. */
  predicate Alike(config: Config, steps: seq<Exchange>, expected: u8) {
    AllAnswerable(config, steps) && forall k :: 0 <= k < |steps| ==> steps[k].expected == expected
  }

  lemma AlikeParts(config: Config, steps: seq<Exchange>, expected: u8)
    requires steps != [] && Alike(config, steps, expected)
    ensures Answerable(config, steps[0]) && steps[0].expected == expected && Alike(config, steps[1..], expected)
  {
    hide Answerable;
  }

  predicate AllMatch(config: Config, expected: u8, frames: seq<CanFrame>) {
    forall k :: 0 <= k < |frames| ==> Full(frames[k]) && Matches(config, expected, frames[k])
  }

  /**
    * Once behind, always as far behind: with d late answers of this motor and type queued, any number
    * of further exchanges of that type with it are each given the answer to the one d before it, and
    * the last d answers are left queued. One receive pass for each is enough.
    */
  lemma {:induction false} BehindForever(
    limits: Limits, clock: nat -> real, patience: nat -> nat, config: Config,
    cache: Option<Feedback>, link: Link<World>, steps: seq<Exchange>, expected: u8)
    requires steps != [] && Alike(config, steps, expected)
    requires AllMatch(config, expected, link.state.stub.responses)
    requires forall n :: n >= link.exchanges ==> patience(n) >= 1
    ensures
      var x := Performed(StubPort(limits, clock, patience), config, cache, link, steps);
      var all := link.state.stub.responses + AnswersTo(limits, link.state.stub, steps, clock, link.state.sends);
      && x.result == Ok(all[|steps| - 1])
      && x.link.state.stub.responses == all[|steps|..]
    decreases |steps|
  {
    hide Transceived, Answerable, Effect, Response, CommTypeOf, SourceOf, TargetOf, Stub.Sent, Commanded, AnswerOf,
      LatestFeedback, Matches, AnswersTo, Full, Alike;
    var port := StubPort(limits, clock, patience);
    var w := link.state;
    var late := w.stub.responses;
    AlikeParts(config, steps, expected);
    var answer := ExchangeOverQueue(limits, clock, patience, config, cache, link, steps[0], 0);
    var queue := late + [answer];
    assert AllMatch(config, expected, queue);
    var x := Transceived(port, config, cache, link, steps[0].frame, steps[0].expected);
    assert x.result == Ok(queue[0]) && WellFormedAnswer(queue[0]) by { WellFormedFull(queue[0]); }
    var next := Commanded(limits, w.stub, steps[0].frame, clock(w.sends));
    var rest := AnswersTo(limits, next, steps[1..], clock, w.sends + 1);
    AnswersToCons(limits, w.stub, steps, clock, w.sends);
    assert late + ([answer] + rest) == queue + rest;
    if |steps| > 1 {
      AlikeParts(config, steps[1..], expected);
      BehindForever(limits, clock, patience, config, x.cache, x.link, steps[1..], expected);
      QueueUnread(limits, next, queue[1..], steps[1..], clock, w.sends + 1);
      OneFurther(queue, rest, |steps|);
    } else {
      assert rest == [];
      assert queue + [] == queue;
    }
  }

  lemma WellFormedFull(frame: CanFrame)
    requires Full(frame)
    ensures WellFormedAnswer(frame)
  {
  }

  lemma OneFurther<T>(queue: seq<T>, rest: seq<T>, n: nat)
    requires queue != [] && 1 <= n <= |queue| + |rest|
    ensures (queue + rest)[n..] == (queue[1..] + rest)[n - 1..]
    ensures n >= 2 ==> (queue + rest)[n - 1] == (queue[1..] + rest)[n - 2]
  {
    TailOfSum(queue, rest);
    TailDropped(queue + rest, n);
  }

  lemma TailOfSum<T>(queue: seq<T>, rest: seq<T>)
    requires queue != []
    ensures queue[1..] + rest == (queue + rest)[1..]
  {
  }

  lemma TailDropped<T>(all: seq<T>, n: nat)
    requires 1 <= n <= |all|
    ensures all[1..][n - 1..] == all[n..]
    ensures n >= 2 ==> all[1..][n - 2] == all[n - 1]
  {
  }

  lemma AnswersToCons(limits: Limits, stub: StubState, steps: seq<Exchange>, clock: nat -> real, n: nat)
    requires steps != []
    ensures AnswersTo(limits, stub, steps, clock, n)
      == [AnswerOf(limits, stub, steps[0].frame, clock(n))] +
         AnswersTo(limits, Commanded(limits, stub, steps[0].frame, clock(n)), steps[1..], clock, n + 1)
  {
  }

  /** The answers do not depend on what is queued. */
  lemma QueueUnread(
    limits: Limits, stub: StubState, queue: seq<CanFrame>, steps: seq<Exchange>, clock: nat -> real, n: nat)
    ensures AnswersTo(limits, stub.(responses := queue), steps, clock, n) == AnswersTo(limits, stub, steps, clock, n)
  {
    hide Effect, Response, TargetOf, Supported;
    if steps != [] {
      SentIgnoresQueue(limits, stub, steps[0].frame, clock(n));
      SentIgnoresQueue(limits, stub.(responses := queue), steps[0].frame, clock(n));
    }
  }

  /**
    * A concrete consequence: a read that expires makes the next read of the same motor return the
    * contents of the register that was asked for first.
    */
  lemma {:induction false} ReadAfterExpiredRead(
    limits: Limits, clock: nat -> real, patience: nat -> nat, config: Config,
    cache: Option<Feedback>, link: Link<World>, first: u16, second: u16)
    requires InStep(limits, clock, link) && patience(link.exchanges) == 0 && patience(link.exchanges + 1) >= 1
    ensures
      var port := StubPort(limits, clock, patience);
      var word := LastWritten(HistoryOf(link.log, clock), config.motorId, first);
      var c := Call(port, config, cache, link, ReadParamFloat(first));
      && c.reply == Failed(Timeout)
      && Call(port, config, c.cache, c.link, ReadParamFloat(second)).reply
         == WordRead(if first == RUN_MODE then ByteWord(word[0]) else word)
  {
    var before := HistoryOf(link.log, clock);
    var w := link.state;
    var step := ReadStep(config, first);
    var e := Event(clock(w.sends), Command(step.frame));
    WriteAnswerable(config, first, ZERO_WORD);
    WriteAnswerable(config, second, ZERO_WORD);
    hide Transceived, Run, Alternates, HistoryOf, LastWritten, ReadStep, ValueOf, StubPort, ByteWord, Effect,
      Response, TargetOf, Supported, CommTypeOf, IndexOf, SourceOf, Commanded, AnswerTo;
    var late := ExpiredExchange(limits, clock, patience, config, cache, link, step);
    var x := Transceived(StubPort(limits, clock, patience), config, cache, link, step.frame, step.expected);
    var answer := ExchangeAfterExpiry(
      limits, clock, patience, config, x.cache, x.link, ReadStep(config, second), late);
    SnocParts(before, e);
    AnswerToSnoc(limits, before, e);
    ReadAnswer(limits, before + [e], config, first);
  }
}

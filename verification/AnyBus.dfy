/** What the driver guarantees on a bus it knows nothing about. */
module AnyBus {
  import opened Bytes
  import opened Can
  import opened Protocol
  import opened Driver

  /** The frame a wait returns: of the expected type, from this motor. */
  predicate Matches(config: Config, expected: u8, frame: CanFrame) {
    SourceOf(frame) == config.motorId && CommTypeOf(frame) == expected
  }

  predicate NoneMatches(config: Config, expected: u8, frames: seq<CanFrame>) {
    forall j :: 0 <= j < |frames| ==> !Matches(config, expected, frames[j])
  }

  /** The last parsable feedback of this motor among the frames, or what was cached before. */
  function LatestFeedback(config: Config, cache: Option<Feedback>, frames: seq<CanFrame>): Option<Feedback> {
    if frames == [] then cache
    else
      var frame := frames[|frames| - 1];
      if SourceOf(frame) == config.motorId && ParseFeedback(frame, config.limits).Some?
      then ParseFeedback(frame, config.limits)
      else LatestFeedback(config, cache, frames[..|frames| - 1])
  }

  /** Hearing one more frame first. */
  lemma {:induction false} LatestFeedbackCons(
      config: Config, cache: Option<Feedback>, frame: CanFrame, frames: seq<CanFrame>)
    ensures LatestFeedback(config, cache, [frame] + frames)
         == LatestFeedback(config, if SourceOf(frame) == config.motorId then Cached(config, cache, frame)
             else cache, frames)
    decreases |frames|
  {
    hide SourceOf, ParseFeedback;
    var all := [frame] + frames;
    if frames == [] {
      assert all[..0] == [];
      assert LatestFeedback(config, cache, []) == cache;
    } else {
      var init := frames[..|frames| - 1];
      assert all[..|all| - 1] == [frame] + init;
      LatestFeedbackCons(config, cache, frame, init);
    }
  }

  // ------------------------------------------------ a bus that is a fixed queue

  /** A bus on which a given sequence of frames will be heard, whatever is sent. */
  function ScriptPort(patience: nat -> nat): Port<seq<CanFrame>> {
    Port(
      (queue: seq<CanFrame>, frame: CanFrame) => (queue, true),
      (queue: seq<CanFrame>) => if queue == [] then (queue, Silence) else (queue[1..], Frame(queue[0])),
      patience)
  }

  lemma ScriptListen(patience: nat -> nat, link: Link<seq<CanFrame>>)
    ensures
      var (next, heard) := Listened(ScriptPort(patience), link);
      if link.state == [] then heard == Silence && next.state == []
      else heard == Frame(link.state[0]) && next.state == link.state[1..]
  {
  }

  /**
    * A wait returns the first matching frame of the queue exactly when it comes within the allowed
    * passes; everything up to it is consumed, and the cache holds the latest own feedback consumed.
    */
  lemma {:induction false} AwaitReturnsFirstMatch(
    patience: nat -> nat, config: Config, cache: Option<Feedback>, link: Link<seq<CanFrame>>, expected: u8,
        passes: nat, i: nat)
    requires i <= |link.state| && NoneMatches(config, expected, link.state[..i])
    requires i < |link.state| ==> Matches(config, expected, link.state[i])
    ensures
      var queue := link.state;
      var x := Await(ScriptPort(patience), config, cache, link, expected, passes);
      if i < |queue| && i < passes then
        x.result == Ok(queue[i]) && x.link.state == queue[i + 1..]
            && x.cache == LatestFeedback(config, cache, queue[..i + 1])
      else
        var consumed := if i < passes then i else passes;
        x.result == Err(Timeout) && x.link.state == queue[consumed..]
            && x.cache == LatestFeedback(config, cache, queue[..consumed])
    decreases passes
  {
    hide SourceOf, CommTypeOf, ParseFeedback, LatestFeedback, ScriptPort;
    var queue := link.state;
    NothingHeard(config, cache);
    assert queue[..0] == [];
    if passes > 0 {
      ScriptListen(patience, link);
      var next := Listened(ScriptPort(patience), link).0;
      if queue != [] {
        var frame := queue[0];
        var after := if SourceOf(frame) == config.motorId then Cached(config, cache, frame) else cache;
        if i == 0 {
          LatestFeedbackCons(config, cache, frame, []);
          NothingHeard(config, after);
          assert queue[..1] == [frame] + [];
        } else {
          assert !Matches(config, expected, queue[..i][0]);
          assert queue[1..][..i - 1] == queue[..i][1..];
          AwaitReturnsFirstMatch(patience, config, after, next, expected, passes - 1, i - 1);
          forall k | 0 < k <= |queue|
            ensures LatestFeedback(config, cache, queue[..k]) == LatestFeedback(config, after, queue[1..][..k - 1])
          {
            assert queue[..k] == [frame] + queue[1..][..k - 1];
            LatestFeedbackCons(config, cache, frame, queue[1..][..k - 1]);
          }
        }
      }
    }
  }

  lemma NothingHeard(config: Config, cache: Option<Feedback>)
    ensures LatestFeedback(config, cache, []) == cache
  {
  }

  /**
    * A read returns the value of the first parameter response of this motor, whichever register
    * that response is about.
    */
  lemma ReadTakesFirstResponse(
    patience: nat -> nat, config: Config, cache: Option<Feedback>, link: Link<seq<CanFrame>>, index: u16, i: nat)
    requires i < |link.state| && NoneMatches(config, READ_PARAM, link.state[..i])
        && Matches(config, READ_PARAM, link.state[i])
    requires i < patience(link.exchanges)
    ensures Call(ScriptPort(patience), config, cache, link, ReadParamFloat(index)).reply
         == if link.state[i].dlc >= 8 then WordRead(ValueOf(link.state[i])) else Failed(Malformed)
  {
    hide Await, LatestFeedback, ValueOf, SourceOf, CommTypeOf, ReadParamFrame;
    var sent := Submitted(ScriptPort(patience), link, ReadParamFrame(config.motorId, config.hostId, index)).0;
    AwaitReturnsFirstMatch(patience, config, cache, sent, READ_PARAM, patience(link.exchanges), i);
  }

  /** Frame k is the first parameter response of this motor about register `index`. */
  predicate FirstAbout(config: Config, index: u16, queue: seq<CanFrame>, k: nat) {
    && k < |queue| && Matches(config, READ_PARAM, queue[k]) && IndexOf(queue[k]) == index
    && forall j :: 0 <= j < k && Matches(config, READ_PARAM, queue[j]) ==> IndexOf(queue[j]) != index
  }

  /** A read takes the first parameter response of this motor and leaves what comes after it queued. */
  lemma {:induction false} ReadLeavesTheRest(
    patience: nat -> nat, config: Config, cache: Option<Feedback>, link: Link<seq<CanFrame>>, index: u16, i: nat)
    requires i < |link.state| && NoneMatches(config, READ_PARAM, link.state[..i])
        && Matches(config, READ_PARAM, link.state[i])
    requires link.state[i].dlc >= 8 && i < patience(link.exchanges)
    ensures
      var c := Call(ScriptPort(patience), config, cache, link, ReadParamFloat(index));
      c.link.state == link.state[i + 1..] && c.reply == WordRead(ValueOf(link.state[i]))
  {
    hide Await, LatestFeedback, ValueOf, SourceOf, CommTypeOf, ReadParamFrame, IndexOf;
    ReadTakesFirstResponse(patience, config, cache, link, index, i);
    var sent := Submitted(ScriptPort(patience), link, ReadParamFrame(config.motorId, config.hostId, index)).0;
    AwaitReturnsFirstMatch(patience, config, cache, sent, READ_PARAM, patience(link.exchanges), i);
  }

  /**
    * The response a read takes is the one about its own register if and only if the first response
    * has that index; otherwise the right one is still queued behind it.
    */
  lemma {:induction false} FirstIsRightByIndex(config: Config, index: u16, queue: seq<CanFrame>, i: nat, k: nat)
    requires i < |queue| && NoneMatches(config, READ_PARAM, queue[..i]) && Matches(config, READ_PARAM, queue[i])
    requires FirstAbout(config, index, queue, k)
    ensures IndexOf(queue[i]) == index <==> i == k
    ensures IndexOf(queue[i]) != index ==> i < k && queue[i + 1..][k - i - 1] == queue[k]
  {
    hide SourceOf, CommTypeOf, IndexOf;
    assert forall j :: 0 <= j < i ==> !Matches(config, READ_PARAM, queue[..i][j]);
  }

  // --------------------------------------------------------- any bus whatever

  function Heards(frames: seq<CanFrame>): seq<Entry> {
    seq(|frames|, k requires 0 <= k < |frames| => Got(frames[k]))
  }

  lemma HeardsCons(frame: CanFrame, frames: seq<CanFrame>)
    ensures Heards([frame] + frames) == [Got(frame)] + Heards(frames)
  {
  }

  /** The frames heard in a completed exchange: the last one matches, no earlier one does. */
  predicate Answered(config: Config, expected: u8, heard: seq<CanFrame>) {
    && heard != []
    && Matches(config, expected, heard[|heard| - 1])
    && NoneMatches(config, expected, heard[..|heard| - 1])
  }

  lemma AnsweredCons(config: Config, expected: u8, frame: CanFrame, heard: seq<CanFrame>)
    requires !Matches(config, expected, frame)
    ensures Answered(config, expected, heard) ==> Answered(config, expected, [frame] + heard)
    ensures NoneMatches(config, expected, heard) ==> NoneMatches(config, expected, [frame] + heard)
  {
    hide Matches;
    if heard != [] {
      var all := [frame] + heard;
      assert all[|all| - 1] == heard[|heard| - 1];
      assert all[..|all| - 1] == [frame] + heard[..|heard| - 1];
    }
  }

  /** Whatever the transport does, a wait only listens, and stops at the first match. */
  lemma {:induction false} AwaitTranscript<S>(
    port: Port<S>, config: Config, cache: Option<Feedback>, link: Link<S>, expected: u8, passes: nat)
    returns (heard: seq<CanFrame>)
    ensures
      var x := Await(port, config, cache, link, expected, passes);
      && x.link.log == link.log + Heards(heard)
      && x.link.exchanges == link.exchanges
      && x.cache == LatestFeedback(config, cache, heard)
      && (if x.result.Ok? then Answered(config, expected, heard) && x.result.value == heard[|heard| - 1]
          else NoneMatches(config, expected, heard))
    decreases passes
  {
    hide SourceOf, CommTypeOf, ParseFeedback, LatestFeedback, Heards;
    heard := [];
    NothingHeard(config, cache);
    NoHeards();
    assert link.log + [] == link.log;
    if passes > 0 {
      var (next, h) := Listened(port, link);
      if h.Frame? {
        var frame := h.frame;
        var own := SourceOf(frame) == config.motorId;
        var after := if own then Cached(config, cache, frame) else cache;
        NothingHeard(config, after);
        if Matches(config, expected, frame) {
          heard := [frame];
          LatestFeedbackCons(config, cache, frame, []);
          HeardsCons(frame, []);
          assert [frame] + [] == [frame];
          assert [Got(frame)] + [] == [Got(frame)];
        } else {
          var rest := AwaitTranscript(port, config, after, next, expected, passes - 1);
          heard := [frame] + rest;
          HeardsCons(frame, rest);
          LatestFeedbackCons(config, cache, frame, rest);
          AnsweredCons(config, expected, frame, rest);
          assert link.log + [Got(frame)] + Heards(rest) == link.log + ([Got(frame)] + Heards(rest));
        }
      }
    }
  }

  lemma NoHeards()
    ensures Heards([]) == []
  {
  }

  /** The log of a sequence of exchanges: each frame sent, then what was heard before the next. */
  function Transcript(steps: seq<Exchange>, rounds: seq<seq<CanFrame>>): seq<Entry>
    requires |rounds| <= |steps|
    decreases |rounds|
  {
    if rounds == [] then []
    else [SentOut(steps[0].frame)] + Heards(rounds[0]) + Transcript(steps[1..], rounds[1..])
  }

  /** The exchange was answered by an untruncated frame. */
  predicate Completed(config: Config, step: Exchange, heard: seq<CanFrame>) {
    Answered(config, step.expected, heard) && WellFormedAnswer(heard[|heard| - 1])
  }

  predicate AllButLastCompleted(config: Config, steps: seq<Exchange>, rounds: seq<seq<CanFrame>>)
    requires |rounds| <= |steps|
  {
    forall k :: 0 <= k < |rounds| - 1 ==> Completed(config, steps[k], rounds[k])
  }

  lemma TranscriptOfOne(step: Exchange, steps: seq<Exchange>, heard: seq<CanFrame>)
    requires steps != [] && steps[0] == step
    ensures Transcript(steps, [heard]) == [SentOut(step.frame)] + Heards(heard)
  {
    hide Heards;
    assert [heard][1..] == [];
    assert Transcript(steps[1..], [heard][1..]) == [];
  }

  lemma AllButLastCons(config: Config, steps: seq<Exchange>, heard: seq<CanFrame>, rounds: seq<seq<CanFrame>>)
    requires 1 <= |rounds| < |steps| && Completed(config, steps[0], heard)
    requires AllButLastCompleted(config, steps[1..], rounds)
    ensures AllButLastCompleted(config, steps, [heard] + rounds)
  {
    hide Completed;
    var all := [heard] + rounds;
    forall k | 0 <= k < |all| - 1
      ensures Completed(config, steps[k], all[k])
    {
      if k > 0 {
        assert Completed(config, steps[1..][k - 1], rounds[k - 1]);
      }
    }
  }

  /**
    * On any bus, the frames a call sends are a prefix of its exchanges in order; each but the last
    * was answered by this motor with the expected type before the next went out, and success means
    * that all went out and the last answer is the result.
    */
  lemma {:induction false} PerformedTranscript<S>(
    port: Port<S>, config: Config, cache: Option<Feedback>, link: Link<S>, steps: seq<Exchange>)
    returns (rounds: seq<seq<CanFrame>>)
    requires steps != []
    ensures 1 <= |rounds| <= |steps|
    ensures
      var x := Performed(port, config, cache, link, steps);
      && x.link.log == link.log + Transcript(steps, rounds)
      && AllButLastCompleted(config, steps, rounds)
      && (x.result.Ok? ==>
            && |rounds| == |steps|
            && Completed(config, steps[|steps| - 1], rounds[|steps| - 1])
            && x.result.value == rounds[|steps| - 1][|rounds[|steps| - 1]| - 1])
    decreases |steps|
  {
    hide Await, Completed, Heards, LatestFeedback, NoneMatches, Matches, WellFormedAnswer;
    var (next, ok) := Submitted(port, link, steps[0].frame);
    if !ok {
      rounds := [[]];
      NoHeards();
      TranscriptOfOne(steps[0], steps, []);
    } else {
      var heard := AwaitTranscript(port, config, cache, next, steps[0].expected, port.patience(link.exchanges));
      var x := Transceived(port, config, cache, link, steps[0].frame, steps[0].expected);
      TranscriptOfOne(steps[0], steps, heard);
      assert x.link.log == link.log + ([SentOut(steps[0].frame)] + Heards(heard));
      rounds := [heard];
      if x.result.Ok? && WellFormedAnswer(x.result.value) {
        CompletedFromAnswer(config, steps[0], heard);
        if |steps| > 1 {
          var rest := PerformedTranscript(port, config, x.cache, x.link, steps[1..]);
          rounds := [heard] + rest;
          AllButLastCons(config, steps, heard, rest);
          assert rounds[1..] == rest;
          assert link.log + ([SentOut(steps[0].frame)] + Heards(heard)) + Transcript(steps[1..], rest)
              == link.log + Transcript(steps, rounds);
        }
      }
    }
  }

  lemma CompletedFromAnswer(config: Config, step: Exchange, heard: seq<CanFrame>)
    requires Answered(config, step.expected, heard) && WellFormedAnswer(heard[|heard| - 1])
    ensures Completed(config, step, heard)
  {
  }

  /**
    * Changing the run mode on any bus: stop, write, read, in this order; the write goes out only
    * after a feedback frame of this motor answered the stop, the read only after one answered the
    * write, and the call succeeds only if this motor's read answer carried the requested mode.
    */
  lemma SetRunModeOnAnyBus<S>(port: Port<S>, config: Config, cache: Option<Feedback>, link: Link<S>, mode: u8)
    returns (rounds: seq<seq<CanFrame>>)
    ensures 1 <= |rounds| <= 3
    ensures
      var c := Call(port, config, cache, link, Op.SetRunMode(mode));
      var steps := [
        Exchange(StopFrame(config.motorId, config.hostId, false), FEEDBACK),
        Exchange(WriteParamFrame(config.motorId, config.hostId, RUN_MODE, ByteWord(mode)), FEEDBACK),
        Exchange(ReadParamFrame(config.motorId, config.hostId, RUN_MODE), READ_PARAM)];
      && c.link.log == link.log + Transcript(steps, rounds)
      && (|rounds| >= 2 ==> Completed(config, steps[0], rounds[0]))
      && (|rounds| >= 3 ==> Completed(config, steps[1], rounds[1]))
      && (c.reply.Done? ==>
            && |rounds| == 3 && Completed(config, steps[2], rounds[2])
            && ValueOf(rounds[2][|rounds[2]| - 1])[0] == mode)
  {
    hide Performed, Completed, Transcript, ValueOf, WriteParamFrame, ReadParamFrame, StopFrame, ByteWord;
    rounds := PerformedTranscript(port, config, cache, link, StepsOf(config, Op.SetRunMode(mode)));
  }
}

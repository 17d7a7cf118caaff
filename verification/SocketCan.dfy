/**
  * The SocketCAN transport: raw frames as the kernel hands them over, and the kernel filter on the
  * motor's identifier. A frame with an 11-bit identifier ends a receive call as a timeout would, so
  * the filter, which also drops those frames, can be noticed.
  */
module SocketCan {
  import opened Bytes
  import opened Can
  import opened Protocol
  import opened Driver
  import opened AnyBus

  const EFF_FLAG: u32 := 0x8000_0000

  /** A frame as read from the socket: flag bits 29-31 and the identifier in one word. */
  datatype RawFrame = RawFrame(canId: u32, data: Payload, dlc: u8)

  /** The frame has a 29-bit identifier. */
  predicate Extended(raw: RawFrame) {
    raw.canId / EFF_FLAG == 1
  }

  function Stripped(raw: RawFrame): CanFrame {
    CanFrame(raw.canId % ID_SPACE, raw.data, raw.dlc)
  }

  /** What is written to the socket for a frame: its 29-bit identifier with the flag, and its data. */
  function Raw(frame: CanFrame): RawFrame {
    RawFrame(EFF_FLAG + frame.id % ID_SPACE, frame.data, frame.dlc)
  }

  /** Of the three flag bits only the highest makes a frame extended; the other 29 bits are its identifier. */
  lemma {:induction false} SocketReading(raw: RawFrame, flags: nat, id: nat)
    requires flags < 8 && id < 0x2000_0000 && raw.canId == flags * 0x2000_0000 + id
    ensures Extended(raw) <==> flags >= 4
    ensures Stripped(raw) == CanFrame(id, raw.data, raw.dlc)
    ensures forall motor: u8 :: Passes(raw, motor) <==> flags >= 4 && id / 0x100 % 0x100 == motor
  {
    assert raw.canId as int / 0x100 == (flags * 0x2000) * 0x100 + id / 0x100;
  }

  /** A frame written to the socket is read at the other end as itself, with the identifier cut to 29 bits. */
  lemma SocketRoundTrip(frame: CanFrame)
    ensures Extended(Raw(frame))
    ensures Stripped(Raw(frame)) == frame.(id := frame.id % 0x2000_0000)
  {
    SocketReading(Raw(frame), 4, frame.id % 0x2000_0000);
  }

  /** A socket on which the queued frames will be read, one by one; an 11-bit frame reads as a timeout. */
  function SocketPort(patience: nat -> nat): Port<seq<RawFrame>> {
    Port(
      (queue: seq<RawFrame>, frame: CanFrame) => (queue, true),
      (queue: seq<RawFrame>) =>
        if queue == [] then (queue, Silence)
        else (queue[1..], if Extended(queue[0]) then Frame(Stripped(queue[0])) else Silence),
      patience)
  }

  /** What the kernel filter lets through: identifier bits 15-8 and the 29-bit flag are compared. */
  predicate Passes(raw: RawFrame, motorId: u8) {
    raw.canId / 0x100 % 0x100 == motorId && Extended(raw)
  }

  function Filtered(queue: seq<RawFrame>, motorId: u8): seq<RawFrame> {
    if queue == [] then []
    else (if Passes(queue[0], motorId) then [queue[0]] else []) + Filtered(queue[1..], motorId)
  }

  predicate AnswersWait(config: Config, expected: u8, raw: RawFrame) {
    Extended(raw) && Matches(config, expected, Stripped(raw))
  }

  /**
    * No 11-bit frame comes before a frame of this motor, unless the answer comes before both: the
    * wait then never ends at an 11-bit frame with something left to hear.
    */
  ghost predicate Unobstructed(config: Config, expected: u8, queue: seq<RawFrame>) {
    forall j, k :: 0 <= j < k < |queue| && !Extended(queue[j]) && Passes(queue[k], config.motorId) ==>
      exists i :: 0 <= i < j && AnswersWait(config, expected, queue[i])
  }

  /** The same result and cache, and the filter leaves of one remaining queue what the other is. */
  predicate Agree(config: Config, x: Exchanged<seq<RawFrame>>, y: Exchanged<seq<RawFrame>>) {
    x.result == y.result && x.cache == y.cache && y.link.state == Filtered(x.link.state, config.motorId)
  }

  lemma PassingFrame(raw: RawFrame, motorId: u8)
    ensures Passes(raw, motorId) <==> Extended(raw) && SourceOf(Stripped(raw)) == motorId
  {
    var high, low := raw.canId / ID_SPACE, raw.canId % ID_SPACE;
    assert raw.canId == (high * 0x20_0000 + low / 0x100) * 0x100 + low % 0x100;
    assert raw.canId / 0x100 == high * 0x2000 * 0x100 + low / 0x100;
  }

  lemma SocketListen(patience: nat -> nat, link: Link<seq<RawFrame>>)
    ensures
      var (next, heard) := Listened(SocketPort(patience), link);
      if link.state == [] then heard == Silence && next.state == []
      else next.state == link.state[1..] &&
           heard == if Extended(link.state[0]) then Frame(Stripped(link.state[0])) else Silence
  {
  }

  /** Waiting with frames queued takes at least one of them. */
  lemma {:induction false} AwaitTakesFrames(
    patience: nat -> nat, config: Config, cache: Option<Feedback>, link: Link<seq<RawFrame>>, expected: u8, passes: nat)
    ensures
      var left := |Await(SocketPort(patience), config, cache, link, expected, passes).link.state|;
      left <= |link.state| && (passes > 0 && link.state != [] ==> left < |link.state|)
    decreases passes
  {
    hide SourceOf, CommTypeOf, ParseFeedback, SocketPort, Extended;
    if passes > 0 {
      SocketListen(patience, link);
      var (next, heard) := Listened(SocketPort(patience), link);
      AwaitTakesFrames(patience, config, cache, next, expected, passes - 1);
      if heard.Frame? {
        AwaitTakesFrames(patience, config, Cached(config, cache, heard.frame), next, expected, passes - 1);
      }
    }
  }

  lemma {:induction false} NothingPasses(queue: seq<RawFrame>, motorId: u8)
    ensures Filtered(queue, motorId) == [] <==> forall k :: 0 <= k < |queue| ==> !Passes(queue[k], motorId)
  {
    hide Passes;
    if queue != [] {
      NothingPasses(queue[1..], motorId);
      assert forall k :: 0 < k < |queue| ==> queue[k] == queue[1..][k - 1];
      assert forall k :: 0 <= k < |queue| - 1 ==> queue[1..][k] == queue[k + 1];
    }
  }

  lemma UnobstructedHead(config: Config, expected: u8, queue: seq<RawFrame>)
    requires queue != []
    ensures
      Unobstructed(config, expected, queue) <==>
      if AnswersWait(config, expected, queue[0]) then true
      else if Extended(queue[0]) then Unobstructed(config, expected, queue[1..])
      else Filtered(queue[1..], config.motorId) == []
  {
    hide Passes, Matches, Filtered;
    var rest := queue[1..];
    NothingPasses(rest, config.motorId);
    if AnswersWait(config, expected, queue[0]) {
    } else if Extended(queue[0]) {
      if Unobstructed(config, expected, queue) {
        forall j, k | 0 <= j < k < |rest| && !Extended(rest[j]) && Passes(rest[k], config.motorId)
          ensures exists i :: 0 <= i < j && AnswersWait(config, expected, rest[i])
        {
          assert !Extended(queue[j + 1]) && Passes(queue[k + 1], config.motorId);
          var i :| 0 <= i < j + 1 && AnswersWait(config, expected, queue[i]);
          assert AnswersWait(config, expected, rest[i - 1]);
        }
      }
      if Unobstructed(config, expected, rest) {
        forall j, k | 0 <= j < k < |queue| && !Extended(queue[j]) && Passes(queue[k], config.motorId)
          ensures exists i :: 0 <= i < j && AnswersWait(config, expected, queue[i])
        {
          assert !Extended(rest[j - 1]) && Passes(rest[k - 1], config.motorId);
          var i :| 0 <= i < j - 1 && AnswersWait(config, expected, rest[i]);
          assert AnswersWait(config, expected, queue[i + 1]);
        }
      }
    } else {
      assert forall k :: 0 < k < |queue| ==> queue[k] == rest[k - 1];
      if Unobstructed(config, expected, queue) {
        forall k | 0 <= k < |rest|
          ensures !Passes(rest[k], config.motorId)
        {
          assert !Extended(queue[0]) && queue[k + 1] == rest[k];
        }
      }
    }
  }

  /**
    * The filter changes neither result, nor cache, nor what remains to be heard exactly when no
    * wait is cut short: if and only if every 11-bit frame before a frame of this motor comes after
    * the answer.
    */
  lemma {:induction false} FilterIsInvisible(
    patience: nat -> nat, config: Config, cache: Option<Feedback>,
    link: Link<seq<RawFrame>>, filtered: Link<seq<RawFrame>>, expected: u8, passes: nat, others: nat)
    requires filtered.state == Filtered(link.state, config.motorId)
    requires passes > |link.state| && others > |filtered.state|
    ensures
      Agree(config,
        Await(SocketPort(patience), config, cache, link, expected, passes),
        Await(SocketPort(patience), config, cache, filtered, expected, others))
      <==> Unobstructed(config, expected, link.state)
    decreases |link.state|
  {
    hide SourceOf, CommTypeOf, ParseFeedback, SocketPort, Extended, Stripped, Unobstructed, Passes;
    var queue := link.state;
    SocketListen(patience, link);
    SocketListen(patience, filtered);
    if queue == [] {
      NothingObstructed(config, expected);
    } else {
      var next := Listened(SocketPort(patience), link).0;
      UnobstructedHead(config, expected, queue);
      PassingFrame(queue[0], config.motorId);
      if Passes(queue[0], config.motorId) {
        var frame := Stripped(queue[0]);
        var nextFiltered := Listened(SocketPort(patience), filtered).0;
        assert filtered.state[1..] == Filtered(next.state, config.motorId);
        if CommTypeOf(frame) != expected {
          FilterIsInvisible(patience, config, Cached(config, cache, frame), next, nextFiltered, expected,
              passes - 1, others - 1);
        }
      } else {
        assert filtered.state == Filtered(next.state, config.motorId);
        if Extended(queue[0]) {
          FilterIsInvisible(patience, config, cache, next, filtered, expected, passes - 1, others);
        } else {
          AwaitTakesFrames(patience, config, cache, filtered, expected, others);
        }
      }
    }
  }

  lemma NothingObstructed(config: Config, expected: u8)
    ensures Unobstructed(config, expected, [])
  {
  }

  /**
    * A queue on which the filter is noticed: an 11-bit frame, then the answer. Unfiltered the call
    * times out and the answer stays queued; filtered it is returned.
    */
  lemma FilterIsNoticed(
    patience: nat -> nat, config: Config, cache: Option<Feedback>, link: Link<seq<RawFrame>>,
    standard: RawFrame, answer: RawFrame, expected: u8)
    requires !Extended(standard) && AnswersWait(config, expected, answer)
    requires link.state == [standard, answer]
    ensures Filtered(link.state, config.motorId) == [answer]
    ensures
      var x := Await(SocketPort(patience), config, cache, link, expected, 3);
      x.result == Err(Timeout) && x.link.state == [answer]
    ensures
      var filtered := link.(state := Filtered(link.state, config.motorId));
      var y := Await(SocketPort(patience), config, cache, filtered, expected, 2);
      y.result == Ok(Stripped(answer)) && y.link.state == []
  {
    hide SourceOf, CommTypeOf, ParseFeedback, SocketPort, Extended, Stripped, Passes;
    PassingFrame(standard, config.motorId);
    PassingFrame(answer, config.motorId);
    assert [standard, answer][1..] == [answer] && [answer][1..] == [];
    assert Filtered([answer], config.motorId) == [answer];
    assert Filtered(link.state, config.motorId) == [answer];
    SocketListen(patience, link);
    SocketListen(patience, link.(state := [answer]));
  }
}

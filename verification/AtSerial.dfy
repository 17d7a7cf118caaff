/**
  * The serial transport around the AT framing: the parser object, the partial-write loop of send
  * and the poll/read loop of receive. The operating system is a script of what its calls return.
  */
module AtSerial {
  import opened Bytes
  import opened Can
  import opened AtFraming

  const CHUNK_SIZE := 256
  const MAX_BUFFER := 272

  type Chunk = c: seq<u8> | |c| <= CHUNK_SIZE

  /** How one pass of the receive loop ends: its clock check, select and read. */
  datatype ReadEvent =
    | Expired            // the deadline has passed
    | Silent             // select timed out
    | Interrupted        // EINTR from select or read
    | Broken             // any other error
    | Arrived(chunk: Chunk)

  /** How one write call ends. */
  datatype WriteEvent = Accepted(count: nat) | WriteInterrupted | WriteFailed

  // ----------------------------------------------------------------- receive

  datatype Outcome = Delivered(frame: CanFrame) | Nothing | Failed

  datatype Received = Received(outcome: Outcome, buffer: seq<u8>, events: seq<ReadEvent>)

  /** One receive call from parser buffer `buffer`; when the script ends, so does the time. */
  function Reception(buffer: seq<u8>, events: seq<ReadEvent>): Received
    decreases |events|
  {
    var p := AtFraming.Poll(buffer);
    if p.frame.Some? then Received(Delivered(p.frame.value), p.rest, events)
    else if events == [] then Received(Nothing, p.rest, [])
    else
      match events[0]
      case Expired => Received(Nothing, p.rest, events[1..])
      case Silent => Received(Nothing, p.rest, events[1..])
      case Broken => Received(Failed, p.rest, events[1..])
      case Interrupted => Reception(p.rest, events[1..])
      case Arrived(chunk) => Reception(p.rest + chunk, events[1..])
  }

  /** The bytes a script brings in. */
  function BytesOf(events: seq<ReadEvent>): seq<u8> {
    if events == [] then []
    else (if events[0].Arrived? then events[0].chunk else []) + BytesOf(events[1..])
  }

  function Optional(outcome: Outcome): seq<CanFrame> {
    if outcome.Delivered? then [outcome.frame] else []
  }

  /** A receive call, however it ends, neither loses, invents nor reorders frames. */
  lemma {:induction false} ReceiveConserves(buffer: seq<u8>, events: seq<ReadEvent>)
    ensures
      var r := Reception(buffer, events);
      var left := Drain(r.buffer + BytesOf(r.events));
      Drain(buffer + BytesOf(events)) == Drained(Optional(r.outcome) + left.frames, left.rest)
    decreases |events|
  {
    var p := AtFraming.Poll(buffer);
    PollAppend(buffer, BytesOf(events));
    hide Drain, AtFraming.Poll;
    if p.frame.None? && events != [] {
      var tail := BytesOf(events[1..]);
      match events[0]
      case Interrupted =>
        assert p.rest + BytesOf(events) == p.rest + tail;
        ReceiveConserves(p.rest, events[1..]);
      case Arrived(chunk) =>
        assert p.rest + BytesOf(events) == p.rest + chunk + tail;
        ReceiveConserves(p.rest + chunk, events[1..]);
      case _ =>
        assert p.rest + BytesOf(events) == p.rest + tail;
    }
  }

  /** Scripts in which bytes keep arriving until they run out. */
  predicate Steady(events: seq<ReadEvent>) {
    forall i :: 0 <= i < |events| ==> events[i].Arrived? || events[i].Interrupted?
  }

  lemma {:induction false} SteadyEnds(buffer: seq<u8>, events: seq<ReadEvent>)
    requires Steady(events)
    ensures
      var r := Reception(buffer, events);
      && Steady(r.events) && !r.outcome.Failed?
      && (r.outcome.Nothing? ==> r.events == [] && Judge(r.buffer) == NeedMore)
    decreases |events|
  {
    var p := AtFraming.Poll(buffer);
    DrainByPolling(buffer);
    hide Judge, Drain, AtFraming.Poll;
    if p.frame.None? && events != [] {
      SteadyEnds(if events[0].Arrived? then p.rest + events[0].chunk else p.rest, events[1..]);
    }
  }

  /** While bytes keep arriving, receive returns the next frame of the stream exactly when there is one. */
  lemma SteadyReceive(buffer: seq<u8>, events: seq<ReadEvent>)
    requires Steady(events)
    ensures
      var r := Reception(buffer, events);
      var all := Drain(buffer + BytesOf(events));
      var left := Drain(r.buffer + BytesOf(r.events));
      && Steady(r.events)
      && all.rest == left.rest
      && r.outcome == (if all.frames == [] then Nothing else Delivered(all.frames[0]))
      && left.frames == (if all.frames == [] then [] else all.frames[1..])
  {
    ReceiveConserves(buffer, events);
    SteadyEnds(buffer, events);
    var r := Reception(buffer, events);
    hide Judge, Reception;
    assert r.buffer + [] == r.buffer;
  }

  lemma BytesOfParts(prefix: seq<ReadEvent>, rest: seq<ReadEvent>)
    requires prefix != []
    ensures (prefix + rest)[1..] == prefix[1..] + rest && (prefix + rest)[0] == prefix[0]
    ensures BytesOf(prefix) == (if prefix[0].Arrived? then prefix[0].chunk else []) + BytesOf(prefix[1..])
  {
  }

  lemma NoBytes()
    ensures BytesOf([]) == []
  {
  }

  /** The event ends a receive call: the deadline has passed, select timed out, or a call failed. */
  predicate Ends(event: ReadEvent) {
    event.Expired? || event.Silent? || event.Broken?
  }

  lemma ReceptionEnds(buffer: seq<u8>, events: seq<ReadEvent>)
    requires events != []
    ensures
      var p := AtFraming.Poll(buffer);
      && (p.frame.Some? ==> Reception(buffer, events) == Received(Delivered(p.frame.value), p.rest, events))
      && (p.frame.None? && Ends(events[0]) ==>
            Reception(buffer, events)
            == Received(if events[0].Broken? then Failed else Nothing, p.rest, events[1..]))
  {
    hide AtFraming.Poll;
  }

  lemma ReceptionPasses(buffer: seq<u8>, events: seq<ReadEvent>)
    requires events != [] && !Ends(events[0]) && AtFraming.Poll(buffer).frame.None?
    ensures
      var rest := AtFraming.Poll(buffer).rest;
      Reception(buffer, events)
      == Reception(if events[0].Arrived? then rest + events[0].chunk else rest, events[1..])
  {
    hide AtFraming.Poll;
  }

  /**
    * How a receive call ends, whatever comes in until then and after: if the bytes that arrive before
    * the call is stopped complete no frame, it returns nothing on a passed deadline or a select
    * timeout and fails on an error, leaves what comes later unread, and keeps the unfinished rest of
    * the stream. If they do complete one, it returns the first, and reads only until it is complete.
    */
  lemma {:induction false} ReceptionStops(
      buffer: seq<u8>, prefix: seq<ReadEvent>, stop: ReadEvent, rest: seq<ReadEvent>)
    returns (read: nat)
    requires Steady(prefix) && Ends(stop)
    ensures read <= |prefix|
    ensures
      var r := Reception(buffer, prefix + [stop] + rest);
      var all := Drain(buffer + BytesOf(prefix));
      if all.frames == [] then
        r == Received(if stop.Broken? then Failed else Nothing, all.rest, rest)
      else
        && r.outcome == Delivered(all.frames[0])
        && r.events == prefix[read..] + [stop] + rest
        && Drain(r.buffer + BytesOf(prefix[read..])) == Drained(all.frames[1..], all.rest)
        && (read > 0 ==> Drain(buffer + BytesOf(prefix[..read - 1])).frames == [])
    decreases |prefix|
  {
    hide Drain, AtFraming.Poll, Judge, Reception, BytesOf;
    var p := AtFraming.Poll(buffer);
    var events := prefix + [stop] + rest;
    ReceptionEnds(buffer, events);
    DrainByPolling(buffer);
    PollAppend(buffer, BytesOf(prefix));
    read := 0;
    assert prefix[0..] == prefix;
    if p.frame.None? {
      assert Drain(p.rest) == Drained([], p.rest) by { DrainHead(p.rest); }
      if prefix == [] {
        assert events[0] == stop && events[1..] == rest;
        assert BytesOf([]) == [] by { NoBytes(); }
        assert p.rest + [] == p.rest;
      } else {
        BytesOfParts(prefix, [stop] + rest);
        assert events == prefix + ([stop] + rest);
        var chunk := if prefix[0].Arrived? then prefix[0].chunk else [];
        var next := p.rest + chunk;
        assert p.rest + [] == p.rest;
        assert prefix[1..] + ([stop] + rest) == prefix[1..] + [stop] + rest;
        ReceptionPasses(buffer, events);
        assert p.rest + BytesOf(prefix) == next + BytesOf(prefix[1..]);
        var later := ReceptionStops(next, prefix[1..], stop, rest);
        read := 1 + later;
        assert prefix[1..][later..] == prefix[read..];
        if Drain(buffer + BytesOf(prefix)).frames != [] {
          NotYet(buffer, p.rest, prefix, later);
        }
      }
    }
  }

  /** If the rest after a fruitless poll yields nothing with the bytes up to a point, neither does the buffer. */
  lemma NotYet(buffer: seq<u8>, polled: seq<u8>, prefix: seq<ReadEvent>, later: nat)
    requires AtFraming.Poll(buffer) == Polled(None, polled) && prefix != [] && later <= |prefix| - 1
    requires
      var chunk := if prefix[0].Arrived? then prefix[0].chunk else [];
      later > 0 ==> Drain(polled + chunk + BytesOf(prefix[1..][..later - 1])).frames == []
    ensures Drain(buffer + BytesOf(prefix[..later])).frames == []
  {
    hide Drain, AtFraming.Poll;
    PollAppend(buffer, BytesOf(prefix[..later]));
    DrainByPolling(buffer);
    if later == 0 {
      assert prefix[..0] == [];
      assert buffer + BytesOf([]) == buffer;
    } else {
      var chunk := if prefix[0].Arrived? then prefix[0].chunk else [];
      var early := prefix[..later];
      assert early[1..] == prefix[1..][..later - 1] && early[0] == prefix[0];
      assert polled + BytesOf(early) == polled + chunk + BytesOf(early[1..]);
    }
  }

  /** The parser buffer stays within `bound` at every point of a receive call. */
  predicate StaysWithin(buffer: seq<u8>, events: seq<ReadEvent>, bound: nat)
    decreases |events|
  {
    var p := AtFraming.Poll(buffer);
    && |buffer| <= bound && |p.rest| <= bound
    && (p.frame.None? && events != [] && events[0].Arrived? ==>
        StaysWithin(p.rest + events[0].chunk, events[1..], bound))
    && (p.frame.None? && events != [] && events[0].Interrupted? ==> StaysWithin(p.rest, events[1..], bound))
  }

  /** A poll that finds no frame leaves at most 16 bytes, so no read can push the buffer past 272. */
  lemma {:induction false} BufferIsBounded(buffer: seq<u8>, events: seq<ReadEvent>)
    requires |buffer| <= MAX_BUFFER
    ensures StaysWithin(buffer, events, MAX_BUFFER)
    ensures |Reception(buffer, events).buffer| <= MAX_BUFFER
    decreases |events|
  {
    var p := AtFraming.Poll(buffer);
    DrainByPolling(buffer);
    hide Judge, Drain, AtFraming.Poll;
    if p.frame.None? && events != [] {
      if events[0].Arrived? {
        BufferIsBounded(p.rest + events[0].chunk, events[1..]);
      } else if events[0].Interrupted? {
        BufferIsBounded(p.rest, events[1..]);
      }
    }
  }

  // -------------------------------------------------------------------- send

  datatype Written = Written(count: nat, complete: bool, events: seq<WriteEvent>)

  /** How many of `size` offered bytes one write call takes. */
  function Taken(event: WriteEvent, size: nat): (n: nat)
    ensures n <= size && (!event.Accepted? ==> n == 0)
  {
    if !event.Accepted? then 0 else if event.count <= size then event.count else size
  }

  /** How many of `size` bytes a run of write calls hands over before completing, failing or blocking for good. */
  function Transmission(size: nat, events: seq<WriteEvent>): Written
    decreases |events|
  {
    if size == 0 then Written(0, true, events)
    else if events == [] then Written(0, false, [])
    else if events[0].WriteFailed? then Written(0, false, events[1..])
    else
      var now := Taken(events[0], size);
      var later := Transmission(size - now, events[1..]);
      Written(now + later.count, later.complete, later.events)
  }

  function Capacity(events: seq<WriteEvent>): nat {
    if events == [] || events[0].WriteFailed? then 0
    else (if events[0].Accepted? then events[0].count else 0) + Capacity(events[1..])
  }

  /** Partial writes and interruptions are invisible: the packet goes out whole as soon as the calls could take it. */
  lemma {:induction false} WriteCompletes(size: nat, events: seq<WriteEvent>)
    ensures
      var w := Transmission(size, events);
      && w.count <= size
      && (w.complete <==> w.count == size)
      && (w.complete <==> Capacity(events) >= size)
      && (!w.complete ==> w.count == Capacity(events))
    decreases |events|
  {
    if size > 0 && events != [] && !events[0].WriteFailed? {
      WriteCompletes(size - Taken(events[0], size), events[1..]);
    }
  }

  predicate NoneFails(events: seq<WriteEvent>) {
    forall i :: 0 <= i < |events| ==> !events[i].WriteFailed?
  }

  /**
    * How many write calls a send makes: up to the one with which the packet is out, or to the first
    * that fails, or all of them; the calls after that are not made.
    */
  lemma {:induction false} TransmissionStops(size: nat, events: seq<WriteEvent>) returns (calls: nat)
    ensures calls <= |events|
    ensures
      var w := Transmission(size, events);
      && w.events == events[calls..]
      && (w.complete ==> NoneFails(events[..calls]) && Capacity(events[..calls]) >= size)
      && (calls > 0 ==> NoneFails(events[..calls - 1]) && Capacity(events[..calls - 1]) < size)
      && (!w.complete ==> calls == |events| || (calls > 0 && events[calls - 1].WriteFailed?))
    decreases |events|
  {
    calls := 0;
    assert events[0..] == events;
    if size > 0 && events != [] {
      assert events[..0] == [];
      if events[0].WriteFailed? {
        calls := 1;
      } else {
        hide Capacity, NoneFails;
        var now := Taken(events[0], size);
        var more := TransmissionStops(size - now, events[1..]);
        calls := 1 + more;
        assert events[1..][more..] == events[calls..];
        assert more > 0 ==> events[1..][more - 1] == events[calls - 1];
        CapacityCons(events, calls);
        if more > 0 {
          assert events[1..][..more - 1] == events[..calls - 1][1..];
          CapacityCons(events, calls - 1);
        }
      }
    }
  }

  lemma CapacityCons(events: seq<WriteEvent>, n: nat)
    requires 0 < n <= |events| && !events[0].WriteFailed?
    ensures events[..n][1..] == events[1..][..n - 1]
    ensures Capacity(events[..n])
         == (if events[0].Accepted? then events[0].count else 0) + Capacity(events[1..][..n - 1])
    ensures NoneFails(events[..n]) <==> NoneFails(events[1..][..n - 1])
    ensures Capacity([]) == 0 && NoneFails([])
  {
    assert events[..n][1..] == events[1..][..n - 1];
    if NoneFails(events[1..][..n - 1]) {
      forall i | 0 <= i < n
        ensures !events[..n][i].WriteFailed?
      {
        assert i > 0 ==> events[..n][i] == events[1..][..n - 1][i - 1];
      }
    }
  }

  /** `rest` is what remains of `all` once `sent` bytes are out. */
  predicate Resumes(all: Written, sent: nat, rest: Written) {
    all.count == sent + rest.count && all.complete == rest.complete && all.events == rest.events
  }

  lemma TransmissionStep(size: nat, events: seq<WriteEvent>)
    ensures
      var w := Transmission(size, events);
      if size == 0 then w == Written(0, true, events)
      else if events == [] then w == Written(0, false, [])
      else if events[0].WriteFailed? then w == Written(0, false, events[1..])
      else
        var later := Transmission(size - Taken(events[0], size), events[1..]);
        w == Written(Taken(events[0], size) + later.count, later.complete, later.events)
  {
  }

  lemma PrefixGrows(line: seq<u8>, packet: seq<u8>, sent: nat, taken: nat)
    requires sent + taken <= |packet|
    ensures line + packet[..sent] + packet[sent..][..taken] == line + packet[..sent + taken]
  {
  }

  // ----------------------------------------------------------------- objects

  method EncodeFrame(frame: CanFrame) returns (out: seq<u8>)
    requires frame.dlc <= 8
    ensures out == Encoded(frame)
  {
    var packed: u32 := frame.id % ID_SPACE * 8 + 4;
    out := [];
    out := out + [LETTER_A];
    out := out + [LETTER_T];
    out := out + [packed / 0x100_0000];
    out := out + [packed / 0x1_0000 % 0x100];
    out := out + [packed / 0x100 % 0x100];
    out := out + [packed % 0x100];
    out := out + [frame.dlc];
    out := out + frame.data[..frame.dlc];
    out := out + [CR];
    out := out + [LF];
  }

  class FrameParser {
    var buffer: seq<u8>

    constructor ()
      ensures buffer == []
    {
      buffer := [];
    }

    method Push(data: seq<u8>)
      modifies this
      ensures buffer == old(buffer) + data
    {
      buffer := buffer + data;
    }

    method Poll() returns (frame: Option<CanFrame>)
      modifies this
      ensures Polled(frame, buffer) == AtFraming.Poll(old(buffer))
      ensures |buffer| <= |old(buffer)|
      ensures frame.None? ==> |buffer| <= MAX_PENDING
    {
      while |buffer| >= HEADER_SIZE + TAIL_SIZE
        invariant AtFraming.Poll(buffer) == AtFraming.Poll(old(buffer))
        invariant |buffer| <= |old(buffer)|
        decreases |buffer|
      {
        if buffer[0] != LETTER_A || buffer[1] != LETTER_T {
          buffer := buffer[1..];
          continue;
        }
        var dlc := buffer[6];
        if dlc > 8 {
          buffer := buffer[1..];
          continue;
        }
        var total := HEADER_SIZE + dlc + TAIL_SIZE;
        if |buffer| < total {
          return None;
        }
        if buffer[total - 2] != CR || buffer[total - 1] != LF {
          buffer := buffer[1..];
          continue;
        }
        var packed := BigEndian32(buffer[2], buffer[3], buffer[4], buffer[5]);
        var data := buffer[HEADER_SIZE..HEADER_SIZE + dlc] + seq(8 - dlc, _ => 0);
        frame := Some(CanFrame(packed / 8 % ID_SPACE, data, dlc));
        buffer := buffer[total..];
        return;
      }
      frame := None;
    }
  }

  class AtSerialCanInterface {
    const parser: FrameParser
    var line: seq<u8>           // every byte the device has accepted
    var incoming: seq<ReadEvent>   // what the coming passes of receive will meet
    var outgoing: seq<WriteEvent> // what the coming write calls will return

    ghost predicate Valid()
      reads this, parser
    {
      |parser.buffer| <= MAX_BUFFER
    }

    constructor (incoming: seq<ReadEvent>, outgoing: seq<WriteEvent>)
      ensures Valid() && fresh(parser) && parser.buffer == [] && line == []
      ensures this.incoming == incoming && this.outgoing == outgoing
    {
      parser := new FrameParser();
      line := [];
      this.incoming := incoming;
      this.outgoing := outgoing;
    }

    method Send(frame: CanFrame) returns (complete: bool)
      requires Valid() && frame.dlc <= 8
      modifies this
      ensures Valid() && incoming == old(incoming)
      ensures
        var w := Transmission(|Encoded(frame)|, old(outgoing));
        && w.count <= |Encoded(frame)|
        && complete == w.complete && outgoing == w.events
        && line == old(line) + Encoded(frame)[..w.count]
    {
      var packet := EncodeFrame(frame);
      complete := WriteAll(packet);
    }

    /** Writes until the whole packet is out or a call fails. */
    method WriteAll(packet: seq<u8>) returns (complete: bool)
      modifies this
      ensures incoming == old(incoming)
      ensures
        var w := Transmission(|packet|, old(outgoing));
        && w.count <= |packet|
        && complete == w.complete && outgoing == w.events
        && line == old(line) + packet[..w.count]
    {
      hide Transmission, Taken;
      var sent: nat := 0;
      WriteCompletes(|packet|, outgoing);
      while sent < |packet|
        invariant sent <= |packet| && incoming == old(incoming)
        invariant line == old(line) + packet[..sent]
        invariant Resumes(Transmission(|packet|, old(outgoing)), sent, Transmission(|packet| - sent, outgoing))
        decreases |outgoing|
      {
        TransmissionStep(|packet| - sent, outgoing);
        if outgoing == [] {
          return false;
        }
        var event, written := WriteOnce(packet[sent..]);
        PrefixGrows(old(line), packet, sent, written);
        if event.WriteFailed? {
          return false;
        }
        sent := sent + written;
      }
      TransmissionStep(0, outgoing);
      complete := true;
    }

    /** One write call: the device takes a prefix of the data, or the call is interrupted or fails. */
    method WriteOnce(data: seq<u8>) returns (event: WriteEvent, written: nat)
      requires outgoing != []
      modifies this
      ensures event == old(outgoing)[0] && outgoing == old(outgoing)[1..] && incoming == old(incoming)
      ensures written == Taken(event, |data|) && line == old(line) + data[..written]
    {
      event := outgoing[0];
      outgoing := outgoing[1..];
      written := Taken(event, |data|);
      line := line + data[..written];
    }

    method Receive() returns (outcome: Outcome)
      requires Valid()
      modifies this, parser
      ensures Valid() && line == old(line) && outgoing == old(outgoing)
      ensures Received(outcome, parser.buffer, incoming) == Reception(old(parser.buffer), old(incoming))
    {
      while true
        invariant Valid() && line == old(line) && outgoing == old(outgoing)
        invariant Reception(parser.buffer, incoming) == Reception(old(parser.buffer), old(incoming))
        decreases |incoming|
      {
        var polled := parser.Poll();
        if polled.Some? {
          return Delivered(polled.value);
        }
        if incoming == [] {
          return Nothing;
        }
        var event := incoming[0];
        incoming := incoming[1..];
        match event {
          case Expired => return Nothing;
          case Silent => return Nothing;
          case Broken => return Failed;
          case Interrupted =>
          case Arrived(chunk) => parser.Push(chunk);
        }
      }
    }
  }
}

/**
  * The serial adapter is transparent: a client cannot tell the simulator reached through AT frames,
  * partial writes and chunked reads from the simulator called directly.
  */
module Transparency {
  import opened Bytes
  import opened Can
  import opened AtFraming
  import AtSerial
  import opened Protocol
  import opened Stub
  import opened StubTrace
  import opened Driver
  import opened Fleet
  import opened Conservation

  // ------------------------------------------------------------- simulation

  /** Related states answer sends and receives alike and stay related. */
  ghost predicate Simulates<S(!new), T(!new)>(a: Port<S>, b: Port<T>, related: (S, T) -> bool) {
    && (forall n: nat :: a.patience(n) == b.patience(n))
    && (forall s: S, t: T, f: CanFrame :: related(s, t) && Full(f) ==>
          a.send(s, f).1 == b.send(t, f).1 && related(a.send(s, f).0, b.send(t, f).0))
    && (forall s: S, t: T :: related(s, t) ==>
          a.receive(s).1 == b.receive(t).1 && related(a.receive(s).0, b.receive(t).0))
  }

  ghost predicate SameLinks<S, T>(related: (S, T) -> bool, a: Link<S>, b: Link<T>) {
    related(a.state, b.state) && a.exchanges == b.exchanges && a.log == b.log
  }

  lemma {:induction false} AwaitAlike<S(!new), T(!new)>(
    a: Port<S>, b: Port<T>, related: (S, T) -> bool, config: Config, cache: Option<Feedback>,
    la: Link<S>, lb: Link<T>, expected: u8, passes: nat)
    requires Simulates(a, b, related) && SameLinks(related, la, lb)
    ensures
      var x := Await(a, config, cache, la, expected, passes);
      var y := Await(b, config, cache, lb, expected, passes);
      x.result == y.result && x.cache == y.cache && SameLinks(related, x.link, y.link)
    decreases passes
  {
    hide SourceOf, CommTypeOf, Cached, Simulates, SameLinks, Listened;
    if passes > 0 {
      ListenedAlike(a, b, related, la, lb);
      var (na, ha) := Listened(a, la);
      var (nb, hb) := Listened(b, lb);
      if ha.Frame? {
        AwaitAlike(a, b, related, config, cache, na, nb, expected, passes - 1);
        AwaitAlike(a, b, related, config, Cached(config, cache, ha.frame), na, nb, expected, passes - 1);
      }
    }
  }

  lemma ListenedAlike<S(!new), T(!new)>(a: Port<S>, b: Port<T>, related: (S, T) -> bool, la: Link<S>, lb: Link<T>)
    requires Simulates(a, b, related) && SameLinks(related, la, lb)
    ensures Listened(a, la).1 == Listened(b, lb).1 && SameLinks(related, Listened(a, la).0, Listened(b, lb).0)
  {
  }

  lemma TransceivedAlike<S(!new), T(!new)>(
    a: Port<S>, b: Port<T>, related: (S, T) -> bool, config: Config, cache: Option<Feedback>,
    la: Link<S>, lb: Link<T>, frame: CanFrame, expected: u8)
    requires Simulates(a, b, related) && SameLinks(related, la, lb) && Full(frame)
    ensures
      var x := Transceived(a, config, cache, la, frame, expected);
      var y := Transceived(b, config, cache, lb, frame, expected);
      x.result == y.result && x.cache == y.cache && SameLinks(related, x.link, y.link)
  {
    hide Await, Full, Simulates, SameLinks, Submitted;
    SubmittedAlike(a, b, related, la, lb, frame);
    var (na, oa) := Submitted(a, la, frame);
    var (nb, ob) := Submitted(b, lb, frame);
    AwaitAlike(a, b, related, config, cache, na, nb, expected, a.patience(la.exchanges));
  }

  lemma PortsAlike<S(!new), T(!new)>(
    a: Port<S>, b: Port<T>, related: (S, T) -> bool, s: S, t: T, frame: CanFrame, n: nat)
    requires Simulates(a, b, related) && related(s, t) && Full(frame)
    ensures a.send(s, frame).1 == b.send(t, frame).1 && related(a.send(s, frame).0, b.send(t, frame).0)
    ensures a.patience(n) == b.patience(n)
  {
    hide Full;
  }

  lemma SubmittedAlike<S(!new), T(!new)>(
    a: Port<S>, b: Port<T>, related: (S, T) -> bool, la: Link<S>, lb: Link<T>, frame: CanFrame)
    requires Simulates(a, b, related) && SameLinks(related, la, lb) && Full(frame)
    ensures Submitted(a, la, frame).1 == Submitted(b, lb, frame).1
    ensures SameLinks(related, Submitted(a, la, frame).0, Submitted(b, lb, frame).0)
    ensures a.patience(la.exchanges) == b.patience(lb.exchanges)
  {
    hide Full, Simulates;
    PortsAlike(a, b, related, la.state, lb.state, frame, la.exchanges);
  }

  lemma {:induction false} PerformedAlike<S(!new), T(!new)>(
    a: Port<S>, b: Port<T>, related: (S, T) -> bool, config: Config, cache: Option<Feedback>,
    la: Link<S>, lb: Link<T>, steps: seq<Exchange>)
    requires Simulates(a, b, related) && SameLinks(related, la, lb)
    requires steps != [] && AllAnswerable(config, steps)
    ensures
      var x := Performed(a, config, cache, la, steps);
      var y := Performed(b, config, cache, lb, steps);
      x.result == y.result && x.cache == y.cache && SameLinks(related, x.link, y.link)
    decreases |steps|
  {
    hide Transceived, Simulates, SameLinks, Answerable, AllAnswerable, Full, WellFormedAnswer;
    AnswerableParts(config, steps);
    AnswerableIsFull(config, steps[0]);
    TransceivedAlike(a, b, related, config, cache, la, lb, steps[0].frame, steps[0].expected);
    if |steps| > 1 {
      var x := Transceived(a, config, cache, la, steps[0].frame, steps[0].expected);
      var y := Transceived(b, config, cache, lb, steps[0].frame, steps[0].expected);
      PerformedAlike(a, b, related, config, x.cache, x.link, y.link, steps[1..]);
    }
  }

  lemma AnswerableIsFull(config: Config, step: Exchange)
    requires Answerable(config, step)
    ensures Full(step.frame)
  {
  }

  ghost predicate SameSessions<S, T>(related: (S, T) -> bool, a: Session<S>, b: Session<T>) {
    SameLinks(related, a.link, b.link) && a.caches == b.caches
  }

  /** Over related transports an adaptive client gets the same replies and leaves related states. */
  lemma {:induction false} ConductedAlike<S(!new), T(!new)>(
    a: Port<S>, b: Port<T>, related: (S, T) -> bool, fleet: nat -> Config, client: seq<Reply> -> Request,
    sa: Session<S>, sb: Session<T>, n: nat)
    requires Simulates(a, b, related) && SameSessions(related, sa, sb)
    ensures
      var (ea, ra) := Conducted(a, fleet, client, sa, n);
      var (eb, rb) := Conducted(b, fleet, client, sb, n);
      ra == rb && SameSessions(related, ea, eb)
    decreases n
  {
    hide Performed, Simulates, SameLinks, StepsOf, Concluded, AllAnswerable, Answerable;
    if n > 0 {
      ConductedAlike(a, b, related, fleet, client, sa, sb, n - 1);
      var (ma, ra) := Conducted(a, fleet, client, sa, n - 1);
      var (mb, rb) := Conducted(b, fleet, client, sb, n - 1);
      var r := client(ra);
      StepsAreAllAnswerable(fleet(r.who), r.op);
      PerformedAlike(a, b, related, fleet(r.who), CacheOf(ma, r.who), ma.link, mb.link, StepsOf(fleet(r.who), r.op));
    }
  }

  lemma StepsAreAllAnswerable(config: Config, op: Op)
    ensures AllAnswerable(config, StepsOf(config, op))
  {
    hide Answerable, StepsOf;
    StepsAreAnswerable(config, op);
  }

  // ------------------------------------------------------ the serial transport

  /**
    * The simulator behind the USB-CAN module: the module's parser buffer, the bytes on the wire to
    * the host, the host's parser buffer, and how many send and receive calls were made so far.
    */
  datatype SerialWorld = SerialWorld(
    stub: StubState, sends: nat, adapter: seq<u8>, wire: seq<u8>, host: seq<u8>, sendCalls: nat, receiveCalls: nat)

  /**
    * The host's serial device, unconstrained: for the k-th send call what its write calls return,
    * given the packet, and for the k-th receive call what its passes meet, given the waiting bytes.
    */
  datatype Device = Device(
    outgoing: (nat, seq<u8>) -> seq<AtSerial.WriteEvent>,
    incoming: (nat, seq<u8>) -> seq<AtSerial.ReadEvent>)

  /**
    * All that transparency needs of a device: the write calls of a send can take its packet, and
    * the passes of a receive bring in the waiting bytes, in order, before the time is up. Pieces of
    * any size, empty ones and interruptions may come in any number, differently in every call.
    */
  ghost predicate InTime(device: Device) {
    && (forall k: nat, packet: seq<u8> :: AtSerial.Capacity(device.outgoing(k, packet)) >= |packet|)
    && (forall k: nat, wire: seq<u8> :: AtSerial.Steady(device.incoming(k, wire)))
    && (forall k: nat, wire: seq<u8> :: AtSerial.BytesOf(device.incoming(k, wire)) == wire)
  }

  /**
    * One such device: every packet is taken at once, and every byte comes in alone, after an empty
    * read and an interrupted pass.
    */
  const DRIPPING := Device(
    (_: nat, packet: seq<u8>) => [AtSerial.Accepted(|packet|)],
    (_: nat, wire: seq<u8>) => Drops(wire))

  function Drops(wire: seq<u8>): seq<AtSerial.ReadEvent> {
    if wire == [] then []
    else [AtSerial.Arrived([])] + ([AtSerial.Interrupted] + ([AtSerial.Arrived(wire[..1])] + Drops(wire[1..])))
  }

  lemma ArrivalsCons(e: AtSerial.ReadEvent, events: seq<AtSerial.ReadEvent>)
    ensures AtSerial.BytesOf([e] + events) == (if e.Arrived? then e.chunk else []) + AtSerial.BytesOf(events)
    ensures AtSerial.Steady(events) && (e.Arrived? || e.Interrupted?) ==> AtSerial.Steady([e] + events)
  {
    assert ([e] + events)[1..] == events;
  }

  lemma {:induction false} DropsArrive(wire: seq<u8>)
    ensures AtSerial.Steady(Drops(wire)) && AtSerial.BytesOf(Drops(wire)) == wire
    decreases |wire|
  {
    if wire != [] {
      hide AtSerial.Steady, AtSerial.BytesOf;
      var tail := Drops(wire[1..]);
      DropsArrive(wire[1..]);
      ArrivalsCons(AtSerial.Arrived(wire[..1]), tail);
      ArrivalsCons(AtSerial.Interrupted, [AtSerial.Arrived(wire[..1])] + tail);
      ArrivalsCons(AtSerial.Arrived([]), [AtSerial.Interrupted] + ([AtSerial.Arrived(wire[..1])] + tail));
      assert wire[..1] + wire[1..] == wire;
    }
  }

  lemma {:induction false} DrippingIsInTime()
    ensures InTime(DRIPPING)
  {
    forall k: nat, wire: seq<u8>
      ensures AtSerial.Steady(DRIPPING.incoming(k, wire)) && AtSerial.BytesOf(DRIPPING.incoming(k, wire)) == wire
    {
      DropsArrive(wire);
    }
  }

  /** The pieces of a packet that successive write calls take. */
  function Handed(packet: seq<u8>, events: seq<AtSerial.WriteEvent>): (pieces: seq<seq<u8>>)
    decreases |events|
  {
    if packet == [] || events == [] || events[0].WriteFailed? then []
    else
      var now := AtSerial.Taken(events[0], |packet|);
      [packet[..now]] + Handed(packet[now..], events[1..])
  }

  function Joined(pieces: seq<seq<u8>>): seq<u8> {
    if pieces == [] then [] else pieces[0] + Joined(pieces[1..])
  }

  /** The pieces handed over are the part of the packet that the send loop gets out. */
  lemma {:induction false} HandedIsTransmitted(packet: seq<u8>, events: seq<AtSerial.WriteEvent>)
    ensures
      var w := AtSerial.Transmission(|packet|, events);
      w.count <= |packet| && Joined(Handed(packet, events)) == packet[..w.count]
    decreases |events|
  {
    hide Joined, AtSerial.Taken, AtSerial.Transmission, AtSerial.Capacity;
    JoinedNothing();
    AtSerial.WriteCompletes(|packet|, events);
    AtSerial.TransmissionStep(|packet|, events);
    if packet != [] && events != [] && !events[0].WriteFailed? {
      var now := AtSerial.Taken(events[0], |packet|);
      var rest := packet[now..];
      HandedIsTransmitted(rest, events[1..]);
      JoinedCons(packet[..now], Handed(rest, events[1..]));
      var later := AtSerial.Transmission(|rest|, events[1..]).count;
      assert packet[..now] + rest[..later] == packet[..now + later];
    }
  }

  lemma JoinedNothing()
    ensures Joined([]) == []
  {
  }

  lemma JoinedCons(piece: seq<u8>, pieces: seq<seq<u8>>)
    ensures Joined([piece] + pieces) == piece + Joined(pieces)
  {
    assert ([piece] + pieces)[1..] == pieces;
  }

  /** The module's parser: each piece is pushed and everything complete is taken out. */
  function Delivered(buffer: seq<u8>, pieces: seq<seq<u8>>): Drained
    decreases |pieces|
  {
    if pieces == [] then Drained([], buffer)
    else
      var d := Drain(buffer + pieces[0]);
      var rest := Delivered(d.rest, pieces[1..]);
      Drained(d.frames + rest.frames, rest.rest)
  }

  /** Delivery piece by piece is delivery at once. */
  lemma {:induction false} DeliveredAtOnce(buffer: seq<u8>, pieces: seq<seq<u8>>)
    requires Judge(buffer) == NeedMore
    ensures Delivered(buffer, pieces) == Drain(buffer + Joined(pieces))
    decreases |pieces|
  {
    DrainHead(buffer);
    hide Judge, Drain, Decoded;
    if pieces == [] {
      assert buffer + [] == buffer;
    } else {
      var d := Drain(buffer + pieces[0]);
      DrainStops(buffer + pieces[0]);
      DeliveredAtOnce(d.rest, pieces[1..]);
      DrainAppend(buffer + pieces[0], Joined(pieces[1..]));
      assert buffer + pieces[0] + Joined(pieces[1..]) == buffer + Joined(pieces);
    }
  }

  lemma {:induction false} DrainStops(b: seq<u8>)
    ensures Judge(Drain(b).rest) == NeedMore
    decreases |b|
  {
    DrainHead(b);
    hide Drain, Decoded;
    match Judge(b)
    case NeedMore =>
    case Skip => DrainStops(b[1..]);
    case Take(size) => DrainStops(b[size..]);
  }

  /** Commands reach the simulator in order, the n-th at time clock(n). */
  function Relayed(limits: Limits, st: StubState, frames: seq<CanFrame>, clock: nat -> real, n: nat): StubState
    decreases |frames|
  {
    if frames == [] then st
    else Relayed(limits, Stub.Sent(limits, st, frames[0], clock(n)), frames[1..], clock, n + 1)
  }

  /** Responses on their way to the host, in AT framing. */
  function Line(frames: seq<CanFrame>): seq<u8> {
    if frames == [] then []
    else (if frames[0].dlc <= 8 then Encoded(frames[0]) else []) + Line(frames[1..])
  }

  /** One send: the write loop hands the packet over piece by piece, the module relays each frame it completes. */
  function SerialSent(
    limits: Limits, clock: nat -> real, device: Device, w: SerialWorld, frame: CanFrame): (SerialWorld, bool)
  {
    if frame.dlc > 8 then (w, false)
    else
      var packet := Encoded(frame);
      var events := device.outgoing(w.sendCalls, packet);
      var d := Delivered(w.adapter, Handed(packet, events));
      var st := Relayed(limits, w.stub, d.frames, clock, w.sends);
      (SerialWorld(st.(responses := []), w.sends + |d.frames|, d.rest, w.wire + Line(st.responses), w.host,
                   w.sendCalls + 1, w.receiveCalls),
       AtSerial.Transmission(|packet|, events).complete)
  }

  function SerialReceived(device: Device, w: SerialWorld): (SerialWorld, Heard) {
    var r := AtSerial.Reception(w.host, device.incoming(w.receiveCalls, w.wire));
    var heard := match r.outcome
      case Delivered(frame) => Frame(frame)
      case Nothing => Silence
      case Failed => Broken;
    (w.(host := r.buffer, wire := AtSerial.BytesOf(r.events), receiveCalls := w.receiveCalls + 1), heard)
  }

  /** The simulator reached over the serial line through a given device. */
  function SerialPort(limits: Limits, clock: nat -> real, patience: nat -> nat, device: Device): Port<SerialWorld> {
    Port(
      (w: SerialWorld, frame: CanFrame) => SerialSent(limits, clock, device, w, frame),
      (w: SerialWorld) => SerialReceived(device, w),
      patience)
  }

  /**
    * On any device, in time or not: a send succeeds exactly when its write calls can take the packet;
    * a receive that is stopped before the bytes so far complete a frame is silent after a timeout and
    * broken after an error, and leaves the bytes that come later on the wire.
    */
  lemma {:induction false} SerialStops(
    limits: Limits, clock: nat -> real, patience: nat -> nat, device: Device, w: SerialWorld, frame: CanFrame,
    prefix: seq<AtSerial.ReadEvent>, stop: AtSerial.ReadEvent, rest: seq<AtSerial.ReadEvent>)
    requires frame.dlc <= 8
    requires device.incoming(w.receiveCalls, w.wire) == prefix + [stop] + rest
    requires AtSerial.Steady(prefix) && AtSerial.Ends(stop)
    requires Drain(w.host + AtSerial.BytesOf(prefix)).frames == []
    ensures
      var port := SerialPort(limits, clock, patience, device);
      && port.send(w, frame).1
         == (AtSerial.Capacity(device.outgoing(w.sendCalls, Encoded(frame))) >= 9 + frame.dlc)
      && port.receive(w).1 == (if stop.Broken? then Broken else Silence)
      && port.receive(w).0.host == Drain(w.host + AtSerial.BytesOf(prefix)).rest
      && port.receive(w).0.wire == AtSerial.BytesOf(rest)
  {
    hide Drain, AtSerial.Reception, AtSerial.BytesOf, AtSerial.Steady, AtSerial.Transmission, AtSerial.Capacity,
      Encoded, Handed, Delivered, Relayed, Line;
    var read := AtSerial.ReceptionStops(w.host, prefix, stop, rest);
    AtSerial.WriteCompletes(|Encoded(frame)|, device.outgoing(w.sendCalls, Encoded(frame)));
  }

  /** The same simulator, with the queued responses still travelling as bytes. */
  predicate InTransit(direct: World, serial: SerialWorld) {
    && serial.sends == direct.sends
    && serial.stub == direct.stub.(responses := [])
    && serial.adapter == []
    && Drain(serial.host + serial.wire) == Drained(direct.stub.responses, [])
  }

  lemma ReceiveAlike(
      device: Device, direct: World, serial: SerialWorld, limits: Limits, clock: nat -> real, patience: nat -> nat)
    requires InTransit(direct, serial) && InTime(device)
    ensures
      var (nd, hd) := StubPort(limits, clock, patience).receive(direct);
      var (ns, hs) := SerialReceived(device, serial);
      hd == hs && InTransit(nd, ns)
  {
    hide Drain, AtSerial.Reception, AtSerial.Steady, AtSerial.BytesOf, AtSerial.Capacity;
    var events := device.incoming(serial.receiveCalls, serial.wire);
    assert AtSerial.Steady(events) && AtSerial.BytesOf(events) == serial.wire;
    AtSerial.SteadyReceive(serial.host, events);
  }

  lemma ResponsesAreFull(limits: Limits, st: StubState, frame: CanFrame, now: real)
    requires st.responses == []
    ensures AllFull(Stub.Sent(limits, st, frame, now).responses)
  {
    hide Effect, Response, Full, Supported, TargetOf, SourceOf, CommTypeOf, MotorOf;
    if Supported(frame) {
      ResponseFacts(limits, Effect(limits, MotorOf(st, TargetOf(frame)), frame, now), frame, st.temperature);
    }
  }

  lemma {:induction false} LineOfFull(frames: seq<CanFrame>)
    requires AllFull(frames)
    ensures Line(frames) == EncodedAll(frames)
  {
    if frames != [] {
      hide Encoded;
      LineOfFull(frames[1..]);
    }
  }

  lemma DeliverCommand(frame: CanFrame, events: seq<AtSerial.WriteEvent>)
    requires Full(frame) && AtSerial.Capacity(events) >= |Encoded(frame)|
    ensures Delivered([], Handed(Encoded(frame), events)) == Drained([frame], [])
    ensures AtSerial.Transmission(|Encoded(frame)|, events).complete
  {
    var packet := Encoded(frame);
    hide Encoded, Handed, Delivered, Joined, AtSerial.Transmission, AtSerial.Capacity;
    HandedIsTransmitted(packet, events);
    AtSerial.WriteCompletes(|packet|, events);
    assert Judge([]) == NeedMore;
    DeliveredAtOnce([], Handed(packet, events));
    assert packet[..|packet|] == packet;
    assert [] + packet == packet;
    assert EncodedAll([frame]) == packet by {
      assert [frame][1..] == [];
      assert EncodedAll([]) == [];
      assert packet + [] == packet;
    }
    DrainEncodedAll([frame]);
  }

  lemma SendAlike(
    limits: Limits, clock: nat -> real, patience: nat -> nat, device: Device,
    direct: World, serial: SerialWorld, frame: CanFrame)
    requires InTransit(direct, serial) && Full(frame) && InTime(device)
    ensures
      var (nd, od) := StubPort(limits, clock, patience).send(direct, frame);
      var (ns, os) := SerialSent(limits, clock, device, serial, frame);
      od == os && InTransit(nd, ns)
  {
    hide Encoded, Delivered, Drain, Stub.Sent, Line, Full, AllFull, InTime;
    var st := Stub.Sent(limits, serial.stub, frame, clock(direct.sends));
    SerialSentValue(limits, clock, device, serial, frame);
    SentAddsToQueue(limits, direct.stub, frame, clock(direct.sends));
    ResponsesAreFull(limits, serial.stub, frame, clock(direct.sends));
    AddedToLine(serial.host, serial.wire, direct.stub.responses, st.responses);
  }

  /** What one send over the serial line comes to. */
  lemma SerialSentValue(limits: Limits, clock: nat -> real, device: Device, w: SerialWorld, frame: CanFrame)
    requires w.adapter == [] && Full(frame) && InTime(device)
    ensures
      var (ns, ok) := SerialSent(limits, clock, device, w, frame);
      var st := Stub.Sent(limits, w.stub, frame, clock(w.sends));
      && ok && ns.sends == w.sends + 1 && ns.adapter == [] && ns.stub == st.(responses := [])
      && ns.wire == w.wire + Line(st.responses) && ns.host == w.host
  {
    DeliverCommand(frame, device.outgoing(w.sendCalls, Encoded(frame)));
    RelayOne(limits, w.stub, frame, clock, w.sends);
    hide Encoded, Handed, Delivered, Stub.Sent, Line, Relayed, AtSerial.Transmission, AtSerial.Capacity;
  }

  lemma AddedToLine(host: seq<u8>, wire: seq<u8>, queued: seq<CanFrame>, added: seq<CanFrame>)
    requires Drain(host + wire) == Drained(queued, []) && AllFull(added)
    ensures Drain(host + (wire + Line(added))) == Drained(queued + added, [])
  {
    hide Encoded, Drain, EncodedAll, Line;
    LineOfFull(added);
    DrainEncodedAll(added);
    DrainAppend(host + wire, Line(added));
    assert host + wire + Line(added) == host + (wire + Line(added));
    assert [] + Line(added) == Line(added);
  }

  lemma RelayOne(limits: Limits, st: StubState, frame: CanFrame, clock: nat -> real, n: nat)
    ensures Relayed(limits, st, [frame], clock, n) == Stub.Sent(limits, st, frame, clock(n))
  {
    hide Stub.Sent;
    assert [frame][1..] == [];
    var next := Stub.Sent(limits, st, frame, clock(n));
    assert Relayed(limits, next, [], clock, n + 1) == next;
  }

  lemma {:induction false} SerialSimulatesDirect(
      limits: Limits, clock: nat -> real, patience: nat -> nat, device: Device)
    requires InTime(device)
    ensures Simulates(StubPort(limits, clock, patience), SerialPort(limits, clock, patience, device), InTransit)
  {
    hide InTransit, SerialSent, SerialReceived, Full, InTime;
    var a, b := StubPort(limits, clock, patience), SerialPort(limits, clock, patience, device);
    forall s: World, t: SerialWorld, f: CanFrame | InTransit(s, t) && Full(f)
      ensures a.send(s, f).1 == b.send(t, f).1 && InTransit(a.send(s, f).0, b.send(t, f).0)
    {
      SendAlike(limits, clock, patience, device, s, t, f);
    }
    forall s: World, t: SerialWorld | InTransit(s, t)
      ensures a.receive(s).1 == b.receive(t).1 && InTransit(a.receive(s).0, b.receive(t).0)
    {
      ReceiveAlike(device, s, t, limits, clock, patience);
    }
  }

  const NEW_SERIAL_WORLD := SerialWorld(NEW_STUB, 0, [], [], [], 0, 0)

  /**
    * Transport transparency: for every client, fleet and clock, and every device on which bytes go
    * out and come in before the time is up, the replies, the feedback caches, the traffic and the
    * final simulator are the same over the serial line as in direct calls.
    */
  lemma {:induction false} SerialIsTransparent(
    limits: Limits, clock: nat -> real, patience: nat -> nat, device: Device,
    fleet: nat -> Config, client: seq<Reply> -> Request, n: nat)
    requires InTime(device)
    ensures
      var (d, direct) := Conducted(StubPort(limits, clock, patience), fleet, client, NewSession(NEW_WORLD), n);
      var (s, serial) := Conducted(SerialPort(limits, clock, patience, device), fleet, client,
          NewSession(NEW_SERIAL_WORLD), n);
      && serial == direct
      && s.caches == d.caches
      && s.link.log == d.link.log
      && s.link.state.stub == d.link.state.stub.(responses := [])
      && Drain(s.link.state.host + s.link.state.wire) == Drained(d.link.state.stub.responses, [])
  {
    hide Conducted, StubPort, SerialPort, Simulates, InTime;
    SerialSimulatesDirect(limits, clock, patience, device);
    FreshInTransit();
    ConductedAlike(
      StubPort(limits, clock, patience), SerialPort(limits, clock, patience, device), InTransit,
      fleet, client, NewSession(NEW_WORLD), NewSession(NEW_SERIAL_WORLD), n);
  }

  lemma FreshInTransit()
    ensures InTransit(NEW_WORLD, NEW_SERIAL_WORLD)
  {
    DrainHead([]);
    assert Judge([]) == NeedMore;
    assert NEW_SERIAL_WORLD.host + NEW_SERIAL_WORLD.wire == [];
  }

  /** So no call ever fails over the serial line either, and no byte stays behind. */
  lemma {:induction false} SerialLockstep(
    limits: Limits, clock: nat -> real, patience: nat -> nat, device: Device,
    fleet: nat -> Config, client: seq<Reply> -> Request, n: nat)
    requires InTime(device) && forall n :: patience(n) > 0
    ensures
      var (s, replies) := Conducted(SerialPort(limits, clock, patience, device), fleet, client,
          NewSession(NEW_SERIAL_WORLD), n);
      && |replies| == n && (forall k :: 0 <= k < n ==> !replies[k].Failed?)
      && Alternates(s.link.log)
      && Drain(s.link.state.host + s.link.state.wire) == Drained([], [])
  {
    hide Conducted, StubPort, SerialPort, Alternates, Run, InTime;
    SerialIsTransparent(limits, clock, patience, device, fleet, client, n);
    LockstepForever(limits, clock, patience, fleet, client, n);
  }

  /**
    * Conservation over the serial line, whether or not deadlines expire: the frames received so far,
    * followed by those still in the host's buffer or on the wire, are the simulator's responses to
    * the commands sent so far.
    */
  lemma {:induction false} SerialConserves(
    limits: Limits, clock: nat -> real, patience: nat -> nat, device: Device,
    fleet: nat -> Config, client: seq<Reply> -> Request, n: nat)
    requires InTime(device)
    ensures
      var link := Conducted(SerialPort(limits, clock, patience, device), fleet, client,
          NewSession(NEW_SERIAL_WORLD), n).0.link;
      HeardIn(link.log) + Drain(link.state.host + link.state.wire).frames
      == Run(limits, NEW_STUB, HistoryOf(link.log, clock)).responses
  {
    hide Conducted, StubPort, SerialPort, HeardIn, HistoryOf, Run, Drain, InTime;
    SerialIsTransparent(limits, clock, patience, device, fleet, client, n);
    ConservedForever(limits, clock, patience, fleet, client, n);
  }
}

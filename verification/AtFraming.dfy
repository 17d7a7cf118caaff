/**
  * The AT serial framing of the RobStride USB-CAN module (RS02 User Manual, section 3.3.5):
  * "AT", the big-endian word (id << 3) | 4, the data length, the data bytes, CR LF.
  */
module AtFraming {
  import opened Bytes
  import opened Can

  const LETTER_A: u8 := 0x41
  const LETTER_T: u8 := 0x54
  const CR: u8 := 0x0D
  const LF: u8 := 0x0A

  const HEADER_SIZE := 7
  const TAIL_SIZE := 2
  const MAX_PENDING := 16

  // ----------------------------------------------------------------- encoding

  function Packed(id: u32): u32 {
    id % ID_SPACE * 8 + 4
  }

  function IdBytes(packed: u32): (bytes: seq<u8>)
    ensures |bytes| == 4
  {
    [packed / 0x100_0000, packed / 0x1_0000 % 0x100, packed / 0x100 % 0x100, packed % 0x100]
  }

  function BigEndian32(b0: u8, b1: u8, b2: u8, b3: u8): u32 {
    b0 as int * 0x100_0000 + b1 as int * 0x1_0000 + b2 as int * 0x100 + b3
  }

  function Encoded(frame: CanFrame): (packet: seq<u8>)
    requires frame.dlc <= 8
    ensures |packet| == HEADER_SIZE + frame.dlc + TAIL_SIZE
  {
    [LETTER_A, LETTER_T] + IdBytes(Packed(frame.id)) + [frame.dlc] + frame.data[..frame.dlc] + [CR, LF]
  }

  /** The data length of every frame is one that CAN allows. */
  predicate AllEncodable(frames: seq<CanFrame>) {
    forall i :: 0 <= i < |frames| ==> frames[i].dlc <= 8
  }

  function EncodedAll(frames: seq<CanFrame>): seq<u8>
    requires AllEncodable(frames)
  {
    if frames == [] then [] else Encoded(frames[0]) + EncodedAll(frames[1..])
  }

  /** What a frame becomes on the wire: the identifier loses bits 29-31, the data field everything beyond dlc. */
  function Carried(frame: CanFrame): CanFrame
    requires frame.dlc <= 8
  {
    CanFrame(frame.id % ID_SPACE, frame.data[..frame.dlc] + seq(8 - frame.dlc, _ => 0), frame.dlc)
  }

  function CarriedAll(frames: seq<CanFrame>): (carried: seq<CanFrame>)
    requires AllEncodable(frames)
    ensures |carried| == |frames|
  {
    seq(|frames|, k requires 0 <= k < |frames| => Carried(frames[k]))
  }

  // ------------------------------------------------------------------ parsing

  /** What the parser decides about the first byte of its buffer. */
  datatype Verdict = NeedMore | Skip | Take(size: nat)

  function Judge(b: seq<u8>): (v: Verdict)
    ensures v.Take? ==> HEADER_SIZE + TAIL_SIZE <= v.size <= |b| && v.size <= MAX_PENDING + 1
    ensures v.NeedMore? ==> |b| <= MAX_PENDING
    ensures v.Skip? ==> |b| > 0
  {
    if |b| < HEADER_SIZE + TAIL_SIZE then NeedMore
    else if b[0] != LETTER_A || b[1] != LETTER_T then Skip
    else if b[6] > 8 then Skip
    else
      var total := HEADER_SIZE + b[6] + TAIL_SIZE;
      if |b| < total then NeedMore
      else if b[total - 2] != CR || b[total - 1] != LF then Skip
      else Take(total)
  }

  function Decoded(b: seq<u8>): CanFrame
    requires Judge(b).Take?
  {
    var packed := BigEndian32(b[2], b[3], b[4], b[5]);
    CanFrame(packed / 8 % ID_SPACE, b[HEADER_SIZE..HEADER_SIZE + b[6]] + seq(8 - b[6], _ => 0), b[6])
  }

  datatype Polled = Polled(frame: Option<CanFrame>, rest: seq<u8>)

  /** One call of poll on a buffer. */
  function Poll(b: seq<u8>): Polled
    decreases |b|
  {
    match Judge(b)
    case NeedMore => Polled(None, b)
    case Skip => Poll(b[1..])
    case Take(size) => Polled(Some(Decoded(b)), b[size..])
  }

  datatype Drained = Drained(frames: seq<CanFrame>, rest: seq<u8>)

  /** Polling until nothing more comes out: the batch parse of a byte string. */
  function Drain(b: seq<u8>): Drained
    decreases |b|
  {
    match Judge(b)
    case NeedMore => Drained([], b)
    case Skip => Drain(b[1..])
    case Take(size) =>
      var tail := Drain(b[size..]);
      Drained([Decoded(b)] + tail.frames, tail.rest)
  }

  /** One step of `Drain`. */
  lemma DrainHead(b: seq<u8>)
    ensures match Judge(b)
            case NeedMore => Drain(b) == Drained([], b)
            case Skip => Drain(b) == Drain(b[1..])
            case Take(size) =>
              var tail := Drain(b[size..]);
              Drain(b) == Drained([Decoded(b)] + tail.frames, tail.rest)
  {
  }

  /** The value of `Drain` stated one poll at a time. */
  lemma {:induction false} DrainByPolling(b: seq<u8>)
    ensures
      var p := Poll(b);
      Drain(b) == match p.frame
                  case None => Drained([], p.rest)
                  case Some(f) => Drained([f] + Drain(p.rest).frames, Drain(p.rest).rest)
    ensures Poll(b).frame.None? ==> Judge(Poll(b).rest) == NeedMore && |Poll(b).rest| <= MAX_PENDING
    ensures |Poll(b).rest| <= |b|
    decreases |b|
  {
    if Judge(b).Skip? {
      DrainByPolling(b[1..]);
    }
  }

  // ------------------------------------------------------- chunking invariance

  lemma JudgeIsStable(b: seq<u8>, more: seq<u8>)
    ensures Judge(b) != NeedMore ==> Judge(b + more) == Judge(b)
    ensures Judge(b).Take? ==> Decoded(b + more) == Decoded(b)
  {
    if Judge(b) != NeedMore {
      assert forall i :: 0 <= i < |b| ==> (b + more)[i] == b[i];
      if Judge(b).Take? {
        assert (b + more)[HEADER_SIZE..HEADER_SIZE + b[6]] == b[HEADER_SIZE..HEADER_SIZE + b[6]];
      }
    }
  }

  /** Draining early loses nothing: parsing `b + more` is parsing `b`, then the leftover with `more`. */
  lemma {:induction false} DrainAppend(b: seq<u8>, more: seq<u8>)
    ensures
      var early := Drain(b);
      var late := Drain(early.rest + more);
      Drain(b + more) == Drained(early.frames + late.frames, late.rest)
    decreases |b|
  {
    hide Judge, Decoded;
    JudgeIsStable(b, more);
    match Judge(b)
    case NeedMore =>
      assert Drain(b).frames + Drain(b + more).frames == Drain(b + more).frames;
    case Skip =>
      assert (b + more)[1..] == b[1..] + more;
      DrainAppend(b[1..], more);
    case Take(size) =>
      assert (b + more)[size..] == b[size..] + more;
      DrainAppend(b[size..], more);
      var early := Drain(b[size..]);
      var late := Drain(early.rest + more);
      assert [Decoded(b)] + (early.frames + late.frames) == ([Decoded(b)] + early.frames) + late.frames;
  }

  /** A parser session: chunks pushed and polls made, in any order. */
  datatype Action = PushBytes(chunk: seq<u8>) | PollOnce

  function Pushed(actions: seq<Action>): seq<u8> {
    if actions == [] then []
    else (if actions[0].PushBytes? then actions[0].chunk else []) + Pushed(actions[1..])
  }

  /** The frames the polls of a session return, and the buffer it ends with. */
  function Session(buffer: seq<u8>, actions: seq<Action>): Drained
    decreases |actions|
  {
    if actions == [] then Drained([], buffer)
    else
      match actions[0]
      case PushBytes(chunk) => Session(buffer + chunk, actions[1..])
      case PollOnce =>
        var p := Poll(buffer);
        var tail := Session(p.rest, actions[1..]);
        Drained((if p.frame.Some? then [p.frame.value] else []) + tail.frames, tail.rest)
  }

  lemma {:induction false} PollAppend(b: seq<u8>, more: seq<u8>)
    ensures
      var p := Poll(b);
      var tail := Drain(p.rest + more);
      Drain(b + more) == Drained((if p.frame.Some? then [p.frame.value] else []) + tail.frames, tail.rest)
  {
    var p := Poll(b);
    DrainByPolling(b);
    DrainAppend(b, more);
    if p.frame.Some? {
      DrainAppend(p.rest, more);
      var early := Drain(p.rest);
      var late := Drain(early.rest + more);
      assert [p.frame.value] + (early.frames + late.frames) == ([p.frame.value] + early.frames) + late.frames;
    }
  }

  /**
    * However a stream is cut into pushes and however polls are interleaved, the frames delivered
    * so far followed by those still in the buffer are the batch parse of the whole stream.
    */
  lemma {:induction false} ChunkingInvariance(buffer: seq<u8>, actions: seq<Action>)
    ensures
      var done := Session(buffer, actions);
      var left := Drain(done.rest);
      Drain(buffer + Pushed(actions)) == Drained(done.frames + left.frames, left.rest)
    decreases |actions|
  {
    hide Judge, Decoded, Poll, Drain;
    if actions == [] {
      assert buffer + Pushed(actions) == buffer;
    } else {
      var rest := actions[1..];
      match actions[0]
      case PushBytes(chunk) =>
        ChunkingInvariance(buffer + chunk, rest);
        assert buffer + chunk + Pushed(rest) == buffer + Pushed(actions);
      case PollOnce =>
        var p := Poll(buffer);
        assert Pushed(actions) == Pushed(rest);
        PollAppend(buffer, Pushed(rest));
        ChunkingInvariance(p.rest, rest);
        var head := if p.frame.Some? then [p.frame.value] else [];
        var tail := Session(p.rest, rest);
        assert head + (tail.frames + Drain(tail.rest).frames) == (head + tail.frames) + Drain(tail.rest).frames;
    }
  }

  // ------------------------------------------------------------- round trips

  lemma ShiftTwice(x: u32, a: nat, b: nat, c: nat)
    requires (a == 0x100 && b == 0x100 && c == 0x1_0000) || (a == 0x1_0000 && b == 0x100 && c == 0x100_0000)
    ensures x / c == x / a / b
  {
  }

  /** Writing a word big-endian and reading it back are inverse in both directions. */
  lemma BigEndianOfIdBytes(packed: u32)
    ensures
      var bytes := IdBytes(packed);
      BigEndian32(bytes[0], bytes[1], bytes[2], bytes[3]) == packed
  {
    ShiftTwice(packed, 0x100, 0x100, 0x1_0000);
    ShiftTwice(packed, 0x1_0000, 0x100, 0x100_0000);
  }

  lemma IdBytesOfBigEndian(b0: u8, b1: u8, b2: u8, b3: u8)
    ensures IdBytes(BigEndian32(b0, b1, b2, b3)) == [b0, b1, b2, b3]
  {
    var packed := BigEndian32(b0, b1, b2, b3);
    assert packed / 0x100 == b0 as int * 0x1_0000 + b1 as int * 0x100 + b2;
    assert packed / 0x1_0000 == b0 as int * 0x100 + b1;
  }

  /** Whatever follows an encoded frame, the parser takes exactly that frame off the front. */
  lemma {:induction false} DecodeEncoded(frame: CanFrame, more: seq<u8>)
    requires frame.dlc <= 8
    ensures
      var b := Encoded(frame) + more;
      && Judge(b) == Take(|Encoded(frame)|)
      && Decoded(b) == Carried(frame)
      && b[|Encoded(frame)|..] == more
  {
    hide Packed, IdBytes, BigEndian32, Encoded, Judge, Decoded;
    var packet := Encoded(frame);
    var b := packet + more;
    EncodedFields(frame);
    assert forall i :: 0 <= i < |packet| ==> b[i] == packet[i];
    assert b[HEADER_SIZE..HEADER_SIZE + b[6]] == packet[HEADER_SIZE..HEADER_SIZE + b[6]];
    JudgeOfFields(b);
    PackedId(frame.id);
  }

  lemma PackedId(id: u32)
    ensures
      var bytes := IdBytes(Packed(id));
      BigEndian32(bytes[0], bytes[1], bytes[2], bytes[3]) / 8 % ID_SPACE == id % ID_SPACE
  {
    BigEndianOfIdBytes(Packed(id));
    hide IdBytes, BigEndian32;
  }

  /** A buffer with the right header and tail is a frame, read off its fields. */
  lemma JudgeOfFields(b: seq<u8>)
    requires |b| >= HEADER_SIZE + TAIL_SIZE && b[0] == LETTER_A && b[1] == LETTER_T && b[6] <= 8
    requires HEADER_SIZE + b[6] + TAIL_SIZE <= |b|
    requires b[HEADER_SIZE + b[6]] == CR && b[HEADER_SIZE + b[6] + 1] == LF
    ensures Judge(b) == Take(HEADER_SIZE + b[6] + TAIL_SIZE)
    ensures Decoded(b) == CanFrame(
      BigEndian32(b[2], b[3], b[4], b[5]) / 8 % ID_SPACE,
      b[HEADER_SIZE..HEADER_SIZE + b[6]] + seq(8 - b[6], _ => 0), b[6])
  {
    hide BigEndian32;
  }

  lemma EncodedFields(frame: CanFrame)
    requires frame.dlc <= 8
    ensures
      var packet := Encoded(frame);
      && packet[0] == LETTER_A && packet[1] == LETTER_T && packet[6] == frame.dlc
      && packet[2..6] == IdBytes(Packed(frame.id)) && packet[5] == Packed(frame.id) % 0x100
      && (forall i :: 0 <= i < 4 ==> packet[2 + i] == IdBytes(Packed(frame.id))[i])
      && packet[HEADER_SIZE..HEADER_SIZE + frame.dlc] == frame.data[..frame.dlc]
      && packet[HEADER_SIZE + frame.dlc] == CR && packet[HEADER_SIZE + frame.dlc + 1] == LF
  {
    hide Packed;
  }

  lemma FullFramesAreCarried(frame: CanFrame)
    requires Full(frame)
    ensures Carried(frame) == frame
  {
    assert frame.data[..8] + seq(0, _ => 0) == frame.data;
  }

  /** Back-to-back encodings parse to what each frame becomes on the wire, and nothing is left. */
  lemma {:induction false} DrainEncodedAll(frames: seq<CanFrame>)
    requires AllEncodable(frames)
    ensures Drain(EncodedAll(frames)) == Drained(CarriedAll(frames), [])
    ensures AllFull(frames) ==> CarriedAll(frames) == frames
  {
    hide Carried, Encoded, Judge, Decoded;
    if frames != [] {
      DecodeEncoded(frames[0], EncodedAll(frames[1..]));
      DrainEncodedAll(frames[1..]);
      assert [Carried(frames[0])] + CarriedAll(frames[1..]) == CarriedAll(frames);
    }
    forall k | 0 <= k < |frames| && AllFull(frames)
      ensures CarriedAll(frames)[k] == frames[k]
    {
      FullFramesAreCarried(frames[k]);
    }
  }

  lemma DecodedFields(b: seq<u8>)
    requires Judge(b).Take?
    ensures |b| >= HEADER_SIZE && b[0] == LETTER_A && b[1] == LETTER_T && b[6] <= 8
    ensures
      var size := Judge(b).size;
      && size == HEADER_SIZE + b[6] + TAIL_SIZE <= |b|
      && b[size - 2] == CR && b[size - 1] == LF
    ensures
      var frame := Decoded(b);
      && frame.dlc == b[6]
      && frame.id == BigEndian32(b[2], b[3], b[4], b[5]) / 8 % ID_SPACE
      && frame.data[..frame.dlc] == b[HEADER_SIZE..HEADER_SIZE + b[6]]
  {
  }

  /** A slice the parser takes is byte for byte what `Encoded` writes exactly when its packed low bits are 4. */
  lemma {:induction false} ReencodeTaken(b: seq<u8>)
    requires Judge(b).Take?
    ensures Encoded(Decoded(b)) == b[..Judge(b).size] <==> b[5] % 8 == 4
  {
    hide Judge, Decoded, IdBytes, BigEndian32, Packed, Encoded;
    DecodedFields(b);
    IdBytesOfBigEndian(b[2], b[3], b[4], b[5]);
    Repack(b[2], b[3], b[4], b[5]);
    EncodedFields(Decoded(b));
    var packet := Encoded(Decoded(b));
    var slice := b[..Judge(b).size];
    assert packet[5] % 8 == 4;
    assert slice[5] == b[5];
    if b[5] % 8 == 4 {
      assert packet[2..6] == slice[2..6];
      assert slice[HEADER_SIZE..|slice| - 2] == b[HEADER_SIZE..HEADER_SIZE + b[6]];
      assert |packet| == |slice| == HEADER_SIZE + b[6] + TAIL_SIZE;
      SameSlices(packet, slice);
    }
  }

  lemma SameSlices(x: seq<u8>, y: seq<u8>)
    requires |x| == |y| >= HEADER_SIZE + TAIL_SIZE
    requires x[0] == y[0] && x[1] == y[1] && x[2..6] == y[2..6] && x[6] == y[6]
    requires x[HEADER_SIZE..|x| - 2] == y[HEADER_SIZE..|x| - 2]
    requires x[|x| - 2] == y[|x| - 2] && x[|x| - 1] == y[|x| - 1]
    ensures x == y
  {
    forall i | 0 <= i < |x|
      ensures x[i] == y[i]
    {
      if 2 <= i < 6 {
        assert x[i] == x[2..6][i - 2];
      } else if HEADER_SIZE <= i < |x| - 2 {
        assert x[i] == x[HEADER_SIZE..|x| - 2][i - HEADER_SIZE];
      }
    }
  }

  lemma Repack(b0: u8, b1: u8, b2: u8, b3: u8)
    ensures
      var packed := BigEndian32(b0, b1, b2, b3);
      var again := Packed(packed / 8 % ID_SPACE);
      && again % 0x100 % 8 == 4
      && (b3 % 8 == 4 ==> again == packed)
  {
    var top := b0 as int * 0x1_0000 + b1 as int * 0x100 + b2;
    RepackHead(top * 0x20 + b3 / 8, b3 % 8);
    assert BigEndian32(b0, b1, b2, b3) == (top * 0x20 + b3 / 8) * 8 + b3 % 8;
  }

  lemma RepackHead(head: nat, low: nat)
    requires head < ID_SPACE && low < 8
    ensures (head * 8 + low) / 8 % ID_SPACE == head
    ensures Packed(head) == head * 8 + 4
    ensures Packed(head) % 0x100 % 8 == 4
  {
  }
}

/**
  * Every frame and packet byte by byte, in plain numbers: what the builders put where, and what the
  * readers find there (RS02 User Manual, chapter 4 and section 3.3.5).
  */
module Wire {
  import opened Bytes
  import opened Can
  import opened AtFraming
  import opened RealFacts
  import opened Scaling
  import opened Protocol

  /** Type in bits 28-24 of the identifier, data area in bits 23-8, destination in bits 7-0; eight data bytes. */
  predicate IsFrame(frame: CanFrame, commType: int, area: int, dest: int, data: seq<int>) {
    && frame.id == commType * 0x100_0000 + area * 0x100 + dest
    && frame.dlc == 8
    && |data| == 8 && forall i :: 0 <= i < 8 ==> frame.data[i] == data[i]
  }

  /** The eight data bytes of a frame about a register: its index little-endian, two zeros, four value bytes. */
  predicate IsIndexed(frame: CanFrame, commType: int, area: int, dest: int, index: int, value: seq<int>) {
    && |value| == 4
    && IsFrame(frame, commType, area, dest,
         [index % 0x100, index / 0x100, 0, 0, value[0], value[1], value[2], value[3]])
  }

  lemma CommandLayouts(motor: u8, host: u8, clearFault: bool, index: u16, value: Word, byte: u8)
    ensures IsFrame(EnableFrame(motor, host), 0x03, host, motor, [0, 0, 0, 0, 0, 0, 0, 0])
    ensures IsFrame(StopFrame(motor, host, clearFault), 0x04, host, motor,
              [if clearFault then 1 else 0, 0, 0, 0, 0, 0, 0, 0])
    ensures IsFrame(SetMechanicalZeroFrame(motor, host), 0x06, host, motor, [1, 0, 0, 0, 0, 0, 0, 0])
    ensures IsIndexed(ReadParamFrame(motor, host, index), 0x11, host, motor, index, [0, 0, 0, 0])
    ensures IsIndexed(WriteParamFrame(motor, host, index, value), 0x12, host, motor, index, value)
    ensures IsIndexed(WriteParamFrame(motor, host, index, ByteWord(byte)), 0x12, host, motor, index, [byte, 0, 0, 0])
  {
  }

  /** A parameter response names the motor in bits 15-8 and goes to the host in bits 7-0. */
  lemma ParamResponseLayout(motor: u8, host: u8, index: u16, value: Word)
    ensures IsIndexed(ParamResponseFrame(motor, host, index, value), 0x11, motor, host, index, value)
  {
  }

  /** The i-th pair of data bytes as a big-endian number. */
  function PairAt(frame: CanFrame, i: nat): int
    requires i < 4
  {
    0x100 * frame.data[2 * i] as int + frame.data[2 * i + 1] as int
  }

  lemma PairsOfPayload(a: u16, b: u16, c: u16, d: u16, frame: CanFrame)
    requires frame.data == BigEndianPayload(a, b, c, d)
    ensures PairAt(frame, 0) == a && PairAt(frame, 1) == b && PairAt(frame, 2) == c && PairAt(frame, 3) == d
  {
  }

  /** The number is the 16-bit code of x on the range: no other code decodes nearer to the clamped x. */
  predicate IsCode(code: int, x: real, min: real, max: real)
    requires min < max
  {
    && 0 <= code <= 65535
    && -(max - min) / 131070.0
         < min + code as real * (max - min) / 65535.0 - (if x < min then min else if x > max then max else x)
         <= (max - min) / 131070.0
  }

  lemma FloatToUintIsCode(x: real, min: real, max: real)
    requires min < max
    ensures IsCode(FloatToUint(x, min, max), x, min, max)
    ensures forall code: u16 :: UintToFloat(code, min, max) == min + code as real * (max - min) / 65535.0
  {
    WidthBound(16);
    CodeValue(x, min, max, 16);
    DecodeEncode(x, min, max, 16);
    assert Lsb(min, max, 16) == (max - min) / 65535.0;
    hide FloatToUint, TopCode, Lsb, Scaled;
  }

  /**
    * The motion-control frame: type 1, the torque code in bits 23-8, the motor in bits 7-0, then the
    * position, velocity, kp and kd codes big-endian.
    */
  lemma {:induction false} MotionLayout(
      motor: u8, torque: real, position: real, velocity: real, kp: real, kd: real, limits: Limits)
    ensures
      var frame := MotionControlFrame(motor, torque, position, velocity, kp, kd, limits);
      && frame.dlc == 8 && frame.id / 0x100_0000 == 0x01 && frame.id % 0x100 == motor
      && IsCode(frame.id / 0x100 % 0x1_0000, torque, -limits.torque, limits.torque)
      && IsCode(PairAt(frame, 0), position, -limits.position, limits.position)
      && IsCode(PairAt(frame, 1), velocity, -limits.velocity, limits.velocity)
      && IsCode(PairAt(frame, 2), kp, 0.0, limits.kpMax)
      && IsCode(PairAt(frame, 3), kd, 0.0, limits.kdMax)
  {
    FloatToUintIsCode(torque, -limits.torque, limits.torque);
    FloatToUintIsCode(position, -limits.position, limits.position);
    FloatToUintIsCode(velocity, -limits.velocity, limits.velocity);
    FloatToUintIsCode(kp, 0.0, limits.kpMax);
    FloatToUintIsCode(kd, 0.0, limits.kdMax);
    hide FloatToUint, UintToFloat, IsCode, BigEndianPayload, PairAt;
    var frame := MotionControlFrame(motor, torque, position, velocity, kp, kd, limits);
    var code := FloatToUint(torque, -limits.torque, limits.torque);
    MotionIdDigits(code, motor);
    PairsOfPayload(
      FloatToUint(position, -limits.position, limits.position),
      FloatToUint(velocity, -limits.velocity, limits.velocity),
      FloatToUint(kp, 0.0, limits.kpMax), FloatToUint(kd, 0.0, limits.kdMax), frame);
  }

  lemma MotionIdDigits(code: u16, motor: u8)
    ensures
      var id := MakeId(MOTION_CONTROL, code, motor);
      id / 0x100_0000 == 0x01 && id % 0x100 == motor && id / 0x100 % 0x1_0000 == code
  {
    var id := MakeId(MOTION_CONTROL, code, motor);
    assert id / 0x100 == 0x1_0000 + code as int;
    assert id / 0x100_0000 == 1;
  }

  /** The code is the tenths of t, rounded, up to multiples of 2^16. */
  ghost predicate IsTenths(code: int, t: real) {
    0 <= code < 0x1_0000 && exists wraps: int :: -0.5 <= Unwrapped(code, wraps) - 10.0 * t <= 0.5
  }

  function Unwrapped(code: int, wraps: int): real {
    (code + wraps * 0x1_0000) as real
  }

  /**
    * The feedback frame: type 2, mode in bits 23-22, six fault bits in 21-16, motor in 15-8, host in
    * 7-0, then position, velocity and torque codes and the temperature in tenths, big-endian.
    */
  lemma {:induction false} FeedbackLayout(fb: Feedback, limits: Limits)
    ensures
      var frame := FeedbackFrame(fb, limits);
      && frame.dlc == 8
      && frame.id == 0x200_0000 + fb.mode % 4 * 0x40_0000 + fb.fault % 0x40 * 0x1_0000
                     + fb.motorId * 0x100 + fb.hostId
      && IsCode(PairAt(frame, 0), fb.position, -limits.position, limits.position)
      && IsCode(PairAt(frame, 1), fb.velocity, -limits.velocity, limits.velocity)
      && IsCode(PairAt(frame, 2), fb.torque, -limits.torque, limits.torque)
      && IsTenths(PairAt(frame, 3), fb.temperature)
  {
    FloatToUintIsCode(fb.position, -limits.position, limits.position);
    FloatToUintIsCode(fb.velocity, -limits.velocity, limits.velocity);
    FloatToUintIsCode(fb.torque, -limits.torque, limits.torque);
    assert FeedbackFrame(fb, limits).id == 0x200_0000 + fb.mode % 4 * 0x40_0000 + fb.fault % 0x40 * 0x1_0000
        + fb.motorId * 0x100 + fb.hostId;
    TenthsOf(fb.temperature);
    hide FloatToUint, UintToFloat, IsCode, IsTenths, BigEndianPayload, PairAt, MakeId, FeedbackArea, TenthsCode;
    PairsOfPayload(
      FloatToUint(fb.position, -limits.position, limits.position),
      FloatToUint(fb.velocity, -limits.velocity, limits.velocity),
      FloatToUint(fb.torque, -limits.torque, limits.torque), TenthsCode(fb.temperature), FeedbackFrame(fb, limits));
  }

  lemma TenthsOf(t: real)
    ensures IsTenths(TenthsCode(t), t)
  {
    var n := Lround(t * 10.0);
    assert n == TenthsCode(t) + n / 0x1_0000 * 0x1_0000;
    assert Unwrapped(TenthsCode(t), n / 0x1_0000) == n as real;
  }

  /** Where the readers look: any identifier by its digits, and the data bytes. */
  lemma {:induction false} ReadersLook(
      frame: CanFrame, above: nat, commType: nat, mode: nat, fault: nat, mid: nat, low: nat)
    requires commType < 0x20 && mode < 4 && fault < 0x40 && mid < 0x100 && low < 0x100
    requires frame.id == above * 0x2000_0000 + commType * 0x100_0000 + mode * 0x40_0000 + fault * 0x1_0000
                         + mid * 0x100 + low
    ensures CommTypeOf(frame) == commType && ModeOf(frame) == mode && FaultOf(frame) == fault
    ensures SourceOf(frame) == HostOf(frame) == mid && TargetOf(frame) == low
    ensures IndexOf(frame) == frame.data[0] as int + 0x100 * frame.data[1] as int
    ensures |ValueOf(frame)| == 4 && forall i :: 0 <= i < 4 ==> ValueOf(frame)[i] == frame.data[4 + i]
    ensures forall i :: 0 <= i < 4 ==> CodeAt(frame, i) == PairAt(frame, i)
  {
    var id := frame.id as int;
    assert id / 0x100 == above * 0x20_0000 + commType * 0x1_0000 + mode * 0x4000 + fault * 0x100 + mid;
    assert id / 0x1_0000 == above * 0x2000 + commType * 0x100 + mode * 0x40 + fault;
    assert id / 0x40_0000 == above * 0x80 + commType * 4 + mode;
    assert id / 0x100_0000 == above * 0x20 + commType;
  }

  /** The value of a code on the range from -limit to limit. */
  function AtCode(code: int, limit: real): real {
    -limit + code as real * (2.0 * limit) / 65535.0
  }

  lemma DecodesAtCode(code: u16, limit: real)
    requires limit > 0.0
    ensures UintToFloat(code, -limit, limit) == AtCode(code, limit)
  {
    WidthBound(16);
  }

  /** A feedback frame reads as the digits of its identifier and the values of its four pairs. */
  lemma {:induction false} FeedbackReading(frame: CanFrame, limits: Limits)
    ensures ParseFeedback(frame, limits).Some? <==> CommTypeOf(frame) == 0x02 && frame.dlc >= 8
    ensures ParseFeedback(frame, limits).Some? ==>
      var fb := ParseFeedback(frame, limits).value;
      && fb.motorId == SourceOf(frame) && fb.hostId == TargetOf(frame)
      && fb.mode == ModeOf(frame) && fb.fault == FaultOf(frame)
      && fb.position == AtCode(CodeAt(frame, 0), limits.position)
      && fb.velocity == AtCode(CodeAt(frame, 1), limits.velocity)
      && fb.torque == AtCode(CodeAt(frame, 2), limits.torque)
      && 10.0 * fb.temperature == CodeAt(frame, 3) as real
  {
    LowDigit(frame);
    hide CommTypeOf, ModeOf, FaultOf, SourceOf, TargetOf, CodeAt, UintToFloat, AtCode;
    DecodesAtCode(CodeAt(frame, 0), limits.position);
    DecodesAtCode(CodeAt(frame, 1), limits.velocity);
    DecodesAtCode(CodeAt(frame, 2), limits.torque);
  }

  lemma LowDigit(frame: CanFrame)
    ensures TargetOf(frame) == frame.id % 0x100
  {
  }

  /** A parameter response reads as its source, index and value bytes. */
  lemma ParamResponseReading(frame: CanFrame)
    ensures ParseParamResponse(frame).Some? <==> CommTypeOf(frame) == 0x11 && frame.dlc >= 8
    ensures ParseParamResponse(frame).Some? ==>
      ParseParamResponse(frame).value == ParamResponse(SourceOf(frame), IndexOf(frame), ValueOf(frame))
  {
    hide CommTypeOf, SourceOf, IndexOf, ValueOf;
  }

  // --------------------------------------------------------------- AT packets

  /** "AT", the identifier shifted left by three with a 4 below it, the length, the data, CR LF. */
  lemma {:induction false} PacketLayout(frame: CanFrame)
    requires frame.dlc <= 8
    ensures
      var packet := Encoded(frame);
      && |packet| == 9 + frame.dlc
      && packet[0] == 0x41 && packet[1] == 0x54
      && packet[2] as int * 0x100_0000 + packet[3] as int * 0x1_0000 + packet[4] as int * 0x100 + packet[5] as int
         == 8 * (frame.id % 0x2000_0000) + 4
      && packet[6] == frame.dlc
      && (forall i :: 0 <= i < frame.dlc ==> packet[7 + i] == frame.data[i])
      && packet[7 + frame.dlc] == 0x0D && packet[8 + frame.dlc] == 0x0A
  {
    EncodedFields(frame);
    BigEndianOfIdBytes(Packed(frame.id));
    hide IdBytes, Encoded;
    var packet := Encoded(frame);
    forall i | 0 <= i < frame.dlc
      ensures packet[7 + i] == frame.data[i]
    {
      assert packet[HEADER_SIZE..HEADER_SIZE + frame.dlc][i] == packet[7 + i];
    }
  }

  /**
    * What the parser takes off the front of a buffer, byte by byte: exactly such packets, whatever
    * the three bits below the identifier; the data field is filled up with zeros.
    */
  lemma {:induction false} PacketReading(b: seq<u8>)
    ensures Judge(b).Take? <==>
      |b| >= 9 && b[0] == 0x41 && b[1] == 0x54 && b[6] <= 8 && |b| >= 9 + b[6]
      && b[7 + b[6]] == 0x0D && b[8 + b[6]] == 0x0A
    ensures Judge(b).NeedMore? <==> |b| < 9 || (b[0] == 0x41 && b[1] == 0x54 && b[6] <= 8 && |b| < 9 + b[6])
    ensures Judge(b).Take? ==> Judge(b).size == 9 + b[6]
    ensures Judge(b).Take? ==>
      var frame := Decoded(b);
      && frame.dlc == b[6]
      && frame.id == (b[2] as int * 0x100_0000 + b[3] as int * 0x1_0000 + b[4] as int * 0x100 + b[5] as int) / 8
                     % 0x2000_0000
      && forall i :: 0 <= i < 8 ==> frame.data[i] == if i < b[6] then b[7 + i] else 0
  {
  }

  /** The packet of the manual's example: run_mode 1 written to motor 1 from host 0xFD. */
  lemma ManualExample()
    ensures Encoded(WriteParamFrame(1, 0xFD, 0x7005, ByteWord(1)))
      == [0x41, 0x54, 0x90, 0x07, 0xE8, 0x0C, 0x08, 0x05, 0x70, 0x00, 0x00, 0x01, 0x00, 0x00, 0x00, 0x0D, 0x0A]
  {
    var frame := WriteParamFrame(1, 0xFD, 0x7005, ByteWord(1));
    assert frame.id == 0x1200FD01;
    assert Packed(frame.id) == 0x9007E80C;
    assert IdBytes(0x9007E80C) == [0x90, 0x07, 0xE8, 0x0C];
    assert frame.data == [0x05, 0x70, 0x00, 0x00, 0x01, 0x00, 0x00, 0x00];
    hide WriteParamFrame, Packed, IdBytes;
  }

  // ------------------------------------------------------------------ tables

  /** The scaling ranges of the seven actuator models: the position range is four times pi, and there is no eighth. */
  lemma {:induction false} Ranges(actuator: u8)
    ensures GetLimits(actuator).Some? <==> actuator <= 6
    ensures 3.1415926535897 < PI < 3.1415926535898
    ensures actuator <= 6 ==> GetLimits(actuator).value.position == 4.0 * PI
    ensures actuator <= 6 ==>
      GetLimits(actuator).value.velocity == [50.0, 44.0, 44.0, 50.0, 15.0, 33.0, 20.0][actuator]
    ensures actuator <= 6 ==>
      GetLimits(actuator).value.torque == [17.0, 17.0, 17.0, 60.0, 120.0, 17.0, 36.0][actuator]
    ensures actuator <= 6 ==>
      var strong := actuator == 3 || actuator == 4 || actuator == 6;
      && GetLimits(actuator).value.kpMax == (if strong then 5000.0 else 500.0)
      && GetLimits(actuator).value.kdMax == if strong then 100.0 else 5.0
  {
  }
}

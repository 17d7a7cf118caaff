/** The private CAN protocol: 29-bit identifiers, command and reply frames, their decoders. */
module Protocol {
  import opened Bytes
  import opened Can
  import opened Scaling

  // -------------------------------------------------------- actuator models

  /** The double nearest to pi, exactly. */
  const PI := 3.141592653589793115997963468544185161590576171875

  datatype ActuatorLimits = ActuatorLimits(position: real, velocity: real, torque: real, kpMax: real, kdMax: real)

  type Limits = l: ActuatorLimits |
    l.position > 0.0 && l.velocity > 0.0 && l.torque > 0.0 && l.kpMax > 0.0 && l.kdMax > 0.0
    witness ActuatorLimits(1.0, 1.0, 1.0, 1.0, 1.0)

  const LIMITS_TABLE: seq<Limits> := [
    ActuatorLimits(4.0 * PI, 50.0, 17.0, 500.0, 5.0),
    ActuatorLimits(4.0 * PI, 44.0, 17.0, 500.0, 5.0),
    ActuatorLimits(4.0 * PI, 44.0, 17.0, 500.0, 5.0),
    ActuatorLimits(4.0 * PI, 50.0, 60.0, 5000.0, 100.0),
    ActuatorLimits(4.0 * PI, 15.0, 120.0, 5000.0, 100.0),
    ActuatorLimits(4.0 * PI, 33.0, 17.0, 500.0, 5.0),
    ActuatorLimits(4.0 * PI, 20.0, 36.0, 5000.0, 100.0)]

  const RS02: u8 := 2

  function GetLimits(actuator: u8): Option<Limits> {
    if actuator < |LIMITS_TABLE| then Some(LIMITS_TABLE[actuator]) else None
  }

  // -------------------------------------------------------------- identifiers

  const MOTION_CONTROL: u8 := 0x01
  const FEEDBACK: u8 := 0x02
  const ENABLE: u8 := 0x03
  const STOP: u8 := 0x04
  const SET_MECHANICAL_ZERO: u8 := 0x06
  const READ_PARAM: u8 := 0x11
  const WRITE_PARAM: u8 := 0x12

  const RUN_MODE: u16 := 0x7005
  const SPD_REF: u16 := 0x700A
  const LOC_REF: u16 := 0x7016
  const LIMIT_SPD: u16 := 0x7017
  const LIMIT_CUR: u16 := 0x7018
  const ACC_RAD: u16 := 0x7022

  const VELOCITY_MODE: u8 := 2
  const POSITION_CSP_MODE: u8 := 5

  const MODE_RESET: u8 := 0
  const MODE_RUN: u8 := 2

  function MakeId(commType: u8, dataArea2: u16, dest: u8): u32 {
    commType as int * 0x100_0000 + dataArea2 as int * 0x100 + dest
  }

  function CommTypeOf(frame: CanFrame): u8 { frame.id / 0x100_0000 % 0x20 }

  function SourceOf(frame: CanFrame): u8 { frame.id / 0x100 % 0x100 }

  function TargetOf(frame: CanFrame): u8 { frame.id % 0x100 }

  function HostOf(frame: CanFrame): u8 { frame.id / 0x100 % 0x100 }

  lemma {:induction false} IdFields(commType: u8, dataArea2: u16, dest: u8)
    requires commType < 0x20
    ensures
      var id := MakeId(commType, dataArea2, dest);
      && id < ID_SPACE
      && id / 0x100_0000 % 0x20 == commType
      && id / 0x100 % 0x100 == dataArea2 % 0x100
      && id / 0x1_0000 % 0x40 == dataArea2 / 0x100 % 0x40
      && id / 0x40_0000 % 4 == dataArea2 / 0x4000
      && id % 0x100 == dest
  {
    var id := MakeId(commType, dataArea2, dest);
    var c, a := commType as int, dataArea2 as int;
    assert id / 0x100 == c * 0x1_0000 + a;
    assert id / 0x1_0000 == c * 0x100 + a / 0x100;
    assert id / 0x40_0000 == c * 4 + a / 0x4000;
    assert id / 0x100_0000 == c;
  }

  // ---------------------------------------------------------- command frames

  function EnableFrame(motor: u8, host: u8): CanFrame {
    CanFrame(MakeId(ENABLE, host, motor), ZERO_PAYLOAD, 8)
  }

  function StopFrame(motor: u8, host: u8, clearFault: bool): CanFrame {
    CanFrame(MakeId(STOP, host, motor), ZERO_PAYLOAD[0 := if clearFault then 1 else 0], 8)
  }

  function SetMechanicalZeroFrame(motor: u8, host: u8): CanFrame {
    CanFrame(MakeId(SET_MECHANICAL_ZERO, host, motor), ZERO_PAYLOAD[0 := 1], 8)
  }

  function IndexPayload(index: u16, value: Word): Payload {
    [LowByte(index), HighByte(index), 0, 0] + value
  }

  function ReadParamFrame(motor: u8, host: u8, index: u16): CanFrame {
    CanFrame(MakeId(READ_PARAM, host, motor), IndexPayload(index, ZERO_WORD), 8)
  }

  function WriteParamFrame(motor: u8, host: u8, index: u16, value: Word): CanFrame {
    CanFrame(MakeId(WRITE_PARAM, host, motor), IndexPayload(index, value), 8)
  }

  /** A one-byte parameter travels in the first value byte; the other three are zero. */
  function ByteWord(value: u8): Word {
    ZERO_WORD[0 := value]
  }

  function MotionControlFrame(
      motor: u8, torque: real, position: real, velocity: real, kp: real, kd: real, limits: Limits): CanFrame {
    var torqueCode := FloatToUint(torque, -limits.torque, limits.torque);
    var positionCode := FloatToUint(position, -limits.position, limits.position);
    var velocityCode := FloatToUint(velocity, -limits.velocity, limits.velocity);
    var kpCode := FloatToUint(kp, 0.0, limits.kpMax);
    var kdCode := FloatToUint(kd, 0.0, limits.kdMax);
    CanFrame(MakeId(MOTION_CONTROL, torqueCode, motor), BigEndianPayload(positionCode, velocityCode, kpCode, kdCode), 8)
  }

  function BigEndianPayload(a: u16, b: u16, c: u16, d: u16): Payload {
    [HighByte(a), LowByte(a), HighByte(b), LowByte(b), HighByte(c), LowByte(c), HighByte(d), LowByte(d)]
  }

  // ------------------------------------------------------------ reply frames

  datatype Feedback = Feedback(
    motorId: u8, hostId: u8, mode: u8, fault: u8,
    position: real, velocity: real, torque: real, temperature: real)

  function FeedbackArea(mode: u8, fault: u8, motor: u8): u16 {
    mode % 4 * 0x4000 + fault % 0x40 * 0x100 + motor
  }

  function FeedbackFrame(fb: Feedback, limits: Limits): CanFrame {
    var positionCode := FloatToUint(fb.position, -limits.position, limits.position);
    var velocityCode := FloatToUint(fb.velocity, -limits.velocity, limits.velocity);
    var torqueCode := FloatToUint(fb.torque, -limits.torque, limits.torque);
    var temperatureCode := TenthsCode(fb.temperature);
    CanFrame(MakeId(FEEDBACK, FeedbackArea(fb.mode, fb.fault, fb.motorId), fb.hostId),
        BigEndianPayload(positionCode, velocityCode, torqueCode, temperatureCode), 8)
  }

  function TenthsCode(temperature: real): u16 {
    Lround(temperature * 10.0) % 0x1_0000
  }

  function ParamResponseFrame(motor: u8, host: u8, index: u16, value: Word): CanFrame {
    CanFrame(MakeId(READ_PARAM, motor, host), IndexPayload(index, value), 8)
  }

  // ---------------------------------------------------------------- decoders

  function IndexOf(frame: CanFrame): u16 {
    Join(frame.data[1], frame.data[0])
  }

  function ValueOf(frame: CanFrame): Word {
    frame.data[4..8]
  }

  function ModeOf(frame: CanFrame): u8 { frame.id / 0x40_0000 % 4 }

  function FaultOf(frame: CanFrame): u8 { frame.id / 0x1_0000 % 0x40 }

  /** The i-th big-endian 16-bit value of the data field. */
  function CodeAt(frame: CanFrame, i: nat): u16
    requires i < 4
  {
    Join(frame.data[2 * i], frame.data[2 * i + 1])
  }

  function ParseFeedback(frame: CanFrame, limits: Limits): Option<Feedback> {
    if CommTypeOf(frame) != FEEDBACK || frame.dlc < 8 then None
    else Some(Feedback(
      SourceOf(frame), frame.id % 0x100, ModeOf(frame), FaultOf(frame),
      UintToFloat(CodeAt(frame, 0), -limits.position, limits.position),
      UintToFloat(CodeAt(frame, 1), -limits.velocity, limits.velocity),
      UintToFloat(CodeAt(frame, 2), -limits.torque, limits.torque),
      CodeAt(frame, 3) as real * 0.1))
  }

  datatype ParamResponse = ParamResponse(motorId: u8, index: u16, data: Word)

  function ParseParamResponse(frame: CanFrame): Option<ParamResponse> {
    if CommTypeOf(frame) != READ_PARAM || frame.dlc < 8 then None
    else Some(ParamResponse(SourceOf(frame), IndexOf(frame), ValueOf(frame)))
  }

  lemma IndexPayloadParts(id: u32, index: u16, value: Word)
    ensures
      var frame := CanFrame(id, IndexPayload(index, value), 8);
      IndexOf(frame) == index && ValueOf(frame) == value
  {
  }

  /** A parameter response carries motor, register and word to the host unchanged. */
  lemma ParamResponseRoundTrip(motor: u8, host: u8, index: u16, value: Word)
    ensures
      var frame := ParamResponseFrame(motor, host, index, value);
      && Full(frame) && SourceOf(frame) == motor && CommTypeOf(frame) == READ_PARAM
      && ParseParamResponse(frame) == Some(ParamResponse(motor, index, value))
  {
    IdFields(READ_PARAM, motor, host);
    IndexPayloadParts(MakeId(READ_PARAM, motor, host), index, value);
    hide MakeId, IndexPayload, IndexOf, ValueOf;
  }

  /** A command frame built from an index payload reaches its motor with type, register and word intact. */
  lemma IndexedCommandFields(commType: u8, motor: u8, host: u8, index: u16, value: Word)
    requires commType < 0x20
    ensures
      var frame := CanFrame(MakeId(commType, host, motor), IndexPayload(index, value), 8);
      && Full(frame) && CommTypeOf(frame) == commType && TargetOf(frame) == motor && HostOf(frame) == host
      && IndexOf(frame) == index && ValueOf(frame) == value
  {
    IdFields(commType, host, motor);
    IndexPayloadParts(MakeId(commType, host, motor), index, value);
    hide MakeId, IndexPayload, IndexOf, ValueOf;
  }

  lemma JoinBytes(x: u16)
    ensures Join(HighByte(x), LowByte(x)) == x
  {
  }

  lemma BytesJoined(high: u8, low: u8)
    ensures HighByte(Join(high, low)) == high && LowByte(Join(high, low)) == low
  {
  }

  lemma CodesOfPayload(id: u32, a: u16, b: u16, c: u16, d: u16)
    ensures
      var frame := CanFrame(id, BigEndianPayload(a, b, c, d), 8);
      CodeAt(frame, 0) == a && CodeAt(frame, 1) == b && CodeAt(frame, 2) == c && CodeAt(frame, 3) == d
  {
    hide Join, HighByte, LowByte;
    JoinBytes(a);
    JoinBytes(b);
    JoinBytes(c);
    JoinBytes(d);
  }

  lemma PayloadOfCodes(frame: CanFrame)
    ensures BigEndianPayload(CodeAt(frame, 0), CodeAt(frame, 1), CodeAt(frame, 2), CodeAt(frame, 3)) == frame.data
  {
    hide Join, HighByte, LowByte;
    var p := frame.data;
    BytesJoined(p[0], p[1]);
    BytesJoined(p[2], p[3]);
    BytesJoined(p[4], p[5]);
    BytesJoined(p[6], p[7]);
  }

  // --------------------------------------------------- the feedback codec laws

  lemma AreaFields(mode: u8, fault: u8, motor: u8)
    ensures
      var area := FeedbackArea(mode, fault, motor);
      area % 0x100 == motor && area / 0x100 % 0x40 == fault % 0x40 && area / 0x4000 == mode % 4
  {
    assert FeedbackArea(mode, fault, motor) / 0x100 == mode % 4 * 0x40 + fault % 0x40;
  }

  lemma FeedbackFields(mode: u8, fault: u8, motor: u8, host: u8, data: Payload)
    ensures
      var frame := CanFrame(MakeId(FEEDBACK, FeedbackArea(mode, fault, motor), host), data, 8);
      && Full(frame)
      && CommTypeOf(frame) == FEEDBACK && SourceOf(frame) == motor && frame.id % 0x100 == host
      && ModeOf(frame) == mode % 4 && FaultOf(frame) == fault % 0x40
  {
    var area := FeedbackArea(mode, fault, motor);
    hide MakeId, FeedbackArea;
    IdFields(FEEDBACK, area, host);
    AreaFields(mode, fault, motor);
  }

  /** A feedback identifier is rebuilt from its five fields exactly when it has 29 bits. */
  lemma FeedbackIdRebuilt(frame: CanFrame)
    requires CommTypeOf(frame) == FEEDBACK
    ensures MakeId(FEEDBACK, FeedbackArea(ModeOf(frame), FaultOf(frame), SourceOf(frame)), frame.id % 0x100) == frame.id
            <==> frame.id < ID_SPACE
  {
    IdDigits(frame.id);
    TopDigit(frame.id);
    var d3, d2, d1, d0 := ModeOf(frame), FaultOf(frame), SourceOf(frame), TargetOf(frame);
    assert frame.id
        == frame.id / 0x100_0000 * 0x100_0000 + d3 as int * 0x40_0000 + d2 as int * 0x1_0000 + d1 as int * 0x100 + d0;
    RebuiltArea(d3, d2, d1, d0);
    hide ModeOf, FaultOf, SourceOf, TargetOf, MakeId, FeedbackArea;
  }

  lemma TopDigit(id: u32)
    requires id / 0x100_0000 % 0x20 == FEEDBACK
    ensures id < ID_SPACE <==> id / 0x100_0000 == FEEDBACK
  {
  }

  lemma RebuiltArea(mode: u8, fault: u8, motor: u8, host: u8)
    requires mode < 4 && fault < 0x40
    ensures MakeId(FEEDBACK, FeedbackArea(mode, fault, motor), host)
         == 0x200_0000 + mode as int * 0x40_0000 + fault as int * 0x1_0000 + motor as int * 0x100 + host
  {
  }

  lemma IdDigits(id: u32)
    ensures id == id / 0x100_0000 * 0x100_0000 + id / 0x40_0000 % 4 * 0x40_0000 + id / 0x1_0000 % 0x40 * 0x1_0000
                  + id / 0x100 % 0x100 * 0x100 + id % 0x100
  {
    var q1, q2, q3, q4 := id / 0x100, id / 0x1_0000, id / 0x40_0000, id / 0x100_0000;
    assert q1 == q2 * 0x100 + q1 % 0x100;
    assert q2 == q3 * 0x40 + q2 % 0x40;
    assert q3 == q4 * 4 + q3 % 4;
  }

  lemma TenthsDecoded(code: u16)
    ensures TenthsCode(code as real * 0.1) == code
  {
    assert code as real * 0.1 * 10.0 == code as real;
  }

  /** Encoding a decoded feedback frame gives the frame back exactly when it is a full 29-bit frame. */
  lemma {:induction false} EncodeParsedFeedback(frame: CanFrame, limits: Limits)
    requires ParseFeedback(frame, limits).Some?
    ensures FeedbackFrame(ParseFeedback(frame, limits).value, limits) == frame <==> Full(frame)
  {
    hide FloatToUint, UintToFloat, BigEndianPayload, CodeAt, TenthsCode, MakeId, TopCode, FeedbackArea, ModeOf,
      FaultOf, SourceOf, CommTypeOf;
    WidthBound(16);
    EncodeDecode(CodeAt(frame, 0), -limits.position, limits.position, 16);
    EncodeDecode(CodeAt(frame, 1), -limits.velocity, limits.velocity, 16);
    EncodeDecode(CodeAt(frame, 2), -limits.torque, limits.torque, 16);
    TenthsDecoded(CodeAt(frame, 3));
    PayloadOfCodes(frame);
    FeedbackIdRebuilt(frame);
  }

  function Quantised(x: real, limit: real): real
    requires limit > 0.0
  {
    UintToFloat(FloatToUint(x, -limit, limit), -limit, limit)
  }

  /** What decoding an encoded feedback record returns. */
  lemma ParseEncodedFeedback(fb: Feedback, limits: Limits)
    ensures ParseFeedback(FeedbackFrame(fb, limits), limits) == Some(Feedback(
      fb.motorId, fb.hostId, fb.mode % 4, fb.fault % 0x40,
      Quantised(fb.position, limits.position), Quantised(fb.velocity, limits.velocity),
      Quantised(fb.torque, limits.torque),
      TenthsCode(fb.temperature) as real * 0.1))
    ensures CommTypeOf(FeedbackFrame(fb, limits)) == FEEDBACK
    ensures SourceOf(FeedbackFrame(fb, limits)) == fb.motorId
    ensures Full(FeedbackFrame(fb, limits))
  {
    hide FloatToUint, UintToFloat, BigEndianPayload, CodeAt, TenthsCode, MakeId, FeedbackArea, ModeOf, FaultOf,
      SourceOf, CommTypeOf;
    FeedbackFields(fb.mode, fb.fault, fb.motorId, fb.hostId, FeedbackFrame(fb, limits).data);
    CodesOfPayload(
      FeedbackFrame(fb, limits).id,
      FloatToUint(fb.position, -limits.position, limits.position),
      FloatToUint(fb.velocity, -limits.velocity, limits.velocity),
      FloatToUint(fb.torque, -limits.torque, limits.torque),
      TenthsCode(fb.temperature));
  }

  lemma QuantisedError(x: real, limit: real)
    requires limit > 0.0
    ensures
      var error := Quantised(x, limit) - Clamp(x, -limit, limit);
      -limit / 65535.0 < error <= limit / 65535.0
  {
    hide FloatToUint, UintToFloat, TopCode, Lsb;
    DecodeEncode(x, -limit, limit, 16);
    LsbValue(limit);
  }

  lemma LsbValue(limit: real)
    requires limit > 0.0
    ensures Lsb(-limit, limit) == 2.0 * limit / 65535.0
  {
    WidthBound(16);
  }

  /** The tenths of a degree survive exactly when they fit in 16 bits. */
  lemma TemperatureSurvives(t: real)
    ensures
      var back := TenthsCode(t) as real * 0.1;
      -0.05 <= back - t <= 0.05 <==> 0 <= Lround(t * 10.0) <= 0xFFFF
  {
    var tenths := Lround(t * 10.0);
    var back := tenths % 0x1_0000;
    assert tenths == back + tenths / 0x1_0000 * 0x1_0000;
    if tenths < 0 || tenths > 0xFFFF {
      assert back - tenths >= 0x1_0000 || tenths - back >= 0x1_0000;
    }
  }

  /**
    * Decoding after encoding: ids, mode and the six fault bits are exact, the physical values are
    * within half a code step of the clamped input, and the temperature within 0.05 exactly when
    * its tenths fit in 16 bits.
    */
  lemma {:induction false} FeedbackRoundTrip(fb: Feedback, limits: Limits)
    requires fb.mode < 4
    ensures ParseFeedback(FeedbackFrame(fb, limits), limits).Some?
    ensures
      var back := ParseFeedback(FeedbackFrame(fb, limits), limits).value;
      && back.motorId == fb.motorId && back.hostId == fb.hostId
      && back.mode == fb.mode && back.fault == fb.fault % 0x40
      && -limits.position / 65535.0 < back.position - Clamp(fb.position, -limits.position, limits.position)
          <= limits.position / 65535.0
      && -limits.velocity / 65535.0 < back.velocity - Clamp(fb.velocity, -limits.velocity, limits.velocity)
          <= limits.velocity / 65535.0
      && -limits.torque / 65535.0 < back.torque - Clamp(fb.torque, -limits.torque, limits.torque)
          <= limits.torque / 65535.0
      && (-0.05 <= back.temperature - fb.temperature <= 0.05 <==> 0 <= Lround(fb.temperature * 10.0) <= 0xFFFF)
  {
    hide ParseFeedback, FeedbackFrame, Quantised, Clamp, Lround, TenthsCode;
    ParseEncodedFeedback(fb, limits);
    QuantisedError(fb.position, limits.position);
    QuantisedError(fb.velocity, limits.velocity);
    QuantisedError(fb.torque, limits.torque);
    TemperatureSurvives(fb.temperature);
  }

  // ----------------------------------------------- the motion-control frame

  function TorqueCodeOf(frame: CanFrame): u16 { frame.id / 0x100 % 0x1_0000 }

  lemma DecodedGain(x: real, max: real)
    requires max > 0.0
    ensures
      var error := UintToFloat(FloatToUint(x, 0.0, max), 0.0, max) - Clamp(x, 0.0, max);
      -max / 131070.0 < error <= max / 131070.0
  {
    DecodeEncode(x, 0.0, max, 16);
    WidthBound(16);
    hide FloatToUint, UintToFloat, TopCode, Clamp;
    assert Lsb(0.0, max) == max / 65535.0;
  }

  lemma MotionIdFields(torque: u16, motor: u8, data: Payload)
    ensures
      var frame := CanFrame(MakeId(MOTION_CONTROL, torque, motor), data, 8);
      CommTypeOf(frame) == MOTION_CONTROL && TargetOf(frame) == motor && TorqueCodeOf(frame) == torque
  {
    IdFields(MOTION_CONTROL, torque, motor);
    assert MakeId(MOTION_CONTROL, torque, motor) / 0x100 == 0x1_0000 + torque as int;
  }

  /**
    * A motor decodes from a motion-control frame each of the five targets, within half a code step
    * of its clamped value.
    */
  lemma {:induction false} MotionFrameCarriesTargets(
      motor: u8, torque: real, position: real, velocity: real, kp: real, kd: real, limits: Limits)
    ensures
      var frame := MotionControlFrame(motor, torque, position, velocity, kp, kd, limits);
      && CommTypeOf(frame) == MOTION_CONTROL && TargetOf(frame) == motor
      && UintToFloat(TorqueCodeOf(frame), -limits.torque, limits.torque) == Quantised(torque, limits.torque)
      && UintToFloat(CodeAt(frame, 0), -limits.position, limits.position) == Quantised(position, limits.position)
      && UintToFloat(CodeAt(frame, 1), -limits.velocity, limits.velocity) == Quantised(velocity, limits.velocity)
      && -limits.kpMax / 131070.0 < UintToFloat(CodeAt(frame, 2), 0.0, limits.kpMax) - Clamp(kp, 0.0, limits.kpMax)
          <= limits.kpMax / 131070.0
      && -limits.kdMax / 131070.0 < UintToFloat(CodeAt(frame, 3), 0.0, limits.kdMax) - Clamp(kd, 0.0, limits.kdMax)
          <= limits.kdMax / 131070.0
  {
    hide FloatToUint, UintToFloat, BigEndianPayload, CodeAt, TorqueCodeOf, CommTypeOf, TargetOf, MakeId, Clamp;
    var frame := MotionControlFrame(motor, torque, position, velocity, kp, kd, limits);
    MotionIdFields(FloatToUint(torque, -limits.torque, limits.torque), motor, frame.data);
    CodesOfPayload(
      frame.id, FloatToUint(position, -limits.position, limits.position),
      FloatToUint(velocity, -limits.velocity, limits.velocity),
      FloatToUint(kp, 0.0, limits.kpMax), FloatToUint(kd, 0.0, limits.kdMax));
    DecodedGain(kp, limits.kpMax);
    DecodedGain(kd, limits.kdMax);
  }

  // ------------------------------------------- the builders, byte by byte

  method MakeFeedbackFrame(fb: Feedback, limits: Limits) returns (frame: CanFrame)
    ensures frame == FeedbackFrame(fb, limits)
  {
    hide FloatToUint, HighByte, LowByte, MakeId, FeedbackArea, TenthsCode;
    frame := CanFrame(0, ZERO_PAYLOAD, 8);
    frame := frame.(id := MakeId(FEEDBACK, FeedbackArea(fb.mode, fb.fault, fb.motorId), fb.hostId));
    var positionCode := FloatToUint(fb.position, -limits.position, limits.position);
    var velocityCode := FloatToUint(fb.velocity, -limits.velocity, limits.velocity);
    var torqueCode := FloatToUint(fb.torque, -limits.torque, limits.torque);
    var temperatureCode := TenthsCode(fb.temperature);
    frame := frame.(data := frame.data[0 := HighByte(positionCode)]);
    frame := frame.(data := frame.data[1 := LowByte(positionCode)]);
    frame := frame.(data := frame.data[2 := HighByte(velocityCode)]);
    frame := frame.(data := frame.data[3 := LowByte(velocityCode)]);
    frame := frame.(data := frame.data[4 := HighByte(torqueCode)]);
    frame := frame.(data := frame.data[5 := LowByte(torqueCode)]);
    frame := frame.(data := frame.data[6 := HighByte(temperatureCode)]);
    frame := frame.(data := frame.data[7 := LowByte(temperatureCode)]);
  }

  method MakeMotionControlFrame(
      motor: u8, torque: real, position: real, velocity: real, kp: real, kd: real, limits: Limits)
    returns (frame: CanFrame)
    ensures frame == MotionControlFrame(motor, torque, position, velocity, kp, kd, limits)
  {
    hide FloatToUint, HighByte, LowByte, MakeId;
    frame := CanFrame(0, ZERO_PAYLOAD, 8);
    var torqueCode := FloatToUint(torque, -limits.torque, limits.torque);
    frame := frame.(id := MakeId(MOTION_CONTROL, torqueCode, motor));
    var positionCode := FloatToUint(position, -limits.position, limits.position);
    var velocityCode := FloatToUint(velocity, -limits.velocity, limits.velocity);
    var kpCode := FloatToUint(kp, 0.0, limits.kpMax);
    var kdCode := FloatToUint(kd, 0.0, limits.kdMax);
    frame := frame.(data := frame.data[0 := HighByte(positionCode)]);
    frame := frame.(data := frame.data[1 := LowByte(positionCode)]);
    frame := frame.(data := frame.data[2 := HighByte(velocityCode)]);
    frame := frame.(data := frame.data[3 := LowByte(velocityCode)]);
    frame := frame.(data := frame.data[4 := HighByte(kpCode)]);
    frame := frame.(data := frame.data[5 := LowByte(kpCode)]);
    frame := frame.(data := frame.data[6 := HighByte(kdCode)]);
    frame := frame.(data := frame.data[7 := LowByte(kdCode)]);
  }

  /** Type, area and destination, then the little-endian index, then the value bytes from byte 4 on. */
  method MakeIndexedFrame(commType: u8, area: u16, dest: u8, index: u16, value: Word) returns (frame: CanFrame)
    ensures frame == CanFrame(MakeId(commType, area, dest), IndexPayload(index, value), 8)
  {
    hide HighByte, LowByte, MakeId;
    frame := CanFrame(MakeId(commType, area, dest), ZERO_PAYLOAD, 8);
    frame := frame.(data := frame.data[0 := LowByte(index)]);
    frame := frame.(data := frame.data[1 := HighByte(index)]);
    frame := frame.(data := frame.data[..4] + value);
  }

  /** The one-byte variants write only byte 4. */
  method MakeByteFrame(commType: u8, area: u16, dest: u8, index: u16, value: u8) returns (frame: CanFrame)
    ensures frame == CanFrame(MakeId(commType, area, dest), IndexPayload(index, ByteWord(value)), 8)
  {
    hide HighByte, LowByte, MakeId;
    frame := CanFrame(MakeId(commType, area, dest), ZERO_PAYLOAD, 8);
    frame := frame.(data := frame.data[0 := LowByte(index)]);
    frame := frame.(data := frame.data[1 := HighByte(index)]);
    frame := frame.(data := frame.data[4 := value]);
  }
}

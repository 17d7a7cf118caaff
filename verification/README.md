# Verified model of the RobStride driver

A Dafny model of `robstride_driver`, a C++ driver for RobStride motors on a CAN bus, and proofs of
what it promises. The model follows the layers of the driver:

| file | layer |
|---|---|
| `Bytes.dfy`, `Can.dfy` | fixed-width integers, byte layouts, the CAN frame |
| `AtFraming.dfy`, `AtTiling.dfy` | AT serial framing: encoder, incremental parser, what its output means on the byte stream |
| `AtSerial.dfy` | the parser object and the serial transport with partial writes and chunked reads |
| `RealFacts.dfy`, `Scaling.dfy`, `Float32.dfy` | rounding, wrapping, fixed-point codes, float32 values |
| `Protocol.dfy` | identifiers, command frames, reply frames and their decoders |
| `PositionUnwrapping.dfy`, `Tracking.dfy` | the position unwrapper, and drift-free tracking through wrap, quantisation and unwrapping |
| `Stub.dfy`, `StubTrace.dfy`, `StubMotion.dfy` | the simulator: one command, whole histories, the simulated motion |
| `Wire.dfy` | every frame and packet byte by byte, in plain numbers |
| `Driver.dfy`, `AnyBus.dfy` | the request/response driver of one motor, and what it guarantees on a bus it knows nothing about |
| `CallWire.dfy` | every call over any transport: the bytes it sends, how it fails, what it replies and caches |
| `SocketCan.dfy` | the SocketCAN transport and when its kernel filter is noticed |
| `Fleet.dfy`, `CallEffects.dfy` | any client of any motor objects over the simulator, and what its calls do to the motors |
| `Conservation.dfy`, `ModeSafety.dfy` | what every run keeps, whether or not deadlines expire |
| `LateAnswers.dfy` | what an expired exchange does to later ones |
| `Transparency.dfy` | the same clients over the serial line |
| `ClientTracking.dfy` | unwrapping the positions an application is told, over direct calls and the serial line |

How the model speaks about the source:

- Objects whose methods update fields are classes (`FrameParser`, `AtSerialCanInterface`,
  `PositionUnwrapper`, `StubCanInterface`, `RobstrideMotor`), each method proved equal to a function
  on the state; the theorems are about those functions.
- `double` is `real`. `std::lround` rounds halves away from zero, `std::remainder` rounds the
  quotient half to even. A float32 is its four bytes; `FloatValue` gives its real value.
- Shifts and masks on identifiers are divisions, remainders and sums of disjoint bit fields.
- Time is an input: the n-th frame of a session is sent at time `clock(n)`, for any `clock`.
  A deadline is a number of receive passes (`patience`), chosen freely for every exchange.
- The operating system and the wire are scripts of what `write`, `select` and `read` return. The
  transport objects are proved for every script. Over the serial line each send and each receive
  call of a run has a script of its own, chosen freely (`Device`); transparency asks of it only that
  a send's write calls can take the packet and a receive's passes bring in the waiting bytes before
  the time is up (`InTime`), in pieces of any size, empty ones and interruptions included.
- A transport is a record of a send and a receive function over a state (`Port`); the driver is
  generic in it, as the C++ driver is in `CanInterface`.

Where code and documentation differ, the model follows the code. `get_host_id` is documented as
valid for frames whose data area carries the host id, but the simulator applies it to every
command, motion control included (`MotionFeedbackNamesTorqueByte`). A parameter read is documented
as reading the given index, but the answer is accepted whatever index it carries
(`ReadTakesFirstResponse`, `FirstIsRightByIndex`); after one expired read the next read of that motor
returns the register asked for first (`ReadAfterExpiredRead`). `receive` is documented to return
nothing on a timeout; over SocketCAN it also does so on a frame with an 11-bit identifier. The kernel
filter drops such frames, so it can be noticed: on the queue [11-bit frame, answer] the unfiltered
call times out and the filtered one succeeds (`FilterIsNoticed`). The filter changes nothing if and
only if no 11-bit frame comes before a frame of the motor, unless the answer comes before both
(`FilterIsInvisible`). The unwrapper is documented to need motion of less than half the range
between samples; on quantised samples the exact condition is on the codes, and the bound half a code
step less (`TrackingIsExact`, `TrackingIsDriftFree`, `LongerStepsAreMistaken`).

## Model

| member | source | states |
|---|---|---|
| AtFraming.DecodeEncoded | src/at_serial_can_interface.cpp:31-89 | whatever bytes follow an encoded frame, the parser takes exactly that frame, with the identifier cut to 29 bits and data beyond dlc zeroed |
| AtFraming.DrainEncodedAll | src/at_serial_can_interface.cpp:31-89 | back-to-back encodings of any frames with dlc up to 8 parse to exactly what each becomes on the wire, leaving nothing; a full frame becomes itself |
| AtFraming.ReencodeTaken | src/at_serial_can_interface.cpp:31-89 | a slice the parser takes re-encodes byte for byte if and only if its packed low bits are 4 |
| AtFraming.DrainByPolling | src/at_serial_can_interface.cpp:55-89 | a poll returns the first frame of the batch parse; when it returns nothing at most 16 bytes remain |
| AtFraming.DrainAppend | src/at_serial_can_interface.cpp:51-89 | parsing early loses nothing: parsing a stream is parsing a prefix, then its leftover with the rest |
| AtFraming.ChunkingInvariance | src/at_serial_can_interface.cpp:51-89 | for any pushes and any interleaved polls, delivered frames plus those left in the buffer are the batch parse of the whole stream, with the same leftover |
| AtTiling.JudgeMeaning | src/at_serial_can_interface.cpp:56-73 | the parser takes exactly at well-formed complete frames and skips exactly at rejected positions |
| AtTiling.DecisionsAreFinal | src/at_serial_can_interface.cpp:56-73 | a rejected position stays rejected and a frame stays a frame, whatever bytes arrive later |
| AtTiling.DrainIsTiling | src/at_serial_can_interface.cpp:55-89 | the drained output is a left-to-right tiling into disjoint ordered frames and rejected bytes, with the leftover at its stop |
| AtTiling.TilingIsUnique | src/at_serial_can_interface.cpp:55-89 | a stream has only one such tiling |
| AtTiling.TilingDecidesDrain | src/at_serial_can_interface.cpp:55-89 | any tiling of the stream, however found, is what the parser delivers and keeps |
| AtTiling.SkipBrokenFrame | src/at_serial_can_interface.cpp:55-89 | entering a clean frame in its middle costs that frame only |
| AtTiling.Resynchronisation | src/at_serial_can_interface.cpp:55-89 | after any garbage, every clean frame from the second on is delivered, in order, as the last output, and nothing stays behind |
| AtTiling.HarmlessGarbage | src/at_serial_can_interface.cpp:55-89 | garbage without the pair "AT" loses no frame and adds none |
| AtSerial.EncodeFrame | src/at_serial_can_interface.cpp:31-49 | the packet built byte by byte is the encoding |
| AtSerial.FrameParser.Push | src/at_serial_can_interface.cpp:51-53 | the chunk is appended to the buffer |
| AtSerial.FrameParser.Poll | src/at_serial_can_interface.cpp:55-89 | the erase loop returns and leaves what the parse function says, and at most 16 bytes when it returns nothing |
| AtSerial.AtSerialCanInterface.Send | src/at_serial_can_interface.cpp:137-151 | the device has accepted exactly the prefix of the packet that its write calls took, and all of it on success |
| AtSerial.AtSerialCanInterface.Receive | src/at_serial_can_interface.cpp:153-198 | the outcome, buffer and unread events are those of the reception function, and the buffer stays within 272 bytes |
| AtSerial.WriteCompletes | src/at_serial_can_interface.cpp:140-150 | the packet goes out whole if and only if the calls before a failure can take that many bytes; otherwise all they can take goes out |
| AtSerial.TransmissionStops | src/at_serial_can_interface.cpp:140-150 | the write calls made are exactly those up to the one that takes the last byte, or to the first failure |
| AtSerial.ReceptionStops | src/at_serial_can_interface.cpp:153-198 | if the bytes before a passed deadline, a select timeout or an error complete no frame, receive returns nothing (fails on the error), leaves what comes later unread and keeps the unfinished rest; if they do, it returns the first frame and reads only until it is complete |
| AtSerial.ReceiveConserves | src/at_serial_can_interface.cpp:153-198 | a receive call, however it ends, neither loses, invents nor reorders frames of the stream |
| AtSerial.SteadyReceive | src/at_serial_can_interface.cpp:153-198 | while bytes keep arriving, receive returns the next frame of the stream if and only if there is one |
| AtSerial.BufferIsBounded | src/at_serial_can_interface.cpp:153-198 | the buffer never exceeds 272 bytes at any point of any run of receive calls |
| Scaling.RemainderBound | src/stub_can_interface.cpp:93-95 | the remainder lies within half the divisor of zero |
| Scaling.RemainderUnique | src/stub_can_interface.cpp:152 | it is the only congruent value in the open half span |
| Scaling.TiesGoToEven | src/stub_can_interface.cpp:152 | half-way between two multiples the even one is removed, and the remainder is an odd function |
| Scaling.ClampIsNearest | src/protocol.cpp:61 | clamping lands in the range at the point nearest to the value |
| Scaling.HalvesRoundAway | src/protocol.cpp:64 | halves are rounded away from zero on both sides |
| Scaling.CodeValue | src/protocol.cpp:60-65 | up to 16 bits the code is the rounded scaled value and no truncation happens |
| Scaling.DecodeEncode | src/protocol.cpp:60-70 | decode after encode is within half a step of the clamped input, above it at a tie |
| Scaling.EncodeDecode | src/protocol.cpp:60-70 | encode after decode is the identity on every code of the width |
| Scaling.QuantiserIsIdempotent | src/protocol.cpp:60-70 | quantising twice is quantising once |
| Scaling.EndsHaveEndCodes | src/protocol.cpp:60-70 | the ends of the range and everything beyond have codes 0 and 2^bits - 1, which decode to the ends |
| Scaling.EncodeIsMonotone | src/protocol.cpp:60-65 | larger inputs never get smaller codes |
| Scaling.SymmetricCodes | src/protocol.cpp:60-65 | on a symmetric range the codes of x and -x add up to the top code, or one more exactly at a tie |
| Scaling.ZeroIsNotRepresentable | src/protocol.cpp:60-70 | no 16-bit code on a symmetric range decodes to zero; the code of zero decodes half a step above it |
| Scaling.WidthLimit | src/protocol.cpp:60-65 | the 16-bit result holds every code if and only if the width is at most 16 |
| Float32.SignBitNegates | src/protocol.cpp:48-58 | flipping the top bit of the last byte of a float word negates its value |
| Float32.OneIsOne | src/protocol.cpp:48-58 | the word 00 00 80 3F is one |
| Float32.NextExponentDoubles | src/protocol.cpp:48-58 | adding one to the exponent field of a normal word doubles its value |
| Float32.NeighboursAreEquallySpaced | src/protocol.cpp:48-58 | within one exponent adding one to the fraction always adds 2^-23 of the power of two |
| Float32.ValuesAreOrdered | src/protocol.cpp:48-58 | nonnegative finite words are strictly increasing as little-endian numbers |
| Wire.CommandLayouts | src/protocol.cpp:72-144 | every command frame in plain numbers: type, host and motor in the identifier, and all eight data bytes |
| Wire.MotionLayout | src/protocol.cpp:146-170 | type 1, the motor, and the five codes of torque, position, velocity, kp and kd at their places |
| Wire.FeedbackLayout | src/protocol.cpp:172-200 | the identifier digit by digit, and the codes of position, velocity, torque and temperature in this order |
| Wire.ParamResponseLayout | src/protocol.cpp:204-230 | motor in bits 15-8, host in bits 7-0, the index, two zeros and the word |
| Wire.ReadersLook | src/protocol.cpp:232-246 | which digits of any identifier and which data bytes each reader returns |
| Wire.FeedbackReading | src/protocol.cpp:276-305 | exactly full type-2 frames are feedback, read digit by digit and code by code |
| Wire.ParamResponseReading | src/protocol.cpp:307-322 | exactly full type-17 frames are parameter responses, read as source, index and bytes |
| Wire.PacketLayout | src/at_serial_can_interface.cpp:31-49 | the AT packet byte by byte: "AT", the shifted identifier with a 4 below it, length, data, CR LF |
| Wire.PacketReading | src/at_serial_can_interface.cpp:55-89 | which bytes the parser takes, waits for or skips, and what it makes of them, byte by byte |
| Wire.ManualExample | tests/fixtures/at_serial_samples.hpp:13-18 | the manual's example packet is what the write of run_mode 1 becomes |
| Wire.Ranges | src/protocol.cpp:22-30 | the ranges of the seven actuator models |
| Protocol.IdFields | src/protocol.cpp:32-36 | every field of a packed identifier is read back |
| Protocol.EncodeParsedFeedback | src/protocol.cpp:172-305 | re-encoding a decoded feedback frame gives it back if and only if it has 29 identifier bits and dlc 8 |
| Protocol.FeedbackRoundTrip | src/protocol.cpp:172-305 | decoding an encoded feedback keeps ids, mode and six fault bits, each clamped value within half a step, and the temperature within 0.05 if and only if its tenths fit 16 bits |
| Protocol.ParamResponseRoundTrip | src/protocol.cpp:204-322 | motor, index and word of a parameter response reach the host unchanged |
| Protocol.IndexedCommandFields | src/protocol.cpp:109-144 | a parameter command reaches its motor with type, host, index and word intact |
| Protocol.MotionFrameCarriesTargets | src/protocol.cpp:146-170 | each of the five targets of a motion-control frame decodes to within half a step of its clamped value |
| Protocol.MakeFeedbackFrame | src/protocol.cpp:172-200 | the frame filled byte by byte is the feedback frame of the record |
| Protocol.MakeMotionControlFrame | src/protocol.cpp:146-170 | the frame filled byte by byte is the motion-control frame of the targets |
| Protocol.MakeIndexedFrame | src/protocol.cpp:120-137 | index in bytes 0-1 little-endian, zero in bytes 2-3, the word in bytes 4-7 |
| Protocol.MakeByteFrame | src/protocol.cpp:139-144 | the one-byte variant carries the byte padded with zeros |
| PositionUnwrapping.PositionUnwrapper.Update | include/robstride_driver/position_unwrapper.hpp:36-47 | new state and output are those of the track function |
| PositionUnwrapping.PositionUnwrapper.Position | include/robstride_driver/position_unwrapper.hpp:50-55 | the position of the track, none before the first sample |
| PositionUnwrapping.PositionUnwrapper.Reset | include/robstride_driver/position_unwrapper.hpp:60-63 | the state of a fresh unwrapper |
| PositionUnwrapping.PositionIsLastOutput | include/robstride_driver/position_unwrapper.hpp:50-55 | the position is the latest output, after any run |
| PositionUnwrapping.TurnsAreCounted | include/robstride_driver/position_unwrapper.hpp:36-47 | a turn is counted exactly when a sample has moved by more than half a span, against that move |
| PositionUnwrapping.StartsUnwrapped | include/robstride_driver/position_unwrapper.hpp:36-55 | no position before the first sample, and the first output is the first sample |
| PositionUnwrapping.OutputsAreCongruent | include/robstride_driver/position_unwrapper.hpp:36-47 | every output is its sample plus a whole number of spans |
| PositionUnwrapping.OutputStepsAreShort | include/robstride_driver/position_unwrapper.hpp:36-47 | successive outputs differ by at most half a span |
| PositionUnwrapping.UnwrapIsUnique | include/robstride_driver/position_unwrapper.hpp:12-47 | among tracks congruent to the samples, equal at the first and moving less than half a span at a time, the output is the only one |
| Tracking.CodeOnLine | src/stub_can_interface.cpp:152 | transmitted code plus 65535 per removed turn is the rounded position on the unwrapped line |
| Tracking.FollowStep | include/robstride_driver/position_unwrapper.hpp:36-47 | one update counts exactly the wraps the remainder removed if and only if the codes on the line are at most 32767 apart |
| Tracking.TrackingIsExact | include/robstride_driver/position_unwrapper.hpp:21-47 | for runs of any length the output is the true position plus one fixed number of spans, within half a step, if and only if successive codes on the line are at most 32767 apart |
| Tracking.TrackingIsDriftFree | include/robstride_driver/position_unwrapper.hpp:21-47 | for runs of any length with steps of at most 32767 code steps, the output is the true position plus one fixed number of spans, within half a step |
| Tracking.LongerStepsAreMistaken | include/robstride_driver/position_unwrapper.hpp:21-47 | every longer step below half a span, up or down, is taken the wrong way round between some two positions |
| Stub.StubCanInterface.Send | src/stub_can_interface.cpp:23-105 | motors, queue and temperature after a command are those of the command function, unsupported types included |
| Stub.StubCanInterface.Receive | src/stub_can_interface.cpp:107-115 | the oldest response is popped, or nothing when the queue is empty |
| Stub.StubCanInterface.SetFaultBits | src/stub_can_interface.cpp:117-120 | only the fault bits of that motor change |
| Stub.StubCanInterface.SetTemperature | include/robstride_driver/stub_can_interface.hpp:52-54 | only the reported temperature changes |
| Stub.StubCanInterface.Motor | src/stub_can_interface.cpp:122-124 | the state of a motor, created on first use |
| Stub.StubCanInterface.Advance | src/stub_can_interface.cpp:126-138 | the state advanced to the given time |
| Stub.StubCanInterface.StoreParam | src/stub_can_interface.cpp:84-96 | the register written, and the jump to a CSP target when it applies |
| Stub.StubCanInterface.QueueFeedback | src/stub_can_interface.cpp:140-159 | one feedback frame of the current state is appended to the queue |
| StubTrace.UnwrittenParameterIsZero | src/stub_can_interface.cpp:12-16 | in every reachable state a parameter that no command has written has the value zero |
| StubTrace.UntouchedMotor | include/robstride_driver/stub_can_interface.hpp:60-70 | a motor that no command and no fault has reached is disabled, at position zero, in mode 0, without faults and with zero parameters |
| StubTrace.NewSimulatorIsWarm | include/robstride_driver/stub_can_interface.hpp:92-93 | a new simulator reports 30 degrees |
| StubTrace.OnlySixTypesAreAnswered | src/stub_can_interface.cpp:29-105 | a command changes anything or is answered exactly if its type is 1, 3, 4, 6, 17 or 18 |
| StubTrace.ResponseFacts | src/stub_can_interface.cpp:23-105 | every response is a full frame from the motor the command addressed to the host in its bits 15-8, of the type the command calls for |
| StubTrace.NonInterference | src/stub_can_interface.cpp:23-124 | for any history, a motor's state and the responses from it are those of the history with everything for other motors deleted |
| StubTrace.HistoryDeterminesRegisters | src/stub_can_interface.cpp:23-138 | in every reachable state every register, mode, enablement and fault field is what the history last set, and an enabled motor has an update time |
| StubTrace.ReadReturnsLastWritten | src/stub_can_interface.cpp:61-98 | a read after any history returns the word last written to that motor and index, or zero; run_mode keeps its first byte |
| StubTrace.WriteReachesRegister | src/protocol.cpp:132-144 | an encoded parameter write is a write to that motor and index, and to no other, of that word |
| StubTrace.MotionFeedbackNamesTorqueByte | src/stub_can_interface.cpp:23-26 | the answer to a motion-control frame names the low torque byte as its host |
| StubMotion.ExactIntegration | src/stub_can_interface.cpp:126-138 | without jumps, a motor's position at any time is an earlier position plus the integral of the commanded speed over every event on the bus in between |
| StubMotion.ZeroedPosition | src/stub_can_interface.cpp:47-53 | after re-zeroing the integral starts at zero |
| StubMotion.ObserversAreInvisible | src/stub_can_interface.cpp:54-76 | inserting a motion-control or read frame anywhere at any time adds its own response and changes no other response and no later position |
| StubMotion.FeedbackNeverClamps | src/stub_can_interface.cpp:152 | the wrapped position is always inside the encodable range |
| StubMotion.FeedbackTellsHistory | src/stub_can_interface.cpp:140-159 | the decoded feedback to any command gives ids, mode, faults, position, speed and temperature as the history determines them |
| StubMotion.ReportedSpeedIsClamped | src/stub_can_interface.cpp:126-155 | feedback reports the clamped speed while the position integrates the unclamped one |
| StubMotion.CspReachesTarget | src/stub_can_interface.cpp:89-97 | a CSP target moves the motor by at most half the span to a congruent value, and the feedback decodes to within half a step of one |
| StubMotion.HostSeesReports | src/stub_can_interface.cpp:140-159 | what the host decodes is, sample for sample, the wrapped and quantised true position |
| StubMotion.StubIsTracked | include/robstride_driver/position_unwrapper.hpp:21-47 | unwrapping the simulator's feedback follows the true positions for ever if and only if no two successive ones are more than 32767 codes apart |
| StubMotion.GentleRunsTakeSmallSteps | src/stub_can_interface.cpp:126-138 | bounded speed and bounded sampling gaps give small steps |
| StubMotion.Rs02VelocityIsTracked | include/robstride_driver/position_unwrapper.hpp:21-23 | every RS02 run within 44 rad/s sampled every 280 ms, without re-zeroing or CSP jumps, is tracked without drift |
| Driver.RobstrideMotor.Transceive | src/robstride_motor.cpp:35-63 | result, cache and bus after one exchange |
| Driver.RobstrideMotor.TransceiveFeedback | src/robstride_motor.cpp:65-72 | the decoded feedback, or the failure, of one exchange |
| Driver.RobstrideMotor.Enable | src/robstride_motor.cpp:74-77 | the call is its one exchange |
| Driver.RobstrideMotor.Disable | src/robstride_motor.cpp:79-82 | the call is its one exchange |
| Driver.RobstrideMotor.SetRunMode | src/robstride_motor.cpp:84-94 | stop, write, read in turn, abandoned at the first failure, and the comparison of the mode read back |
| Driver.RobstrideMotor.GetRunMode | src/robstride_motor.cpp:96-98 | the byte of one read of run_mode |
| Driver.RobstrideMotor.ConfigureVelocityMode | src/robstride_motor.cpp:100-104 | two writes in turn, abandoned at the first failure |
| Driver.RobstrideMotor.SendVelocityCommand | src/robstride_motor.cpp:106-108 | one write of spd_ref |
| Driver.RobstrideMotor.SendPositionCspCommand | src/robstride_motor.cpp:110-114 | the speed limit, then the target, and the feedback of the second |
| Driver.RobstrideMotor.SendMotionCommand | src/robstride_motor.cpp:116-121 | the call is its one exchange |
| Driver.RobstrideMotor.SetMechanicalZero | src/robstride_motor.cpp:123-127 | stop, then zero, abandoned at the first failure |
| Driver.RobstrideMotor.ReadParam | src/robstride_motor.cpp:129-141 | the word of the answer to one read |
| Driver.RobstrideMotor.WriteParam | src/robstride_motor.cpp:143-151 | the feedback of one write |
| Driver.LastAnswer | src/robstride_motor.cpp:35-72 | a successful call ends with an untruncated frame of the expected type from this motor |
| AnyBus.AwaitReturnsFirstMatch | src/robstride_motor.cpp:35-63 | a wait returns the first frame of the expected type from this motor if and only if it comes before the deadline, consumes everything up to it, and caches the last own feedback consumed |
| AnyBus.ReadTakesFirstResponse | src/robstride_motor.cpp:129-141 | a read returns the first parameter response of the motor, whatever index that carries |
| AnyBus.ReadLeavesTheRest | src/robstride_motor.cpp:129-141 | a read takes the first parameter response of this motor and leaves what comes after it queued |
| AnyBus.FirstIsRightByIndex | src/robstride_motor.cpp:35-63 | the response taken is the one about the register asked for if and only if the first response has its index; otherwise the right one is still queued |
| SocketCan.FilterIsInvisible | src/socket_can_interface.cpp:66-119 | the kernel filter changes neither result, nor cache, nor the remaining filtered frames if and only if no 11-bit frame comes before a frame of this motor with the answer not before both |
| SocketCan.FilterIsNoticed | src/socket_can_interface.cpp:66-119 | with an 11-bit frame before the answer the unfiltered wait times out and the filtered one returns the answer |
| SocketCan.SocketReading | src/socket_can_interface.cpp:66-125 | only the highest of the three flag bits makes a frame extended, the other 29 bits are its identifier, and the filter compares bits 15-8 |
| SocketCan.SocketRoundTrip | src/socket_can_interface.cpp:76-125 | a frame written to the socket is read as itself, with the identifier cut to 29 bits |
| CallWire.AwaitOutcome | src/robstride_motor.cpp:35-63 | on any transport a wait ends at the first receive that brings the answer, silence (a timeout) or an error, or when it is out of passes |
| CallWire.FailedSendEnds | src/robstride_motor.cpp:35-37 | a failed send ends the exchange without listening |
| CallWire.PerformedOnAnyBus | src/robstride_motor.cpp:35-151 | on any transport the frames go out up to the exchange that decides the result, and the frames heard decide the cache |
| CallWire.CallOnAnyBus | src/robstride_motor.cpp:74-151 | every call on any transport: the bytes of each frame it logs as sent, in order; it fails only by a timeout, a failed transport or a truncated answer; otherwise its last heard frame is this motor's answer of the right type and the reply is what its bytes say |
| CallWire.ServedCaches | include/robstride_driver/robstride_motor.hpp:101-104 | a call leaves the latest own feedback it heard in its own object's cache and touches no other |
| AnyBus.AwaitTranscript | src/robstride_motor.cpp:35-63 | on any bus a wait only listens, stops at the first match, and caches the last own feedback heard |
| AnyBus.PerformedTranscript | src/robstride_motor.cpp:35-151 | on any bus the frames sent are a prefix of the call's frames, each but the last answered before the next goes out, and success means all were |
| AnyBus.SetRunModeOnAnyBus | src/robstride_motor.cpp:84-98 | on any bus: stop, write, read; the write only after a feedback of this motor; success only if this motor's answer carried the requested mode |
| Fleet.StepsAreAnswerable | src/robstride_motor.cpp:74-151 | every frame the driver sends is one the simulator answers with the expected type |
| Fleet.LockstepForever | src/robstride_motor.cpp:35-151 | for any client of any motor objects sharing the simulator no call fails, every frame sent gets exactly one response from the motor it addressed, and after every call the queue is empty and all responses of the history have been received in order |
| Fleet.DriverReadsLastWritten | src/robstride_motor.cpp:129-141 | a driver read returns the word last written to that register by any earlier command of any object |
| Fleet.SetRunModeEndsVerified | src/robstride_motor.cpp:84-94 | set_run_mode over the simulator succeeds and leaves the motor disabled in the requested mode |
| Conservation.ConservedForever | src/stub_can_interface.cpp:23-115 | for any client, whether or not deadlines expire: the simulator is where the commands sent put it, and the frames received followed by those queued are its responses, none lost, invented or reordered |
| Conservation.InStepIsConserved | src/robstride_motor.cpp:35-63 | lockstep is conservation with nothing queued and every frame answered at once |
| Conservation.PerformedSendsPrefix | src/robstride_motor.cpp:35-151 | over any transport the commands a call sends are a nonempty prefix of its exchanges |
| ModeSafety.DisciplinedRunsStopFirst | src/robstride_motor.cpp:84-94 | over any transport, a client that leaves run_mode to set_run_mode stops a motor directly before every write of its mode |
| ModeSafety.ModeChangeSafety | src/robstride_motor.cpp:84-94 | if only set_run_mode changes modes, no motor's mode ever changes while it is enabled, in any run, whether or not deadlines expire |
| CallEffects.CallsAccomplish | src/robstride_motor.cpp:74-151 | every call does to its motor what its documentation promises, CSP targets included; registers and flags it is not about stay as they were, the position is where the motion had taken it unless the call zeroes it or sends it to a target, reads change nothing, and other motors and the temperature are untouched |
| CallEffects.RepliesTell | src/robstride_motor.cpp:65-151 | exactly the calls that return a feedback return one, and all its fields describe the motor as the call leaves it, the host that asked and the temperature |
| CallEffects.RunModeIsRead | src/robstride_motor.cpp:96-98 | get_run_mode returns the low byte last written to register 0x7005 of the motor |
| CallEffects.RunModeAfterSet | src/robstride_motor.cpp:84-98 | directly after set_run_mode it returns the mode set |
| CallEffects.CspCallReachesTarget | src/robstride_motor.cpp:110-114 | the position a CSP call returns is within half a code step of a value congruent to the target |
| LateAnswers.ExpiredExchange | src/robstride_motor.cpp:35-63 | an exchange whose deadline passes at once times out, changes the motor all the same, and leaves its answer queued |
| LateAnswers.ExchangeOverQueue | src/robstride_motor.cpp:35-63 | with any answers still queued, an exchange takes the first frame of its motor and type if it comes within the receive passes before the deadline, leaves what follows queued, and otherwise times out |
| LateAnswers.ExchangeAfterExpiry | src/robstride_motor.cpp:35-63 | the next exchange takes the late answer if it is with the same motor and expects the same type; otherwise it gets its own if there is time for a second receive, and times out leaving its own queued if not |
| LateAnswers.BehindForever | src/robstride_motor.cpp:35-63 | with d late answers of a motor and type queued, any number of further exchanges of that type with it are each given the answer to the one d before |
| LateAnswers.ReadAfterExpiredRead | src/robstride_motor.cpp:129-141 | after a read that expired, the next read of the motor returns the register asked for first |
| Transparency.DeliveredAtOnce | src/at_serial_can_interface.cpp:51-89 | a packet delivered in any pieces parses as if delivered at once |
| Transparency.HandedIsTransmitted | src/at_serial_can_interface.cpp:137-151 | the pieces the write calls take make up exactly what the send loop gets out |
| Transparency.SerialSimulatesDirect | src/at_serial_can_interface.cpp:137-198 | over any device that is in time, the simulator over the serial line answers every send and receive as the simulator called directly |
| Transparency.DrippingIsInTime | src/at_serial_can_interface.cpp:137-198 | such devices exist: single bytes with empty and interrupted passes between them |
| Transparency.ConductedAlike | src/robstride_motor.cpp:35-151 | over transports that answer alike, an adaptive client gets the same replies and leaves the same caches |
| Transparency.SerialIsTransparent | src/at_serial_can_interface.cpp:31-198 | for every client and every device that is in time, each call with its own cutting into pieces, empty pieces and interruptions, replies, caches, traffic and final simulator are the same over the serial line as in direct calls |
| Transparency.SerialLockstep | src/at_serial_can_interface.cpp:31-198 | so no call fails over the serial line either, and no frame stays undelivered |
| Transparency.SerialConserves | src/at_serial_can_interface.cpp:31-198 | whether or not deadlines expire, the frames received followed by those in the host's buffer or on the wire are the simulator's responses to the commands sent |
| Transparency.SerialStops | src/at_serial_can_interface.cpp:137-198 | on any device, in time or not: a send succeeds exactly if its write calls can take the packet, and a stopped receive is silent or broken and leaves later bytes on the wire |
| ClientTracking.ToldAreReports | src/robstride_motor.cpp:65-151 | the positions a client is told are, one for one, the wrapped and quantised true positions at those calls |
| ClientTracking.ClientIsTracked | include/robstride_driver/position_unwrapper.hpp:21-47 | unwrapping the positions an application's calls return follows the motor if and only if the true positions at those calls are at most 32767 codes apart |
| ClientTracking.Rs02ClientIsTracked | include/robstride_driver/position_unwrapper.hpp:21-23 | an application told a position of an RS02 at least every 280 ms, commanding at most 44 rad/s without re-zeroing or CSP targets, follows it without drift |
| ClientTracking.SerialClientIsTracked | src/at_serial_can_interface.cpp:31-198 | the same holds for what an application is told over the serial line |

## Left out

- Device and socket setup, ioctls, `select` timing, errno values and destructors: operating-system calls. The byte-stream loops and the kernel filter's predicate are modelled.
- Real clocks and sleeping: times and deadlines are inputs; the number of milliseconds passed to `receive` is not modelled.
- IEEE 754 rounding of doubles, NaN and infinities: the theorems are about real arithmetic.
- Float32.FloatValue: infinities and NaNs have no real value and are given the value zero, because parameters are only ever compared as words or used as finite numbers.
- Conversion of the driver's `double` arguments to float32: calls take the converted word.
- Frames with a dlc above 8 in `encode_frame`: the source would read outside its array, so the encoder requires dlc up to 8.
- The small frame builders (`make_enable_frame`, `make_stop_frame` and the like) are values, not step-by-step fills: a frame is a local value there and nothing aliases it.
- The state of one simulated motor is a value in the map of motors; the C++ reference into the map is a read and a write back.
- The USB-CAN module itself is not in the repository; `Transparency` gives it the same parser as the host, with every complete frame relayed at once.
- Short reads of a SocketCAN socket: the kernel delivers whole frames.
- Exception texts: failures are values (`Error`).
- A failing constructor for an unknown actuator type: a motor is configured with a limits record directly.
- `make_set_can_id_frame`, `make_get_device_id_frame`, the fault bit accessors, the example programs and `tools/plot_tracking.py`: one-branch facts, demonstrations and plotting.
- Physical motor behaviour: the simulator does not simulate motion control, and neither does the model.
- Thread safety: the source requires calls to be serialised, and so does the model.

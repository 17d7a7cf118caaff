/** A raw CAN 2.0B data frame. */
module Can {
  import opened Bytes

  datatype CanFrame = CanFrame(id: u32, data: Payload, dlc: u8)

  const ID_SPACE := 0x2000_0000

  /** A frame every transport carries unchanged: a 29-bit identifier and the full data field. */
  predicate Full(frame: CanFrame) {
    frame.id < ID_SPACE && frame.dlc == 8
  }

  predicate AllFull(frames: seq<CanFrame>) {
    forall i :: 0 <= i < |frames| ==> Full(frames[i])
  }
}

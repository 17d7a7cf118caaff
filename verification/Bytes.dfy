/** Fixed-width unsigned integers and the byte layouts shared by every layer. */
module Bytes {
  type u8 = x: int | 0 <= x < 0x100
  type u16 = x: int | 0 <= x < 0x1_0000
  type u32 = x: int | 0 <= x < 0x1_0000_0000

  /** The four little-endian bytes of a float32 (or of a one-byte value padded with zeros). */
  type Word = w: seq<u8> | |w| == 4 witness [0, 0, 0, 0]

  /** The data field of a CAN frame: always eight bytes of storage. */
  type Payload = p: seq<u8> | |p| == 8 witness [0, 0, 0, 0, 0, 0, 0, 0]

  const ZERO_WORD: Word := [0, 0, 0, 0]
  const ZERO_PAYLOAD: Payload := [0, 0, 0, 0, 0, 0, 0, 0]

  datatype Option<+T> = None | Some(value: T)

  function HighByte(x: u16): u8 { x / 0x100 }

  function LowByte(x: u16): u8 { x % 0x100 }

  function Join(high: u8, low: u8): u16 { high * 0x100 + low }
}

/** Bytes and 32-bit words, shared by the wire format and the disk format. */
module Bytes {
  type Byte = b: int | 0 <= b < 256

  const TWO32 := 0x1_0000_0000
  type Word = w: int | 0 <= w < TWO32
}

/** Machine numbers: bytes, and the sizes of 32-bit and 64-bit words. */
module Bytes {
  const TWO32 := 0x1_0000_0000
  const TWO64 := 0x1_0000_0000_0000_0000

  type Byte = x: int | 0 <= x < 0x100
}

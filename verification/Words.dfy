/** Bytes, bits and the size of a 32-bit word. */
module Words {
  type Byte = b: int | 0 <= b < 256
  type Bit = b: int | 0 <= b < 2

  const WORD := 0x1_0000_0000
}

/** Bytes and 32-bit words. */
module Words {
  type Byte = b: nat | b < 256 witness 0

  type Bytes = seq<Byte>

  const WORD := 0x1_0000_0000

  type Word = n: nat | n < WORD
}

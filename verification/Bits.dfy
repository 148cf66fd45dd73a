/** Bytes and longs as the sequences of their bits, bit 0 first. */
module Bits {

  type Byte = s: seq<bool> | |s| == 8 witness seq(8, k => false)

  type Long = s: seq<bool> | |s| == 32 witness seq(32, k => false)

  const ZERO_BYTE: Byte := seq(8, k => false)

  const ZERO: Long := seq(32, k => false)
}

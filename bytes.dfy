/** Machine-level value types shared by the decoder, the capture buffer and the radio driver. */
module Bytes {

  /** An octet on the SPI bus or in an over-air frame (`uint8_t`). */
  type Byte = bv8

  /** Conventional optional value, for results the source reports as "absent". */
  datatype Option<T> = None | Some(value: T)

  /** Two's-complement reading of an octet, as the cast `(int8_t)b` does. */
  function SignedByte(b: Byte): (v: int)
    ensures -128 <= v < 128
    ensures v >= 0 <==> b < 0x80
    ensures (v + 256) % 256 == b as int
  {
    if b < 0x80 then b as int else b as int - 256
  }

  /** Integer division that truncates toward zero, as `/` on C integers does
      (Dafny's own `/` is Euclidean). */
  function TruncDiv(a: int, d: int): (q: int)
    requires d > 0
    ensures a >= 0 ==> q >= 0
    ensures a <= 0 ==> q <= 0
    ensures a >= 0 ==> 0 <= a - q * d < d
    ensures a <= 0 ==> 0 <= q * d - a < d
  {
    if a >= 0 then a / d else -((-a) / d)
  }

  /** High and low octets of a 16-bit value, as `(v >> 8) & 0xFF` and `v & 0xFF`. */
  function HighByte(v: bv16): Byte { ((v >> 8) & 0xFF) as Byte }
  function LowByte(v: bv16): Byte { (v & 0xFF) as Byte }

  /** A 16-bit value read high octet first, as `((uint16_t)hi << 8) | lo`. */
  function Word(hi: Byte, lo: Byte): (v: bv16)
    ensures HighByte(v) == hi && LowByte(v) == lo
  {
    ((hi as bv16) << 8) | (lo as bv16)
  }

  /** Splitting a 16-bit value into octets and joining them again gives it back. */
  lemma WordOfBytes(v: bv16)
    ensures Word(HighByte(v), LowByte(v)) == v
  {
  }
}

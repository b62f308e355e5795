/** Unsigned 8- and 16-bit quantities and the two-byte big-endian ("network
    order") form used for every integer of the TLS wire format. */
module Uint16 {

  /** One octet of a byte string. */
  type Byte = b: int | 0 <= b < 0x100

  /** An unsigned 16-bit integer, such as a named-group identifier. */
  type U16 = x: int | 0 <= x < 0x1_0000

  /** The two bytes of `x`, most significant first. */
  function ToBigEndian(x: U16): (r: seq<Byte>)
    ensures |r| == 2
    ensures r[0] as int * 0x100 + r[1] as int == x
  {
    [x / 0x100, x % 0x100]
  }

  /** The 16-bit value stored big-endian in `hi`, `lo`. */
  function FromBigEndian(hi: Byte, lo: Byte): (x: U16)
    ensures x / 0x100 == hi && x % 0x100 == lo
  {
    hi * 0x100 + lo
  }

  /** Reading back two written bytes gives the value that was written. */
  lemma ReadAfterWrite(x: U16)
    ensures FromBigEndian(ToBigEndian(x)[0], ToBigEndian(x)[1]) == x
  {
  }

  /** Writing a value that was read gives back the bytes that were read,
      so every pair of bytes is the encoding of exactly one value. */
  lemma WriteAfterRead(hi: Byte, lo: Byte)
    ensures ToBigEndian(FromBigEndian(hi, lo)) == [hi, lo]
  {
  }
}

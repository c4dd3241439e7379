/** The bit fixing of a version 4 UUID (section 4.4 of RFC 4122): the
    masks Go applies to a byte, and what they mean for the byte as a number. */
module Bits {
  import opened Base

  /** `(b & 0x0f) | 0x40`: the version field of section 4.1.3 of RFC 4122
      set to 4, the low nibble kept. */
  function SetVersion(b: bv8): (r: bv8)
    ensures r >> 4 == 4 && r & 0x0F == b & 0x0F
  {
    (b & 0x0F) | 0x40
  }

  /** `(b & 0x3f) | 0x80`: the variant field of section 4.1.1 of RFC 4122
      set to binary 10, the low six bits kept. */
  function SetVariant(b: bv8): (r: bv8)
    ensures r >> 6 == 2 && r & 0x3F == b & 0x3F
  {
    (b & 0x3F) | 0x80
  }

  /** The high and low nibble of a byte, as numbers. */
  lemma Nibbles(x: bv8)
    ensures (x as int) / 16 == (x >> 4) as int && (x as int) % 16 == (x & 0x0F) as int
  {
  }

  /** The top two and low six bits of a byte, as numbers. */
  lemma TopTwoBits(x: bv8)
    ensures (x as int) / 64 == (x >> 6) as int && (x as int) % 64 == (x & 0x3F) as int
  {
  }

  /** The version byte as a number: the low nibble kept, the high nibble 4. */
  function VersionByte(x: byte): (r: byte)
    ensures r / 16 == 4 && r % 16 == x % 16
  {
    x % 16 + 0x40
  }

  /** The variant byte as a number: the low six bits kept, the top two 10. */
  function VariantByte(x: byte): (r: byte)
    ensures r / 64 == 2 && r % 64 == x % 64
  {
    x % 64 + 0x80
  }

  /** Go's masks and the arithmetic agree on every bit pattern. */
  lemma VersionByteIsMask(v: bv8)
    ensures VersionByte(v as int) == SetVersion(v) as int
  {
    Nibbles(v);
    Nibbles(SetVersion(v));
  }

  /** Go's masks and the arithmetic agree on every bit pattern. */
  lemma VariantByteIsMask(v: bv8)
    ensures VariantByte(v as int) == SetVariant(v) as int
  {
    TopTwoBits(v);
    TopTwoBits(SetVariant(v));
  }
}

/** Floating-point values, kept abstract. A `float64` or `float32` is its
    IEEE 754 bit pattern; a `*big.Float` is either infinite or a finite
    binary fraction. Rounding arithmetic and text formatting belong to the
    Go runtime and `math/big`, and enter the model as the parameters
    collected in `FloatEnv`. */
module Floats {
  import opened Base

  /** An IEEE 754 binary64 value, as its bit pattern read as an unsigned
      integer: sign bit 63, exponent bits 62-52, fraction bits 51-0. */
  datatype Float64 = Float64(bits: uint64)

  /** An IEEE 754 binary32 value, as its bit pattern. */
  datatype Float32 = Float32(bits: uint32)

  /** A `*big.Float`: plus or minus infinity, or `mantissa * 2^exponent`. */
  datatype BigFloat = BigFinite(mantissa: int, exponent: int) | BigInf(negative: bool)

  const FractionBits: nat := 0x10_0000_0000_0000   // 2^52

  function Negative(f: Float64): bool
  {
    f.bits >= 0x8000_0000_0000_0000
  }

  /** The biased exponent field. */
  function Exponent(f: Float64): nat
  {
    (f.bits / FractionBits) % 2048
  }

  /** The fraction field. */
  function Fraction(f: Float64): nat
  {
    f.bits % FractionBits
  }

  /** `f == math.Inf(1) || f == math.Inf(-1)`: all exponent bits set, no fraction bits. */
  predicate IsInf(f: Float64)
  {
    Exponent(f) == 2047 && Fraction(f) == 0
  }

  /** A NaN: all exponent bits set and some fraction bit set. */
  predicate IsNaN(f: Float64)
  {
    Exponent(f) == 2047 && Fraction(f) != 0
  }

  /** Go's `f <= 0` on a float64: true for both zeros and every negative
      number, false for NaN. */
  function AtMostZero(f: Float64): (r: bool)
    ensures r <==> f.bits == 0 || f.bits == 0x8000_0000_0000_0000 || (Negative(f) && !IsNaN(f))
  {
    !IsNaN(f) && (f.bits % 0x8000_0000_0000_0000 == 0 || Negative(f))
  }

  /** `x.Cmp(0) <= 0` on a `*big.Float`: minus infinity, or a finite value
      `mantissa * 2^exponent` at most 0. Scaled by `2^-exponent` when the
      exponent is negative, the comparison is that of the numerator. */
  function BigAtMostZero(x: BigFloat): (r: bool)
    ensures x.BigInf? ==> (r <==> x.negative)
    ensures x.BigFinite? ==>
      (r <==> x.mantissa * Pow2(if x.exponent >= 0 then x.exponent else 0) <= 0)
  {
    match x
    case BigFinite(m, e) =>
      SignOfScaled(m, Pow2(if e >= 0 then e else 0));
      m <= 0
    case BigInf(negative) => negative
  }

  /** Scaling by a positive factor keeps the sign. */
  lemma SignOfScaled(m: int, p: nat)
    requires p >= 1
    ensures m * p <= 0 <==> m <= 0
  {
    if m > 0 {
      assert m * p == m * (p - 1) + m;
    }
  }

  /** `SetInt64(v)` at 256 bits of precision, and `SetFloat64(1)`: exact for
      every integer whose magnitude is below `2^256`, which includes every
      machine integer. Larger integers go through `FloatEnv.setInt`. */
  function BigOfInt(v: int): (x: BigFloat)
    ensures x.BigFinite? && x.mantissa == v && x.exponent == 0
  {
    BigFinite(v, 0)
  }

  /** The operations of the Go runtime and of `math/big` that the package
      calls on floating-point values, with the rounding they perform. */
  datatype FloatEnv = FloatEnv(
    fromInt: int -> Float64,            // float64(v) for an integer v
    widen: Float32 -> Float64,          // float64(v) for a float32 v
    fromBig: BigFloat -> Float64,       // (*big.Float).Float64(): rounds, overflows to an infinity
    toBig: Float64 -> BigFloat,         // SetPrec(256).SetFloat64(v), for v not NaN
    setInt: int -> BigFloat,            // SetPrec(256).SetInt(v): rounds once |v| >= 2^256
    sub: (Float64, Float64) -> Float64, // a - b
    mul: (Float64, Float64) -> Float64, // a * b
    bigMul: (BigFloat, BigFloat) -> BigFloat, // Mul at 256 bits of precision
    bigAdd: (BigFloat, BigFloat) -> BigFloat, // Add at 256 bits of precision
    formatF64: Float64 -> seq<byte>,    // fmt "%f" of a float64
    formatF32: Float32 -> seq<byte>,    // fmt "%f" of a float32
    formatBig: BigFloat -> seq<byte>    // Text('f', -1)
  )

  /** Negative zero is at most zero, and so is every negative number that
      is not a NaN, infinity included. */
  lemma AtMostZeroExamples()
    ensures forall f :: Negative(f) && !IsNaN(f) ==> AtMostZero(f)
    ensures AtMostZero(Float64(0))
    ensures AtMostZero(Float64(0x8000_0000_0000_0000))
    ensures AtMostZero(Float64(0xBFF0_0000_0000_0000))   // -1.0
    ensures !AtMostZero(Float64(0x3FF0_0000_0000_0000))  // 1.0
    ensures !AtMostZero(Float64(0x7FF8_0000_0000_0000))  // NaN
    ensures !AtMostZero(Float64(0x7FF0_0000_0000_0000))  // +Inf
  {
  }
}

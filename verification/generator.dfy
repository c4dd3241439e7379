/** `RandomGenerator`: the value every generator returns, holding one
    dynamically typed datum, with accessors that succeed or fail by the
    datum's dynamic type. The dynamic type becomes a closed variant `Data`,
    one constructor per type the accessors distinguish. */
module Generator {
  import opened Base
  import opened Floats
  import Text

  /** The dynamic type and value behind `RandomGenerator.Data`. */
  datatype Data =
    | NoData                    // nil: the zero RandomGenerator
    | StringData(s: seq<byte>)  // string
    | BytesData(b: seq<byte>)   // []byte
    | IntData(i: int64)         // int
    | Int32Data(i32: int32)     // int32
    | Int64Data(i64: int64)     // int64
    | BigIntData(n: int)        // *big.Int
    | Float32Data(f32: Float32) // float32
    | Float64Data(f64: Float64) // float64
    | BigFloatData(x: BigFloat) // *big.Float
    | OtherData                 // any other dynamic type

  datatype RandomGenerator = RandomGenerator(data: Data)

  /** The zero value `RandomGenerator{}` returned beside every error. */
  const Zero: RandomGenerator := RandomGenerator(NoData)

  /** The three fixed-width integer types. */
  predicate IsMachineInt(d: Data)
  {
    d.IntData? || d.Int32Data? || d.Int64Data?
  }

  /** The integer types, arbitrary precision included. */
  predicate IsInteger(d: Data)
  {
    IsMachineInt(d) || d.BigIntData?
  }

  /** The number an integer datum holds. */
  function IntegerValue(d: Data): int
    requires IsInteger(d)
  {
    match d
    case IntData(i) => i
    case Int32Data(i) => i
    case Int64Data(i) => i
    case BigIntData(n) => n
  }

  /** `String()`: strings as they are, byte slices as the same bytes,
      integers in decimal, floats through the runtime's formatting; nil and
      unknown types fail. */
  function String(g: RandomGenerator, env: FloatEnv): (r: Result<seq<byte>>)
    ensures r.Success? <==> !(g.data.NoData? || g.data.OtherData?)
    ensures r.Failure? ==> r.error == NotConvertible
    ensures g.data.StringData? ==> r == Success(g.data.s)
    ensures g.data.BytesData? ==> r == Success(g.data.b)
    ensures IsInteger(g.data) ==> Text.ParseDecimal(r.value) == Some(IntegerValue(g.data))
  {
    match g.data
    case StringData(s) => Success(s)
    case BytesData(b) => Success(b)
    case IntData(i) => Text.DecimalRoundTrip(i); Success(Text.Decimal(i))
    case Int32Data(i) => Text.DecimalRoundTrip(i); Success(Text.Decimal(i))
    case Int64Data(i) => Text.DecimalRoundTrip(i); Success(Text.Decimal(i))
    case BigIntData(n) => Text.DecimalRoundTrip(n); Success(Text.Decimal(n))
    case Float32Data(f) => Success(env.formatF32(f))
    case Float64Data(f) => Success(env.formatF64(f))
    case BigFloatData(x) => Success(env.formatBig(x))
    case _ => Failure(NotConvertible)
  }

  /** `Int()`: the three machine integers always, a big integer only when
      it fits in 64 bits; the value is preserved. */
  function Int(g: RandomGenerator): (r: Result<int64>)
    ensures r.Success? <==>
      IsMachineInt(g.data) || (g.data.BigIntData? && MinInt64 <= g.data.n <= MaxInt64)
    ensures r.Success? ==> r.value == IntegerValue(g.data)
    ensures r.Failure? ==> r.error == (if g.data.BigIntData? then Overflow else NotConvertible)
  {
    match g.data
    case IntData(i) => Success(i)
    case Int32Data(i) => Success(i)
    case Int64Data(i) => Success(i)
    case BigIntData(n) =>
      if MinInt64 <= n <= MaxInt64 then Success(n) else Failure(Overflow)
    case _ => Failure(NotConvertible)
  }

  /** `BigInt()`: exactly the four integer types, value preserved. */
  function BigInt(g: RandomGenerator): (r: Result<int>)
    ensures r.Success? <==> IsInteger(g.data)
    ensures r.Success? ==> r.value == IntegerValue(g.data)
    ensures r.Failure? ==> r.error == NotConvertible
  {
    match g.data
    case IntData(i) => Success(i)
    case Int32Data(i) => Success(i)
    case Int64Data(i) => Success(i)
    case BigIntData(n) => Success(n)
    case _ => Failure(NotConvertible)
  }

  /** `Float()`: machine integers and floats convert; a big float converts
      unless it rounds to an infinity; big integers, text, bytes and nil
      do not. */
  function Float(g: RandomGenerator, env: FloatEnv): (r: Result<Float64>)
    ensures r.Success? <==>
      IsMachineInt(g.data) || g.data.Float32Data? || g.data.Float64Data? ||
      (g.data.BigFloatData? && !IsInf(env.fromBig(g.data.x)))
    ensures g.data.Float64Data? ==> r == Success(g.data.f64)
    ensures IsMachineInt(g.data) ==> r == Success(env.fromInt(IntegerValue(g.data)))
    ensures g.data.Float32Data? ==> r == Success(env.widen(g.data.f32))
    ensures r.Failure? ==> r.error == (if g.data.BigFloatData? then OutOfRange else NotConvertible)
  {
    match g.data
    case IntData(i) => Success(env.fromInt(i))
    case Int32Data(i) => Success(env.fromInt(i))
    case Int64Data(i) => Success(env.fromInt(i))
    case Float32Data(f) => Success(env.widen(f))
    case Float64Data(f) => Success(f)
    case BigFloatData(x) =>
      var f := env.fromBig(x);
      if !IsInf(f) then Success(f) else Failure(OutOfRange)
    case _ => Failure(NotConvertible)
  }

  /** `BigFloat()`: machine integers convert exactly, floats through
      `SetFloat64` (which panics on NaN), a big float as it is; big
      integers, text, bytes and nil do not convert. */
  function BigFloat(g: RandomGenerator, env: FloatEnv): (r: Result<Floats.BigFloat>)
    ensures r.Success? <==>
      IsMachineInt(g.data) || g.data.BigFloatData? ||
      (g.data.Float32Data? && !IsNaN(env.widen(g.data.f32))) ||
      (g.data.Float64Data? && !IsNaN(g.data.f64))
    ensures g.data.BigFloatData? ==> r == Success(g.data.x)
    ensures IsMachineInt(g.data) ==>
      r.Success? && r.value.BigFinite? && r.value.exponent == 0 &&
      r.value.mantissa == IntegerValue(g.data)
    ensures r.Failure? ==>
      r.error == (if g.data.Float32Data? || g.data.Float64Data? then NaNOperand else NotConvertible)
  {
    match g.data
    case IntData(i) => Success(BigOfInt(i))
    case Int32Data(i) => Success(BigOfInt(i))
    case Int64Data(i) => Success(BigOfInt(i))
    case Float32Data(f) =>
      var w := env.widen(f);
      if IsNaN(w) then Failure(NaNOperand) else Success(env.toBig(w))
    case Float64Data(f) =>
      if IsNaN(f) then Failure(NaNOperand) else Success(env.toBig(f))
    case BigFloatData(x) => Success(x)
    case _ => Failure(NotConvertible)
  }

  /** `Bytes()`: exactly a byte slice, returned as it is. */
  function Bytes(g: RandomGenerator): (r: Result<seq<byte>>)
    ensures r.Success? <==> g.data.BytesData?
    ensures r.Success? ==> r.value == g.data.b
    ensures r.Failure? ==> r.error == NotConvertible
  {
    match g.data
    case BytesData(b) => Success(b)
    case _ => Failure(NotConvertible)
  }

  /** Where `Int()` succeeds, `BigInt()` succeeds with the same number. */
  lemma IntAgreesWithBigInt(g: RandomGenerator)
    ensures Int(g).Success? ==> BigInt(g) == Success(Int(g).value as int)
    ensures BigInt(g).Success? && MinInt64 <= BigInt(g).value <= MaxInt64 ==>
      Int(g) == Success(BigInt(g).value)
  {
  }

  /** A byte slice reads the same through `String()` and `Bytes()`, and a
      string holding the bytes reads the same through `String()`. */
  lemma StringOfBytes(b: seq<byte>, env: FloatEnv)
    ensures String(RandomGenerator(BytesData(b)), env) == Bytes(RandomGenerator(BytesData(b)))
    ensures String(RandomGenerator(StringData(b)), env) == String(RandomGenerator(BytesData(b)), env)
  {
  }

  /** Integer data renders as decimal text that names the same integer as
      `BigInt()` returns. */
  lemma StringOfInteger(g: RandomGenerator, env: FloatEnv)
    requires IsInteger(g.data)
    ensures String(g, env).Success? && BigInt(g).Success?
    ensures Text.ParseDecimal(String(g, env).value) == Some(BigInt(g).value)
  {
  }

  /** Every accessor fails on the zero value. */
  lemma ZeroConvertsToNothing(env: FloatEnv)
    ensures String(Zero, env).Failure? && Int(Zero).Failure? && BigInt(Zero).Failure?
    ensures Float(Zero, env).Failure? && BigFloat(Zero, env).Failure? && Bytes(Zero).Failure?
  {
  }
}

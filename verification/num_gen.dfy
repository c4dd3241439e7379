/** The number generators: integers below a bound, integers with a given
    number of decimal digits, and floating-point values below a bound.
    `crypto/rand.Int` is the oracle `draw`, reading from the reader; float
    arithmetic is the environment `env`. */
module NumGen {
  import opened Base
  import opened Floats
  import opened BufferReader
  import opened Generator
  import Text
  import Variable

  /** `NewInt`: reject a non-positive maximum, then draw in `[0, maximum)`
      and store it as a Go `int`. */
  function NewInt(g: Rng, maximum: int64, draw: ReaderIntOracle): (s: Step<RandomGenerator, Rng>)
    ensures maximum <= 0 ==> s == Step(Failure(InvalidMaximum), g)
    ensures maximum > 0 ==> s.state == draw(g, maximum).state
    ensures maximum > 0 ==> (s.result.Success? <==> draw(g, maximum).result.Success?)
    ensures s.result.Success? ==>
      s.result.value.data.IntData? && 0 <= s.result.value.data.i < maximum &&
      s.result.value.data.i == draw(g, maximum).result.value
  {
    if maximum <= 0 then Step(Failure(InvalidMaximum), g)
    else
      var d := draw(g, maximum);
      match d.result
      case Failure(e) => Step(Failure(e), d.state)
      case Success(v) => Step(Success(RandomGenerator(IntData(v))), d.state)
  }

  /** `NewBigInt`: reject a non-positive maximum, then draw in
      `[0, maximum)` and store it as a `*big.Int`. */
  function NewBigInt(g: Rng, maximum: int, draw: ReaderIntOracle): (s: Step<RandomGenerator, Rng>)
    ensures maximum <= 0 ==> s == Step(Failure(InvalidMaximum), g)
    ensures maximum > 0 ==> s.state == draw(g, maximum).state
    ensures maximum > 0 ==> (s.result.Success? <==> draw(g, maximum).result.Success?)
    ensures s.result.Success? ==>
      s.result.value.data.BigIntData? && 0 <= s.result.value.data.n < maximum &&
      s.result.value.data.n == draw(g, maximum).result.value
  {
    if maximum <= 0 then Step(Failure(InvalidMaximum), g)
    else
      var d := draw(g, maximum);
      match d.result
      case Failure(e) => Step(Failure(e), d.state)
      case Success(v) => Step(Success(RandomGenerator(BigIntData(v))), d.state)
  }

  /** The bound `NewBigIntLength` draws below: `10^length - 10^(length-1)`,
      which is nine times `10^(length-1)` and so always positive. */
  function DigitRange(length: nat): (r: nat)
    requires length >= 1
    ensures r == 9 * Pow10(length - 1) && r > 0
  {
    Pow10(length) - Pow10(length - 1)
  }

  /** `NewBigIntLength`: reject a non-positive length, then draw an offset
      below `10^length - 10^(length-1)` and add `10^(length-1)`. */
  function NewBigIntLength(g: Rng, length: int64, draw: ReaderIntOracle): (s: Step<RandomGenerator, Rng>)
    ensures length <= 0 ==> s == Step(Failure(InvalidLength), g)
    ensures length > 0 ==> s.state == draw(g, DigitRange(length)).state
    ensures length > 0 ==> (s.result.Success? <==> draw(g, DigitRange(length)).result.Success?)
    ensures s.result.Success? ==>
      s.result.value.data.BigIntData? &&
      Pow10(length - 1) <= s.result.value.data.n < Pow10(length) &&
      s.result.value.data.n == draw(g, DigitRange(length)).result.value + Pow10(length - 1)
  {
    if length <= 0 then Step(Failure(InvalidLength), g)
    else
      var min := Pow10(length - 1);
      var d := draw(g, DigitRange(length));
      match d.result
      case Failure(e) => Step(Failure(e), d.state)
      case Success(v) => Step(Success(RandomGenerator(BigIntData(v + min))), d.state)
  }

  /** What `NewBigIntLength` returns has exactly `length` decimal digits,
      and renders through `String()` as that many digits. */
  lemma NewBigIntLengthDigits(g: Rng, length: int64, draw: ReaderIntOracle, env: FloatEnv)
    requires NewBigIntLength(g, length, draw).result.Success?
    ensures var n := NewBigIntLength(g, length, draw).result.value.data.n;
      && n >= 1
      && |Text.Digits(n)| == length
      && String(NewBigIntLength(g, length, draw).result.value, env) == Success(Text.Digits(n))
  {
    var n := NewBigIntLength(g, length, draw).result.value.data.n;
    Text.DigitCount(n, length);
  }

  // ---------------------------------------------------------------------
  // Floating point

  /** `binary.BigEndian`: the unsigned number whose base-256 digits, most
      significant first, are `bs`. */
  function BigEndian(bs: seq<byte>): (v: nat)
    ensures |bs| == 8 ==> v < 0x1_0000_0000_0000_0000
  {
    if bs == [] then 0 else BigEndianPrefix(bs, |bs|)
  }

  function Pow256(n: nat): (p: nat)
    ensures p >= 1
  {
    if n == 0 then 1 else 256 * Pow256(n - 1)
  }

  /** The number the first `k` bytes of `bs` denote, below `256^k`. */
  function BigEndianPrefix(bs: seq<byte>, k: nat): (v: nat)
    requires k <= |bs|
    ensures v < Pow256(k)
  {
    if k == 0 then 0 else 256 * BigEndianPrefix(bs, k - 1) + bs[k - 1]
  }

  /** The bit pattern of 1.0. */
  const OneBits: uint64 := 0x3FF0_0000_0000_0000

  /** `math.Float64frombits(0x3FF0000000000000 | (u >> 12))`. The shifted
      value is below `2^52` and the constant has no bit there, so the OR is
      a sum: a positive number with the exponent of 1.0 and the top 52 bits
      of `u` as its fraction, i.e. a value in `[1, 2)`. */
  function UnitIntervalBits(u: uint64): (f: Float64)
    ensures !Negative(f) && Exponent(f) == 1023 && Fraction(f) == u / 4096
    ensures !IsInf(f) && !IsNaN(f) && !AtMostZero(f)
  {
    Float64(OneBits + u / 4096)
  }

  /** `NewFloat`: reject a maximum that is at most zero (a NaN passes);
      read eight bytes; form a value in `[1, 2)` from their top 52 bits,
      subtract 1.0 and multiply by the maximum. */
  method NewFloat(g: Rng, maximum: Float64, env: FloatEnv)
    returns (res: Result<RandomGenerator>, g': Rng)
    requires Valid(g.reader)
    ensures Valid(g'.reader) && |g'.reader.buffer| == |g.reader.buffer|
    ensures AtMostZero(maximum) ==> res == Failure(InvalidMaximum) && g' == g
    ensures !AtMostZero(maximum) ==> (res.Success? <==> 8 <= |Deliverable(g)|)
    ensures res.Success? ==>
      var unit := UnitIntervalBits(BigEndian(Deliverable(g)[..8]));
      && res.value.data == Float64Data(env.mul(env.sub(unit, Float64(OneBits)), maximum))
      && Deliverable(g') == Deliverable(g)[8..]
    ensures !AtMostZero(maximum) && res.Failure? ==>
      res.error == EntropyUnavailable && Deliverable(g') == []
  {
    if AtMostZero(maximum) {
      return Failure(InvalidMaximum), g;
    }
    var count, buf, err, after := Read(g, seq(8, i => 0));
    g' := after;
    if err.Some? {
      return Failure(err.value), g';
    }
    assert buf == Deliverable(g)[..8];
    var u := BigEndian(buf);
    var f01 := env.sub(UnitIntervalBits(u), Float64(OneBits));
    return Success(RandomGenerator(Float64Data(env.mul(f01, maximum)))), g';
  }

  /** `2^(8 * k)` is `256^k`: `k` whole bytes. */
  lemma {:induction false} Pow2Pow256(k: nat)
    ensures Pow2(8 * k) == Pow256(k)
  {
    if k > 0 {
      Pow2Pow256(k - 1);
      var j := 8 * (k - 1);
      assert Pow2(j + 8) == 2 * Pow2(j + 7) == 4 * Pow2(j + 6) == 8 * Pow2(j + 5)
        == 16 * Pow2(j + 4) == 32 * Pow2(j + 3) == 64 * Pow2(j + 2) == 128 * Pow2(j + 1)
        == 256 * Pow2(j);
      assert 8 * k == j + 8;
    }
  }

  /** `2^precision`: the bound of the integer behind a big-float draw, which
      is exactly the range of a 32-byte big-endian number. */
  function MaxRatioInt(): (m: nat)
    ensures m == Pow256(32)
  {
    Pow2Pow256(32);
    Pow2(Variable.Precision)
  }

  /** `NewBigFloat`: reject a maximum that is at most zero; draw an integer
      `r` below `2^256`; the ratio `r / 2^256`, exact at 256 bits, scaled by
      the maximum. */
  function NewBigFloat(g: Rng, max: BigFloat, draw: ReaderIntOracle, env: FloatEnv)
    : (s: Step<RandomGenerator, Rng>)
    ensures BigAtMostZero(max) ==> s == Step(Failure(InvalidMaximum), g)
    ensures !BigAtMostZero(max) ==> s.state == draw(g, MaxRatioInt()).state
    ensures !BigAtMostZero(max) ==>
      (s.result.Success? <==> draw(g, MaxRatioInt()).result.Success?)
    ensures s.result.Success? ==>
      var r := draw(g, MaxRatioInt()).result.value;
      && 0 <= r < Pow2(Variable.Precision)
      && s.result.value.data == BigFloatData(env.bigMul(BigFinite(r, -(Variable.Precision as int)), max))
  {
    if BigAtMostZero(max) then Step(Failure(InvalidMaximum), g)
    else
      var d := draw(g, MaxRatioInt());
      match d.result
      case Failure(e) => Step(Failure(e), d.state)
      case Success(r) =>
        var ratio := BigFinite(r, -(Variable.Precision as int));
        Step(Success(RandomGenerator(BigFloatData(env.bigMul(ratio, max)))), d.state)
  }

  /** `NewBigFloatLength`: reject a non-positive length; draw an integer
      with `length` digits, then a fraction in `[0, 1)`; read both back
      through the accessors, convert the integer part at 256 bits (which
      rounds it once it reaches `2^256`) and add them at 256 bits. */
  function NewBigFloatLength(g: Rng, length: int64, draw: ReaderIntOracle, env: FloatEnv)
    : (s: Step<RandomGenerator, Rng>)
    ensures length <= 0 ==> s == Step(Failure(InvalidLength), g)
    ensures s.result.Success? ==>
      var i := NewBigIntLength(g, length, draw);
      var f := NewBigFloat(i.state, BigOfInt(1), draw, env);
      && i.result.Success? && f.result.Success?
      && Pow10(length - 1) <= i.result.value.data.n < Pow10(length)
      && s.result.value.data ==
           BigFloatData(env.bigAdd(env.setInt(i.result.value.data.n), f.result.value.data.x))
      && s.state == f.state
  {
    if length <= 0 then Step(Failure(InvalidLength), g)
    else
      var i := NewBigIntLength(g, length, draw);
      if i.result.Failure? then Step(Failure(i.result.error), i.state)
      else
        var f := NewBigFloat(i.state, BigOfInt(1), draw, env);
        if f.result.Failure? then Step(Failure(f.result.error), f.state)
        else
          match (BigInt(i.result.value), Generator.BigFloat(f.result.value, env))
          case (Success(intPart), Success(decPart)) =>
            Step(Success(RandomGenerator(BigFloatData(env.bigAdd(env.setInt(intPart), decPart)))), f.state)
          case _ => Step(Failure(NotConvertible), f.state)
  }

  /** The accessors `NewBigFloatLength` calls on its two parts cannot fail:
      the integer part is a big integer and the fraction a big float. */
  lemma NewBigFloatLengthParts(g: Rng, length: int64, draw: ReaderIntOracle, env: FloatEnv)
    requires length > 0
    ensures var i := NewBigIntLength(g, length, draw);
      i.result.Success? ==>
        var f := NewBigFloat(i.state, BigOfInt(1), draw, env);
        && BigInt(i.result.value).Success?
        && (f.result.Success? ==> Generator.BigFloat(f.result.value, env).Success?)
        && (f.result.Success? <==> NewBigFloatLength(g, length, draw, env).result.Success?)
  {
  }
}

/** Shared vocabulary: Go's fixed-width integers, the error kinds the package
    reports, and the result and oracle shapes every component uses. */
module Base {

  /** A Go `byte`. */
  type byte = b: int | 0 <= b < 256

  const MaxInt64: int := 0x7FFF_FFFF_FFFF_FFFF
  const MinInt64: int := -0x8000_0000_0000_0000

  /** A Go `int64` (and `int`, which is 64 bits wide on the platforms modelled). */
  type int64 = x: int | MinInt64 <= x <= MaxInt64

  /** A Go `uint64`. */
  type uint64 = x: int | 0 <= x < 0x1_0000_0000_0000_0000

  /** A Go `uint32`. */
  type uint32 = x: int | 0 <= x < 0x1_0000_0000

  /** A Go `int32`. */
  type int32 = x: int | -0x8000_0000 <= x <= 0x7FFF_FFFF

  /** The failures the package reports. Each validation error stands for one
      family of `errors.New` / `fmt.Errorf` messages in the source;
      `DivideByZero` stands for Go's run-time panic on an integer division by 0. */
  datatype Error =
    | InvalidSize          // "size must be greater than 0"
    | InvalidLength        // "length ... must be greater than 0", "invalid byte slice length"
    | InvalidRange         // "invalid range", "invalid range: min >= max"
    | InvalidMaximum       // "maximum number must be greater than 0", "invalid max"
    | EmptySet             // "given set must not be empty", "charset is empty"
    | EntropyUnavailable   // the entropy source failed
    | DivideByZero         // run-time panic: integer divide by zero
    | NotConvertible       // "data cannot be converted to ...", "Data is not a string", "data is not bytes"
    | Overflow             // "value is too large to fit in int"
    | OutOfRange           // "value is too large or too small to fit in float64"
    | NaNOperand           // run-time panic: math/big's ErrNaN, from SetFloat64(NaN)

  datatype Option<+T> = None | Some(value: T)

  /** A Go `(value, error)` pair where a non-nil error comes with the zero value. */
  datatype Result<+T> = Success(value: T) | Failure(error: Error) {
    predicate IsFailure() { Failure? }

    function PropagateFailure<U>(): Result<U>
      requires Failure?
    {
      Failure(error)
    }

    function Extract(): T
      requires Success?
    {
      value
    }
  }

  /** The outcome of one operation together with the state it leaves behind. */
  datatype Step<+T, S> = Step(result: Result<T>, state: S)

  /** `crypto/rand.Int(rand, bound)`, whose rejection sampler lives in Go's
      standard library: all the package relies on is that, for a positive
      bound, every value it returns lies in `[0, bound)`. `S` is whatever
      state the draw consumes entropy from. */
  type IntOracle<!S(!new)> = draw: (S, int) -> Step<int, S>
    | forall s: S, bound: int :: 0 < bound && draw(s, bound).result.Success? ==>
        0 <= draw(s, bound).result.value < bound
    witness (s: S, bound: int) => Step(Failure(EntropyUnavailable), s)

  function Min(a: int, b: int): int
  {
    if a < b then a else b
  }

  /** Ten to the power `k`, as `math/big`'s `Exp(10, k, nil)` computes it. */
  function Pow10(k: nat): (p: nat)
    ensures p >= 1
  {
    if k == 0 then 1 else 10 * Pow10(k - 1)
  }

  /** Two to the power `k`. */
  function Pow2(k: nat): (p: nat)
    ensures p >= 1
  {
    if k == 0 then 1 else 2 * Pow2(k - 1)
  }

  /** Go's two's-complement wrap-around of an `int` result. */
  function Wrap64(x: int): (w: int64)
    ensures MinInt64 <= x <= MaxInt64 ==> w == x
    ensures (w - x) % 0x1_0000_0000_0000_0000 == 0
  {
    (x - MinInt64) % 0x1_0000_0000_0000_0000 + MinInt64
  }
}

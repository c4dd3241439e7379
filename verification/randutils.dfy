/** The package-level helpers that bypass the buffered reader and draw
    straight from the operating system's generator: integers in a range,
    sequences and strings over the `models` tables, raw bytes, hexadecimal
    text and version 4 UUIDs. `crypto/rand.Int` over that generator is the
    oracle `draw`. */
module RandUtils {
  import opened Base
  import opened BufferReader
  import Text
  import Models
  import Bits

  // ---------------------------------------------------------------------
  // Integers

  /** `Int`: reject a non-positive maximum, otherwise draw in `[0, max)`. */
  function Int(src: Source, max: int64, draw: IntOracle<Source>): (s: Step<int64, Source>)
    ensures max <= 0 ==> s == Step(Failure(InvalidMaximum), src)
    ensures max > 0 ==> s.state == draw(src, max).state
    ensures max > 0 ==> (s.result.Success? <==> draw(src, max).result.Success?)
    ensures s.result.Success? ==>
      0 <= s.result.value < max && s.result.value == draw(src, max).result.value
  {
    if max <= 0 then Step(Failure(InvalidMaximum), src)
    else
      var d := draw(src, max);
      match d.result
      case Failure(e) => Step(Failure(e), d.state)
      case Success(v) => Step(Success(v), d.state)
  }

  /** `IntRange` as written: reject `min >= max`, then `Int(max - min) + min`
      with both operations in 64-bit `int`. When the range is wider than
      `MaxInt64` the subtraction wraps to a negative number and `Int`
      rejects it, although the range is valid. */
  function IntRange(src: Source, min: int64, max: int64, draw: IntOracle<Source>): (s: Step<int64, Source>)
    ensures min >= max ==> s == Step(Failure(InvalidRange), src)
    ensures min < max && max - min <= MaxInt64 ==>
      s.state == draw(src, max - min).state &&
      (s.result.Success? <==> draw(src, max - min).result.Success?)
    ensures s.result.Success? ==>
      && min < max && max - min <= MaxInt64 && draw(src, max - min).result.Success?
      && min <= s.result.value < max && s.result.value == draw(src, max - min).result.value + min
    ensures min < max && max - min > MaxInt64 ==> s == Step(Failure(InvalidMaximum), src)
  {
    if min >= max then Step(Failure(InvalidRange), src)
    else
      var n := Wrap64(max - min);
      var r := Int(src, n, draw);
      match r.result
      case Failure(e) => Step(Failure(e), r.state)
      case Success(v) => Step(Success(Wrap64(v + min)), r.state)
  }

  /** `IntRange` with the width of the range computed without wrap-around:
      every valid range draws below its exact width. */
  function IntRangeWide(src: Source, min: int64, max: int64, draw: IntOracle<Source>): (s: Step<int64, Source>)
    ensures min >= max ==> s == Step(Failure(InvalidRange), src)
    ensures min < max ==>
      s.state == draw(src, max - min).state &&
      (s.result.Success? <==> draw(src, max - min).result.Success?)
    ensures s.result.Success? ==>
      min <= s.result.value < max && s.result.value == draw(src, max - min).result.value + min
  {
    if min >= max then Step(Failure(InvalidRange), src)
    else
      var d := draw(src, max - min);
      match d.result
      case Failure(e) => Step(Failure(e), d.state)
      case Success(v) => Step(Success(v + min), d.state)
  }

  /** Where the width fits in an `int`, the code as written and the
      corrected one coincide. */
  lemma IntRangeAgrees(src: Source, min: int64, max: int64, draw: IntOracle<Source>)
    requires max - min <= MaxInt64
    ensures IntRange(src, min, max, draw) == IntRangeWide(src, min, max, draw)
  {
  }

  /** The range `[-1, MaxInt64)` is valid, yet the code as written rejects
      it outright; the corrected version draws from it. */
  lemma IntRangeOverflows(src: Source, draw: IntOracle<Source>)
    ensures -1 < MaxInt64
    ensures IntRange(src, -1, MaxInt64, draw) == Step(Failure(InvalidMaximum), src)
    ensures IntRangeWide(src, -1, MaxInt64, draw).result.Success? <==>
      draw(src, MaxInt64 + 1).result.Success?
  {
  }

  // ---------------------------------------------------------------------
  // Sequences and strings over the tables

  /** What `Random`'s loop has produced after `k` rounds: `k` table entries,
      each picked by `IntRange(0, len(charset))`, or the first failure. */
  function RandomDraws(src: Source, k: nat, charset: seq<int>, draw: IntOracle<Source>)
    : (s: Step<seq<int>, Source>)
    requires 0 < |charset| <= MaxInt64
    ensures s.result.Success? ==> |s.result.value| == k
    ensures s.result.Success? ==> forall i :: 0 <= i < k ==> s.result.value[i] in charset
    decreases k
  {
    if k == 0 then Step(Success([]), src)
    else
      var prev := RandomDraws(src, k - 1, charset, draw);
      match prev.result
      case Failure(e) => prev
      case Success(picked) =>
        var idx := IntRange(prev.state, 0, |charset|, draw);
        match idx.result
        case Failure(e) => Step(Failure(e), idx.state)
        case Success(i) => Step(Success(picked + [charset[i]]), idx.state)
  }

  /** Once a round fails, the later rounds never run. */
  lemma {:induction false} RandomDrawsFailurePersists(src: Source, k: nat, m: nat, charset: seq<int>, draw: IntOracle<Source>)
    requires 0 < |charset| <= MaxInt64
    requires k <= m
    requires RandomDraws(src, k, charset, draw).result.Failure?
    ensures RandomDraws(src, m, charset, draw) == RandomDraws(src, k, charset, draw)
    decreases m
  {
    if k < m {
      RandomDrawsFailurePersists(src, k, m - 1, charset, draw);
    }
  }

  /** `Random`: reject a non-positive length, then an empty table, then
      pick `length` entries one by one. */
  method Random(src: Source, length: int64, charset: seq<int>, draw: IntOracle<Source>)
    returns (res: Result<seq<int>>, src': Source)
    requires |charset| <= MaxInt64
    ensures length <= 0 ==> res == Failure(InvalidLength) && src' == src
    ensures length > 0 && |charset| == 0 ==> res == Failure(EmptySet) && src' == src
    ensures length > 0 && |charset| > 0 ==> Step(res, src') == RandomDraws(src, length, charset, draw)
    ensures res.Success? ==> |res.value| == length && forall i :: 0 <= i < length ==> res.value[i] in charset
  {
    if length <= 0 {
      return Failure(InvalidLength), src;
    }
    if |charset| == 0 {
      return Failure(EmptySet), src;
    }
    var b: seq<int> := [];
    src' := src;
    for k := 0 to length
      invariant RandomDraws(src, k, charset, draw) == Step(Success(b), src')
    {
      var idx := IntRange(src', 0, |charset|, draw);
      src' := idx.state;
      if idx.result.Failure? {
        RandomDrawsFailurePersists(src, k + 1, length, charset, draw);
        return Failure(idx.result.error), src';
      }
      b := b + [charset[idx.result.value]];
    }
    res := Success(b);
  }

  /** `toASCII`: each code truncated to its low eight bits, as Go's
      `byte(v)` conversion does; codes already in `[0, 256)` pass unchanged. */
  method ToASCII(ints: seq<int>) returns (b: seq<byte>)
    ensures |b| == |ints|
    ensures forall i :: 0 <= i < |ints| ==> b[i] == ints[i] % 256
    ensures (forall i :: 0 <= i < |ints| ==> 0 <= ints[i] < 256) ==> b == ints
  {
    var out := seq(|ints|, _ => 0);
    for i := 0 to |ints|
      invariant |out| == |ints|
      invariant forall j :: 0 <= j < i ==> out[j] == ints[j] % 256
    {
      out := out[i := ints[i] % 256];
    }
    b := out;
  }

  /** An ASCII digit or letter. */
  predicate IsAlphanumeric(c: int)
  {
    48 <= c <= 57 || 65 <= c <= 90 || 97 <= c <= 122
  }

  /** `Strings`: `length` digits and letters picked from `models.Charset`. */
  method Strings(src: Source, length: int64, draw: IntOracle<Source>)
    returns (res: Result<seq<byte>>, src': Source)
    ensures length <= 0 ==> res == Failure(InvalidLength) && src' == src
    ensures length > 0 ==>
      var r := RandomDraws(src, length, Models.Charset, draw);
      && src' == r.state
      && (res.Success? <==> r.result.Success?)
      && (res.Success? ==> res.value == r.result.value)
      && (res.Failure? ==> res.error == r.result.error)
    ensures res.Success? ==>
      |res.value| == length && forall i :: 0 <= i < length ==> IsAlphanumeric(res.value[i])
  {
    if length <= 0 {
      return Failure(InvalidLength), src;
    }
    Models.TableSizes();
    Models.CharsetContents();
    var r;
    r, src' := Random(src, length, Models.Charset, draw);
    if r.Failure? {
      return Failure(r.error), src';
    }
    var s := ToASCII(r.value);
    res := Success(s);
  }

  /** A code of `models.Allset`: printable ASCII from '!' to 'z' except the
      six between 'Z' and 'a'. */
  predicate IsAllsetCode(c: int)
  {
    33 <= c <= 122 && !(91 <= c <= 96)
  }

  /** `AllChars`: `length` characters picked from `models.Allset`. */
  method AllChars(src: Source, length: int64, draw: IntOracle<Source>)
    returns (res: Result<seq<byte>>, src': Source)
    ensures length <= 0 ==> res == Failure(InvalidLength) && src' == src
    ensures length > 0 ==>
      var r := RandomDraws(src, length, Models.Allset, draw);
      && src' == r.state
      && (res.Success? <==> r.result.Success?)
      && (res.Success? ==> res.value == r.result.value)
      && (res.Failure? ==> res.error == r.result.error)
    ensures res.Success? ==>
      |res.value| == length && forall i :: 0 <= i < length ==> IsAllsetCode(res.value[i])
  {
    if length <= 0 {
      return Failure(InvalidLength), src;
    }
    Models.TableSizes();
    Models.AllsetContents();
    var r;
    r, src' := Random(src, length, Models.Allset, draw);
    if r.Failure? {
      return Failure(r.error), src';
    }
    var s := ToASCII(r.value);
    res := Success(s);
  }

  // ---------------------------------------------------------------------
  // Bytes and hexadecimal text

  /** `Byte`: reject a non-positive length, otherwise the next `length`
      bytes of the generator. */
  function Byte(src: Source, length: int64): (s: Step<seq<byte>, Source>)
    ensures length <= 0 ==> s == Step(Failure(InvalidLength), src)
    ensures length > 0 ==> (s.result.Success? <==> length <= |src.pending|)
    ensures s.result.Success? ==>
      s.result.value == src.pending[..length] && s.state.pending == src.pending[length..]
    ensures length > 0 && s.result.Failure? ==> s == Step(Failure(EntropyUnavailable), src)
  {
    if length <= 0 then Step(Failure(InvalidLength), src)
    else SourceReadFull(src, length)
  }

  /** `Hex`: `length` random bytes as `2 * length` lower-case hexadecimal
      digits, which decode back to those bytes. */
  function Hex(src: Source, length: int64): (s: Step<seq<byte>, Source>)
    ensures s.result.Success? <==> Byte(src, length).result.Success?
    ensures s.state == Byte(src, length).state
    ensures s.result.Failure? ==> s.result.error == Byte(src, length).result.error
    ensures s.result.Success? ==>
      |s.result.value| == 2 * length &&
      Text.HexDecode(s.result.value) == Some(src.pending[..length])
  {
    var b := Byte(src, length);
    match b.result
    case Failure(e) => Step(Failure(e), b.state)
    case Success(bytes) =>
      Text.HexRoundTrip(bytes);
      Step(Success(Text.HexEncode(bytes)), b.state)
  }

  // ---------------------------------------------------------------------
  // Version 4 UUIDs (RFC 4122)

  /** The sixteen random bytes with version and variant fixed
      (section 4.4 of RFC 4122). */
  function FixBits(b: seq<byte>): (r: seq<byte>)
    requires |b| == 16
    ensures |r| == 16
    ensures r[6] / 16 == 4 && r[6] % 16 == b[6] % 16
    ensures r[8] / 64 == 2 && r[8] % 64 == b[8] % 64
    ensures forall i :: 0 <= i < 16 && i != 6 && i != 8 ==> r[i] == b[i]
  {
    b[6 := Bits.VersionByte(b[6])][8 := Bits.VariantByte(b[8])]
  }

  const Hyphen: byte := 45   // '-'

  /** `%08x-%04x-%04x-%04x-%012x` of the slices `b[0:4]`, `b[4:6]`,
      `b[6:8]`, `b[8:10]`, `b[10:]`: each slice already renders at exactly
      the field width, so no padding occurs (the layout of section 3 of
      RFC 4122). */
  function UUIDText(b: seq<byte>): (t: seq<byte>)
    requires |b| == 16
    ensures |t| == 36
    ensures t[8] == Hyphen && t[13] == Hyphen && t[18] == Hyphen && t[23] == Hyphen
  {
    Text.HexEncode(b[0..4]) + [Hyphen] + Text.HexEncode(b[4..6]) + [Hyphen] +
    Text.HexEncode(b[6..8]) + [Hyphen] + Text.HexEncode(b[8..10]) + [Hyphen] +
    Text.HexEncode(b[10..16])
  }

  /** Read back UUID text: hyphens at 8, 13, 18 and 23, hexadecimal
      digits everywhere else. */
  function ParseUUID(t: seq<byte>): (r: Option<seq<byte>>)
    ensures r.Some? ==> |r.value| == 16
  {
    if |t| == 36 && t[8] == Hyphen && t[13] == Hyphen && t[18] == Hyphen && t[23] == Hyphen then
      Text.HexDecode(t[0..8] + t[9..13] + t[14..18] + t[19..23] + t[24..36])
    else None
  }

  /** UUID text parses back to the sixteen bytes it renders. */
  lemma UUIDRoundTrip(b: seq<byte>)
    requires |b| == 16
    ensures ParseUUID(UUIDText(b)) == Some(b)
  {
    var t := UUIDText(b);
    var h := t[0..8] + t[9..13] + t[14..18] + t[19..23] + t[24..36];
    assert t[0..8] == Text.HexEncode(b[0..4]);
    assert t[9..13] == Text.HexEncode(b[4..6]);
    assert t[14..18] == Text.HexEncode(b[6..8]);
    assert t[19..23] == Text.HexEncode(b[8..10]);
    assert t[24..36] == Text.HexEncode(b[10..16]);
    Text.HexEncodeAppend(b[0..4], b[4..6]);
    assert b[0..4] + b[4..6] == b[0..6];
    Text.HexEncodeAppend(b[0..6], b[6..8]);
    assert b[0..6] + b[6..8] == b[0..8];
    Text.HexEncodeAppend(b[0..8], b[8..10]);
    assert b[0..8] + b[8..10] == b[0..10];
    Text.HexEncodeAppend(b[0..10], b[10..16]);
    assert b[0..10] + b[10..16] == b;
    assert h == Text.HexEncode(b);
    Text.HexRoundTrip(b);
  }

  /** Character 14 of the text is the version digit '4', and character 19
      is one of '8', '9', 'a', 'b', the variant. */
  lemma UUIDTextMarkers(b: seq<byte>)
    requires |b| == 16
    ensures UUIDText(FixBits(b))[14] == 52
    ensures UUIDText(FixBits(b))[19] in {56, 57, 97, 98}
  {
    var f := FixBits(b);
    var t := UUIDText(f);
    assert t[14] == Text.HexEncode(f[6..8])[0];
    Text.HexEncodeAt(f[6..8], 0);
    assert t[19] == Text.HexEncode(f[8..10])[0];
    Text.HexEncodeAt(f[8..10], 0);
  }

  /** `UUID`: read sixteen bytes, fix version and variant, render. */
  function UUID(src: Source): (s: Step<seq<byte>, Source>)
    ensures s.result.Success? <==> 16 <= |src.pending|
    ensures s.result.Failure? ==> s == Step(Failure(EntropyUnavailable), src)
    ensures s.result.Success? ==>
      && |s.result.value| == 36
      && ParseUUID(s.result.value) == Some(FixBits(src.pending[..16]))
      && s.result.value[14] == 52
      && s.state.pending == src.pending[16..]
  {
    var r := SourceReadFull(src, 16);
    match r.result
    case Failure(e) => Step(Failure(e), r.state)
    case Success(b) =>
      UUIDRoundTrip(FixBits(b));
      UUIDTextMarkers(b);
      Step(Success(UUIDText(FixBits(b))), r.state)
  }
}

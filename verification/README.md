# go-randutils in Dafny

A Dafny model of the Go package `randutils` (module
`github.com/chaosoffire/go-randutils`) and its `models` sub-package, with
proofs about the model. The package hands out cryptographically random
values: raw bytes, integers below a bound, integers with a given number of
decimal digits, floating-point values below a bound, strings over fixed
alphabets, hexadecimal text and version 4 UUIDs.

What is modelled:

- **`RandBufferReader`** (`buffer_reader.dfy`). A fixed-size buffer with a
  cursor, refilled in full from the operating system's generator when it
  runs dry. Each public method is one atomic step from a state `Rng`
  (reader plus entropy source) to the next. The entropy source is the finite
  run of bytes the generator still delivers (`Source`). `Deliverable(g)` is
  the exact byte stream the reader will serve from state `g`: the rest of
  the buffer, then every whole-buffer chunk of the source. `Read`, `Bytes`,
  `Byte` and `ReadRange` are each specified as taking a prefix of that
  stream and leaving the rest, so no byte is skipped and none is served
  twice. Rejection sampling is `Accept(stream, lo, hi)`, the in-range bytes
  of the stream in order. `Scan` counts how many stream bytes are consumed
  to obtain `k` of them.
- **`NewRandomFromSet`** (`set_sampling.dfy`), as written: the cutoff
  `maxByte = byte(255 - 255 % S)`, a range draw in `[0, maxByte]`, and the
  reduction `set[raw % byte(S)]`. This includes the division by zero and
  the collapse to `set[0]` once `S >= 256`. Beside it is a corrected sampler
  `SampleFromSet`, with equal preimage counts proved.
- **`NewBytes`** and the six string constructors (`byte_gen.dfy`,
  `string_gen.dfy`).
- **The number generators** (`num_gen.dfy`): `NewInt`, `NewBigInt`,
  `NewBigIntLength`, `NewFloat`, `NewBigFloat` and `NewBigFloatLength`.
  `crypto/rand.Int` is an oracle whose successes lie in `[0, bound)`.
  Floating-point arithmetic and formatting are parameters (`FloatEnv`).
- **`RandomGenerator`** and its six accessors (`generator.dfy`). The dynamic
  type of `Data` becomes a closed datatype. Decimal and hexadecimal
  renderings and their parsers are in `text.dfy`.
- **The tables**: the byte alphabets of `variable.go` (`variable.dfy`) and
  the integer tables of `models/models.go` with their `init` loops
  (`models.dfy`).
- **The direct helpers of `randutils.go`** (`randutils.dfy`, `bits.dfy`):
  `Int`, `IntRange`, `Random`, `Strings`, `AllChars`, `toASCII`, `Byte`,
  `Hex` and `UUID`. These read from the operating system's generator
  directly, modelled as a `Source`. The UUID bit fixing of section 4.4 of
  RFC 4122 is shown equal, byte for byte, to the source's masks on `bv8`.

`NewRandomFromSet` has one path for every alphabet size. Its cutoff
`255 - 255 % S` does not make `maxByte + 1` a multiple of `S`, and it has no
path for 256 or more symbols. The model keeps that path as it is
(`NewRandomFromSet`). `SampleFromSet` is the corrected sampler: it uses an
unbiased cutoff for up to 256 symbols and draws each index directly beyond
that. The findings below correct the code to it.

The doc comment of `AllChars` (randutils.go:130-135) lists the characters
`!@#$%^&*()_+-=[]{}|;:,.<>?`. The table the code draws from,
`models.Allset`, holds the codes 33 to 47 and 58 to 64 besides digits and
letters. So `^ _ [ ] { } |` never occur, and `" ' /` occur without being
listed. The model follows the code, and `Models.AllsetContents` states the
exact set.

## Model

| member | source | states |
|---|---|---|
| BufferReader.SourceReadFull | rand_buffer_reader.go:39 | `io.ReadFull` on the generator either yields exactly `n` bytes taken from the front of what it still delivers, leaving the rest, or fails with nothing consumed. |
| BufferReader.Fill | rand_buffer_reader.go:38-44 | `fill` succeeds exactly when a whole buffer's worth of entropy remains. On success the buffer keeps its length, holds the next bytes of the source, and the cursor is reset to 0. On failure the state is unchanged. When the buffer was used up, the bytes still to be served are the same before and after. |
| BufferReader.ChunkedIsPrefix | rand_buffer_reader.go:38-44 | Successive whole-buffer fills deliver a prefix of the generator's bytes, and lose less than one buffer's worth at the end. |
| BufferReader.NewRandBufferReaderWithSize | rand_buffer_reader.go:20-34 | A size of at most 0 is rejected with the source untouched. Otherwise the constructor succeeds exactly when one buffer can be filled. The reader it returns is valid, has a buffer of exactly `size` bytes and a cursor at 0, and will serve the source's whole-buffer chunks in order. |
| BufferReader.NewRandBufferReader | rand_buffer_reader.go:16-18 | The default constructor yields a valid reader with a 256-byte buffer exactly when 256 bytes of entropy are available. |
| BufferReader.DeliverableAdvance | rand_buffer_reader.go:88-93 | Moving the cursor past `k` buffered bytes serves exactly the first `k` bytes still to be served, and keeps the cursor within the buffer. |
| BufferReader.DeliverableExhausted | rand_buffer_reader.go:53-55 | With the cursor at the end of the buffer, what is left to serve is exactly what whole-buffer refills will bring. It is empty exactly when the next refill would fail. |
| BufferReader.NextByte | rand_buffer_reader.go:52-61 | `byteUnsafe` fails exactly when nothing is left to serve, and then leaves the state as it was. Otherwise it returns the next byte of the stream and leaves the stream one byte shorter. The cursor stays valid and the buffer keeps its size. With bytes still buffered, it advances the cursor by exactly one without a refill. |
| BufferReader.RefillIfEmpty | rand_buffer_reader.go:83-87 | The refill at the head of `Read`'s loop never changes the stream to be served. After it, either a byte is under the cursor or the stream is empty and the error is reported. |
| BufferReader.Read | rand_buffer_reader.go:75-97 | `Read` of an empty slice returns 0 and changes nothing. Otherwise the slice receives exactly the next `n` bytes of the stream, in order, and the stream loses exactly those `n`. It succeeds exactly when the stream holds `len(b)` bytes, and then `n == len(b)`. On failure `n < len(b)` is the whole remaining stream. The buffer never changes size. |
| BufferReader.Bytes | rand_buffer_reader.go:63-73 | `Bytes(n)` rejects `n <= 0` without reading. Otherwise it succeeds exactly when `n` bytes remain, and returns exactly the next `n` bytes of the stream, consuming just those. |
| BufferReader.AcceptInRange | rand_buffer_reader.go:116-119 | Rejection sampling keeps only bytes within `[lo, hi]`, and keeps every byte of the stream that lies within it. |
| BufferReader.AcceptAppend | rand_buffer_reader.go:110-122 | Filtering a stream in two pieces gives the concatenation of the pieces' filtered bytes. |
| BufferReader.FirstSplits | rand_buffer_reader.go:111-121 | One round of the inner loop consumes bytes that hold exactly one accepted byte, the first one. What it leaves holds all the other accepted bytes. |
| BufferReader.FirstAt | rand_buffer_reader.go:111-121 | If every byte before position `d` is rejected and byte `d` is accepted, byte `d` is the first accepted byte and one round consumes exactly `d + 1` bytes. |
| BufferReader.Scan | rand_buffer_reader.go:110-122 | Drawing `k` in-range bytes consumes at least `k` and at most all stream bytes. The bytes it leaves still hold, in order, every accepted byte not yet drawn. |
| BufferReader.ScanNext | rand_buffer_reader.go:110-121 | After `k` draws, the remaining stream starts its accepted bytes with accepted byte number `k`. Draw `k + 1` consumes one more round of the inner loop. |
| BufferReader.ScanPrefix | rand_buffer_reader.go:110-122 | The bytes consumed by `k` draws hold exactly the first `k` accepted bytes. So every byte the loop discards lies outside the range. |
| BufferReader.NextInRange | rand_buffer_reader.go:111-121 | The inner loop fails exactly when no byte of the stream is in range, and then leaves the stream empty. Otherwise it returns the first in-range byte and leaves the stream just after it. |
| BufferReader.ReadRange | rand_buffer_reader.go:99-124 | An empty slice returns 0 before the range is checked. An inverted range fails without reading. Otherwise each position receives the next in-range byte of the stream, in order. The call succeeds exactly when the stream holds `len(b)` in-range bytes, and then consumes exactly the bytes those draws took. On failure the count is the number of in-range bytes there were, and the stream is empty. |
| BufferReader.AcceptFullRange | rand_buffer_reader.go:116 | Over the full byte range nothing is rejected, and `k` draws consume exactly `k` bytes. |
| ByteGen.NewBytes | rand_byte_gen.go:8-23 | `NewBytes` rejects a length of at most 0 before touching the reader. Otherwise it succeeds exactly when `length` bytes remain, and holds exactly the next `length` bytes of the stream as a byte slice. A read error is reported and leaves the stream empty. |
| SetSampling.MaxByteSmallSet | rand_from_set.go:17 | For `1 <= S <= 255`, `byte(S)` is `S` and the cutoff is `S * (255 / S)`, which lies between `S` and 255. |
| SetSampling.MaxByte | rand_from_set.go:17 | For at most 255 symbols the cutoff is the largest multiple of `S` that is at most 255, so it lies above `255 - S`. From 256 symbols on it is 0. |
| SetSampling.MaxByteLargeSet | rand_from_set.go:17 | From 256 symbols on, the cutoff is 0. |
| SetSampling.PreimagesBlocks | rand_from_set.go:24 | Among `S * q + r` consecutive raw values from 0, index `j` is reached `q` times, plus once more when `j < r`. |
| SetSampling.PreimagesCount | rand_from_set.go:24 | The number of raw values below any bound `top` that reduce to index `j` is `top / S`, plus one when `j < top % S`. |
| SetSampling.AsWrittenPreimages | rand_from_set.go:17-24 | With the cutoff as written, index 0 is reached by `255 / S + 1` raw values and every other index by `255 / S`. |
| SetSampling.AsWrittenIsBiased | rand_from_set.go:17-24 | For every alphabet of 2 to 255 symbols, index 0 has one more preimage than index 1. |
| SetSampling.AsWrittenBiasForTwoSymbols | rand_from_set.go:17-24 | With two symbols the cutoff is 254. The first symbol is drawn for 128 raw values and the second for 127. |
| SetSampling.UnbiasedMaxByteBounds | rand_from_set.go:17 | The corrected cutoff `m` makes `m + 1` a multiple of `S`, and it is the largest such value up to 256. |
| SetSampling.UnbiasedPreimages | rand_from_set.go:17-24 | With the corrected cutoff, every index has exactly `256 / S` preimages. |
| SetSampling.SampleFromSetUnbiased | rand_from_set.go:17-24 | The corrected sampler's accepted range is a whole number of blocks of `S`, and every index is reached by the same number, `256 / S`, of accepted raw values. |
| SetSampling.MapWith | rand_from_set.go:23-25 | Each raw byte becomes the symbol at its residue, so the output has one symbol per raw byte and every symbol belongs to the alphabet. |
| SetSampling.MapInPlace | rand_from_set.go:23-25 | The in-place loop that overwrites each raw byte with its symbol yields exactly the symbol-by-symbol mapping. |
| SetSampling.NewRandomFromSet | rand_from_set.go:5-29 | A length of at most 0 is rejected first, then an empty set, both before anything is read. Otherwise the raw bytes are the first `length` accepted bytes in `[0, maxByte]`, consuming exactly their draws. Too little entropy fails with the stream emptied. `byte(S) == 0` divides by zero. Any other `S` maps each raw byte to `set[raw % byte(S)]`. |
| SetSampling.NewRandomFromSetMembers | rand_from_set.go:19-25 | Every raw byte fed to the mapping is at most `maxByte`. The output has `length` symbols, all members of the set. |
| SetSampling.LargeSetCollapses | rand_from_set.go:17-24 | From 256 symbols on, when `byte(S)` is not 0, every output symbol is `set[0]`. |
| SetSampling.MultipleOf256DividesByZero | rand_from_set.go:17-24 | For a set size that is a multiple of 256, both `byte(S)` and the cutoff are 0, so the reduction divides by zero. |
| SetSampling.DrawSymbols | rand_from_set.go:5-29 | The corrected large-alphabet strategy: `k` draws of an index below `S`, in order. When they succeed they give `k` symbols of the set. |
| SetSampling.DrawSymbolsFailurePersists | rand_from_set.go:5-29 | Once an index draw fails, drawing more symbols fails with the same error and state. |
| SetSampling.DrawLoop | rand_from_set.go:5-29 | The loop that draws one index per symbol computes exactly the `DrawSymbols` sequence, and stops at the first failure. |
| SetSampling.SampleSmallSet | rand_from_set.go:17-25 | For at most 256 symbols, the corrected sampler succeeds exactly when `length` bytes fall within the unbiased range. It maps exactly those bytes modulo `S` and consumes exactly their draws. |
| SetSampling.SampleFromSet | rand_from_set.go:5-29 | The corrected sampler validates in the same order as the source. It succeeds for every alphabet size with `length` members of the set. For up to 256 symbols it maps the accepted bytes of the unbiased range. Beyond that it draws each index directly below `S`. |
| SetSampling.FullAlphabetReadsExactly | rand_from_set.go:17-24 | With exactly 256 symbols the corrected sampler rejects no byte. It maps the next `length` bytes of the stream and consumes just those. |
| StringGen.StringFromSet | rand_string_gen.go:5-18 | A length of at most 0 is rejected. Otherwise the result is a string of exactly `length` symbols of the alphabet, the same bytes `NewRandomFromSet` produced, or its error. |
| StringGen.NewLowerChars | rand_string_gen.go:5-18 | The result holds `length` characters, each from `'a'` to `'z'`, sampled from the stream as above. |
| StringGen.NewUpperChars | rand_string_gen.go:20-33 | The result holds `length` characters, each from `'A'` to `'Z'`. |
| StringGen.NewSymbolChars | rand_string_gen.go:35-48 | The result holds `length` characters, each one of `!@#$%^&*`. |
| StringGen.NewAlphabets | rand_string_gen.go:50-63 | The result holds `length` letters. |
| StringGen.NewChars | rand_string_gen.go:65-78 | The result holds `length` letters or digits. |
| StringGen.NewAllChars | rand_string_gen.go:80-93 | The result holds `length` letters, digits or the eight symbols. |
| Variable.BaseSetsAreRuns | variable.go:12-14 | `numset`, `lowerset` and `upperset` are the contiguous runs `'0'..'9'`, `'a'..'z'` and `'A'..'Z'`. |
| Variable.SymbolsetIsExact | variable.go:15 | `symbolset` is exactly the eight bytes `! @ # $ % ^ & *`, in that order. |
| Variable.CompositeSets | variable.go:17-19 | The combined alphabets are concatenations of the base ones, of sizes 52, 62 and 70. |
| Variable.AlphabetSizes | variable.go:12-19 | Every named alphabet has between 1 and 255 symbols. This is the range on which the set sampler's byte arithmetic is sound. |
| NumGen.NewInt | rand_num_gen.go:11-25 | A maximum of at most 0 is rejected before any entropy is used. Otherwise the result is the oracle's draw, in `[0, maximum)`, stored as an `int`, or the oracle's error. |
| NumGen.NewBigInt | rand_num_gen.go:27-41 | A maximum of at most 0 is rejected before any entropy is used. Otherwise the result is the oracle's draw, in `[0, maximum)`, stored as a big integer, or the oracle's error. |
| NumGen.DigitRange | rand_num_gen.go:50-52 | `10^length - 10^(length-1)` is `9 * 10^(length-1)`, so the oracle's bound is always positive. |
| NumGen.NewBigIntLength | rand_num_gen.go:43-61 | A length of at most 0 is rejected. Otherwise the result is the oracle's draw below `9 * 10^(length-1)` plus `10^(length-1)`, so it lies in `[10^(length-1), 10^length)`. |
| NumGen.NewBigIntLengthDigits | rand_num_gen.go:50-57 | The result has exactly `length` decimal digits, and `String()` renders it as those digits. |
| NumGen.BigEndian | rand_num_gen.go:71 | Eight bytes read big-endian give an unsigned 64-bit value. |
| NumGen.UnitIntervalBits | rand_num_gen.go:75 | `0x3FF0000000000000 \| (u >> 12)` is a positive finite float with the exponent of 1.0 and the top 52 bits of `u` as its fraction, so a value in `[1, 2)`. |
| NumGen.NewFloat | rand_num_gen.go:63-80 | A maximum at most zero is rejected without reading, while a NaN maximum passes the check. Otherwise the call succeeds exactly when 8 bytes remain. The result is `(unit - 1.0) * maximum` for the unit-interval value built from exactly those 8 bytes, which are consumed. |
| NumGen.MaxRatioInt | rand_num_gen.go:89-90 | The ratio's denominator `2^256` is `256^32`, the range of a 32-byte big-endian number. |
| NumGen.NewBigFloat | rand_num_gen.go:82-102 | A maximum at most zero is rejected without drawing. Otherwise an integer `r < 2^256` is drawn and the result is `r / 2^256` scaled by the maximum. |
| NumGen.NewBigFloatLength | rand_num_gen.go:104-139 | A length of at most 0 is rejected. A success is the 256-bit sum of two parts. The first is the integer part, with `length` digits, converted by `SetInt` at 256 bits, which rounds it once it reaches `2^256`. The second is the fraction drawn after it from the state the integer draw left. |
| NumGen.NewBigFloatLengthParts | rand_num_gen.go:119-126 | The two accessor calls on the parts never fail. So `NewBigFloatLength` fails only when one of its two draws fails. |
| Floats.AtMostZero | rand_num_gen.go:64 | Go's `maximum <= 0` holds exactly for the two zeros and for every negative value that is not a NaN, negative infinity included. |
| Floats.AtMostZeroExamples | rand_num_gen.go:64 | Go's `maximum <= 0` holds for both zeros, for -1.0 and for every negative non-NaN value. It fails for NaN, positive infinity and 1.0. |
| Floats.BigAtMostZero | rand_num_gen.go:83 | `max.Cmp(0) <= 0` holds for negative infinity but not for positive infinity. A finite value `mantissa * 2^exponent` passes exactly when it is at most 0, which is when its mantissa is at most 0. |
| Generator.String | rand_gen.go:14-37 | `String()` fails only on nil or unknown data. It returns text and bytes unchanged, and renders every integer as decimal text that parses back to the same integer. |
| Generator.Int | rand_gen.go:39-55 | `Int()` succeeds for the three machine integers always, and for a big integer exactly when it fits in 64 bits. It preserves the value, and reports overflow apart from type mismatch. |
| Generator.BigInt | rand_gen.go:57-70 | `BigInt()` succeeds exactly for the four integer types and preserves the value. |
| Generator.Float | rand_gen.go:72-93 | `Float()` succeeds for machine integers and floats, and for a big float unless it rounds to an infinity. It fails for big integers, text, bytes and nil. |
| Generator.BigFloat | rand_gen.go:95-112 | `BigFloat()` converts machine integers exactly, floats other than NaN, and big floats as they are. It fails for big integers, text, bytes and nil. |
| Generator.Bytes | rand_gen.go:114-121 | `Bytes()` succeeds exactly on byte slices and returns them unchanged. |
| Generator.IntAgreesWithBigInt | rand_gen.go:39-70 | Where `Int()` succeeds, `BigInt()` succeeds with the same number. Where `BigInt()` fits in 64 bits, `Int()` agrees. |
| Generator.StringOfBytes | rand_gen.go:16-19 | A byte slice reads the same through `String()` and `Bytes()`, and a string of the same bytes reads the same through `String()`. |
| Generator.StringOfInteger | rand_gen.go:20-27 | Integer data renders as decimal text naming the integer `BigInt()` returns. |
| Generator.ZeroConvertsToNothing | rand_gen.go:14-121 | Every accessor fails on the zero `RandomGenerator`, the value returned beside every error. |
| Text.Digits | rand_gen.go:26-27 | Decimal digits without a leading zero, at least one. |
| Text.Decimal | rand_gen.go:20-25 | `%d` text is digits, with a leading minus exactly for negative numbers. |
| Text.DigitsRoundTrip | rand_gen.go:20-27 | The digits of `n` denote `n`. |
| Text.DecimalRoundTrip | rand_gen.go:20-27 | Parsing `%d` text gives back the integer. |
| Text.DecimalInjective | rand_gen.go:20-27 | Two integers render to the same text exactly when they are equal. |
| Text.DigitsMagnitude | rand_num_gen.go:57 | A number with `d` digits lies in `[10^(d-1), 10^d)`. |
| Text.DigitCount | rand_num_gen.go:57 | A number has exactly `k` digits if and only if it lies in `[10^(k-1), 10^k)`. |
| Text.HexEncode | randutils.go:108 | `%x` of a byte slice has two characters per byte. |
| Text.HexRoundTrip | randutils.go:108 | `%x` text decodes back to the bytes it renders. |
| Text.HexEncodeAt | randutils.go:108 | Characters `2i` and `2i + 1` of `%x` text are the high and low nibble digits of byte `i`. |
| Text.HexEncodeAppend | randutils.go:122-127 | `%x` of a concatenation is the concatenation of the `%x` texts. |
| Base.Wrap64 | randutils.go:33-38 | 64-bit `int` arithmetic leaves in-range results unchanged and otherwise wraps modulo `2^64`. |
| Bits.SetVersion | randutils.go:119 | `(b & 0x0f) \| 0x40` has high nibble 4 and keeps the low nibble. |
| Bits.SetVariant | randutils.go:121 | `(b & 0x3f) \| 0x80` has top two bits `10` and keeps the low six bits. |
| Bits.VersionByte | randutils.go:119 | The version byte as a number: its high nibble is 4 and its low nibble is that of the input byte. |
| Bits.VariantByte | randutils.go:121 | The variant byte as a number: its top two bits are `10` and its low six bits are those of the input byte. |
| Bits.VersionByteIsMask | randutils.go:119 | The arithmetic version byte used by the model equals the source's bit mask on every byte. |
| Bits.VariantByteIsMask | randutils.go:121 | The arithmetic variant byte equals the source's bit mask on every byte. |
| RandUtils.Int | randutils.go:17-26 | A maximum of at most 0 is rejected. Otherwise the result is the oracle's draw in `[0, max)` or its error. |
| RandUtils.IntRange | randutils.go:29-39 | `min >= max` is rejected. While `max - min` fits in an `int`, the result is the draw below `max - min` plus `min`, in `[min, max)`. A wider range is rejected as an invalid maximum. |
| RandUtils.IntRangeWide | randutils.go:29-39 | Every valid range draws below its exact width. The result lies in `[min, max)`. |
| RandUtils.IntRangeAgrees | randutils.go:29-39 | Where the width fits in an `int`, the code as written and the corrected version coincide. |
| RandUtils.IntRangeOverflows | randutils.go:33-34 | The valid range `[-1, MaxInt64)` is rejected by the code as written, while the corrected version draws from it. |
| RandUtils.RandomDraws | randutils.go:51-58 | `k` rounds of `IntRange(0, len(charset))` give `k` entries of the table when they succeed. |
| RandUtils.RandomDrawsFailurePersists | randutils.go:53-56 | Once a round fails, later rounds never run. |
| RandUtils.Random | randutils.go:43-60 | A length of at most 0 is rejected first, then an empty table. Otherwise the result is exactly the `k`-round draw: `length` entries of the table, or the first error. |
| RandUtils.ToASCII | randutils.go:148-154 | The output has the same length, and byte `i` is `ints[i] mod 256`. Codes already within a byte pass unchanged. |
| RandUtils.Strings | randutils.go:64-73 | A length of at most 0 is rejected. Otherwise the result is the draw over `models.Charset`: `length` characters, each a digit or letter. |
| RandUtils.AllChars | randutils.go:136-145 | The same over `models.Allset`: each character printable ASCII from `!` to `z`, except the six between `Z` and `a`. |
| RandUtils.Byte | randutils.go:77-87 | A length of at most 0 is rejected. Otherwise the result is the next `length` bytes of the generator, or a failure with nothing consumed. |
| RandUtils.Hex | randutils.go:103-109 | The result has `2 * length` characters, decodes back to the bytes drawn, and fails exactly when `Byte` does. |
| RandUtils.FixBits | randutils.go:118-121 | Byte 6 gets high nibble 4 and keeps its low nibble. Byte 8 gets top bits `10` and keeps its low six bits. The other 14 bytes are unchanged. |
| RandUtils.UUIDText | randutils.go:122-127 | The text is 36 characters, with hyphens at positions 8, 13, 18 and 23. |
| RandUtils.UUIDRoundTrip | randutils.go:122-127 | The text parses back to the sixteen bytes it renders, in order. |
| RandUtils.UUIDTextMarkers | randutils.go:118-127 | Character 14 is the version digit `4`, and character 19 is one of `8 9 a b`. |
| RandUtils.UUID | randutils.go:112-128 | `UUID` succeeds exactly when sixteen bytes are available. The text reads back to those bytes with version and variant fixed, and it consumes exactly those bytes. |
| Models.Run | models/models.go:40-58 | One `init` run holds `end - start + 1` codes. |
| Models.FillRun | models/models.go:40-58 | An `init` loop writes `start, start + 1, ...` into its slots and leaves every other slot as it was. |
| Models.Init | models/models.go:38-64 | `init` leaves the seven tables equal to their runs and concatenations. |
| Models.RunContents | models/models.go:40-58 | A run holds exactly the codes between its ends, each once. |
| Models.ConcatDistinct | models/models.go:61-63 | Concatenating duplicate-free tables with no common code gives a duplicate-free table. |
| Models.TableSizes | models/models.go:22-35 | The tables have 10, 26, 26, 22, 52, 62 and 84 entries. |
| Models.BaseContents | models/models.go:40-58 | Each base table is exactly its ASCII range, each code once. |
| Models.BaseTablesDisjoint | models/models.go:40-58 | The four base tables are pairwise disjoint. |
| Models.CharsetContents | models/models.go:62 | `Charset` is exactly the ASCII digits and letters, each once. |
| Models.AllsetContents | models/models.go:63 | `Allset` is exactly the codes 33 to 122 other than 91 to 96, each once, so every code fits in a byte. |
| Models.AlphabetsetContents | models/models.go:61 | `Alphabetset` is exactly the ASCII letters, each once. |

## Left out

- The mutex (rand_buffer_reader.go:13, 28-29, 47-48, 80-81, 108-109): each public method is one atomic step.
- The entropy source is the finite run of bytes it still delivers. It never blocks and never produces a short read without failing. A generator that never fails would loop forever in `ReadRange` if no in-range byte ever came, and that non-terminating run is not modelled.
- `io.ReadFull` over the reader is one `Read` call. `Read` comes back short only together with an error, so the loop of `io.ReadFull` ends after one call. `io.ErrUnexpectedEOF` and the generator's own errors are all `EntropyUnavailable`.
- `crypto/rand.Int` is an oracle whose successes lie in `[0, bound)` and which keeps the reader valid. Its bit-masking sampler and uniformity live in Go's standard library.
- `binary.Read` in `NewFloat` is one `Read` of eight bytes.
- Floating-point arithmetic, rounding, NaN and infinity handling inside `math/big`, and `%f` / `Text('f', -1)` formatting are parameters in `FloatEnv`, not computed. `Quo(r, 2^256)` at 256 bits is exact and is modelled as the value `r * 2^-256`. `SetInt64` of a machine integer is exact and is modelled as that integer. `SetInt` of a big integer is the parameter `setInt`, because it rounds once the integer reaches `2^256`.
- `NumGen.NewBigFloatLength`: its contract states only the success shape, not which errors arise, since those come from the two draws, whose contracts state them.
- `Base64` (randutils.go:92-98) is a wrapper over `encoding/base64`.
- The default reader `Reader` (variable.go:10) is initialised outside the files modelled. A nil reader argument is resolved by the caller, so every operation takes its reader state explicitly.
- Two Go run-time panics are modelled as returned errors, though a Go caller never sees them as `err`: the integer division by zero in `NewRandomFromSet` (`DivideByZero`), and the `ErrNaN` panic of `SetFloat64(NaN)` in `BigFloat()` (`NaNOperand`).
- Statistical claims about uniformity: only exact preimage counts are stated.
- `NumGen.BigEndian`: states only the range of the value, not its digit-by-digit definition.
- `Text.HexEncode`: states only the length. The content is stated by `Text.HexEncodeAt` and `Text.HexRoundTrip`.

## Findings

| source | as written | input that shows it | evidently intended | confidence | as-written member | corrected member |
|---|---|---|---|---|---|---|
| rand_from_set.go:17 | `maxByte = 255 - 255 % S` accepts `S * (255 / S) + 1` raw values, one more than a whole number of blocks of `S`, so index 0 has one extra preimage | `S = 2`: cutoff 254, index 0 reached by 128 raw values, index 1 by 127 | the largest cutoff `m` with `m + 1` a multiple of `S`, which gives every index `256 / S` preimages | high; not executed | SetSampling.AsWrittenBiasForTwoSymbols | SetSampling.SampleFromSetUnbiased |
| rand_from_set.go:17-24 | no path for 256 or more symbols: `byte(S)` truncates the set size | `S = 256`: cutoff 0 and `byte(S) = 0`, so line 24 divides by zero; a set size of 257 gives `set[0]` every time | a sampler valid for every set size, drawing each index below `S` | high; not executed | SetSampling.MultipleOf256DividesByZero | SetSampling.SampleFromSet |
| randutils.go:33 | `n := max - min` wraps in a 64-bit `int` | `min = -1, max = MaxInt64`: `n` wraps negative and `Int` rejects a valid range | draw below the exact width `max - min` | high; not executed | RandUtils.IntRangeOverflows | RandUtils.IntRangeWide |

`LargeSetCollapses` is the second as-written half of the second row, for
set sizes above 256 that are not multiples of 256. `Random`, `Strings` and
`AllChars` call `IntRange` with `min = 0`, where the two versions coincide
(`IntRangeAgrees`).

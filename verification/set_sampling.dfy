/** `NewRandomFromSet`: draw `length` symbols from an alphabet `set` of `S`
    bytes by rejection sampling raw bytes into `[0, maxByte]` and reducing
    each modulo `S`.

    The code as written has one path for every `S`, and its cutoff
    `maxByte = 255 - 255 % S` is one too high to be unbiased: the accepted
    range holds `S * (255 / S) + 1` values, so index 0 has one more preimage
    than every other index whenever `S >= 2`. For `S >= 256` the cutoff is 0,
    and `byte(S)` truncates: a multiple of 256 divides by zero, anything else
    yields `alphabet[0]` every time. `NewRandomFromSet` models that code;
    `SampleFromSet` is the sampler the cutoff was meant to give, with the
    equal preimage counts proved. */
module SetSampling {
  import opened Base
  import opened BufferReader
  import Generator

  /** Go's conversion `byte(n)`: the low eight bits. */
  function ByteOf(n: int): byte
  {
    n % 256
  }

  /** `maxByte := byte(255 - (255 % setLength))`: for at most 255 symbols
      the largest multiple of `S` not above 255, from 256 symbols on 0. */
  function MaxByte(s: nat): (m: byte)
    requires s > 0
    ensures s <= 255 ==> m % s == 0 && 255 - s < m <= 255
    ensures s >= 256 ==> m == 0
  {
    if s <= 255 then
      DivModUnique(255 - 255 % s, s, 255 / s, 0);
      ByteOf(255 - 255 % s)
    else
      DivModUnique(255, s, 0, 255);
      ByteOf(255 - 255 % s)
  }

  /** The cutoff the unbiasing argument needs: the largest byte `m` such
      that `m + 1` is a multiple of `S`, for `1 <= S <= 256`. */
  function UnbiasedMaxByte(s: nat): byte
    requires 0 < s <= 256
  {
    DivAtLeastOne(256, s);
    s * (256 / s) - 1
  }

  // ---------------------------------------------------------------------
  // Arithmetic

  lemma DivAtLeastOne(x: nat, s: nat)
    requires 0 < s <= x
    ensures x / s >= 1 && s * (x / s) <= x && x - s < s * (x / s)
  {
  }

  lemma MulAtLeast(s: nat, d: nat)
    requires d >= 1
    ensures s * d >= s
  {
    assert s * d == s * (d - 1) + s;
  }

  /** Quotient and remainder are unique. */
  lemma DivModUnique(x: int, s: int, q: int, r: int)
    requires s > 0 && 0 <= r < s && x == s * q + r
    ensures x / s == q && x % s == r
  {
    var q', r' := x / s, x % s;
    assert x == s * q' + r';
    if q > q' {
      MulAtLeast(s, q - q');
    } else if q < q' {
      MulAtLeast(s, q' - q);
    }
  }

  /** For an alphabet of at most 255 symbols, `byte(S)` is `S` and the
      cutoff is the largest multiple of `S` not above 255, so at least `S`. */
  lemma MaxByteSmallSet(s: nat)
    requires 1 <= s <= 255
    ensures ByteOf(s) == s
    ensures MaxByte(s) == s * (255 / s) && s <= MaxByte(s) <= 255
    ensures MaxByte(s) + 1 == s * (255 / s) + 1
  {
    DivAtLeastOne(255, s);
  }

  /** From 256 symbols on, the cutoff is 0. */
  lemma MaxByteLargeSet(s: nat)
    requires s >= 256
    ensures MaxByte(s) == 0
  {
    DivModUnique(255, s, 0, 255);
  }

  /** The unbiased cutoff: `maxByte + 1` is a multiple of `S`, and the
      largest such not above 256. */
  lemma UnbiasedMaxByteBounds(s: nat)
    requires 0 < s <= 256
    ensures (UnbiasedMaxByte(s) + 1) % s == 0
    ensures 256 - s < UnbiasedMaxByte(s) + 1 <= 256
  {
    DivAtLeastOne(256, s);
    DivModUnique(s * (256 / s), s, 256 / s, 0);
  }

  // ---------------------------------------------------------------------
  // Preimage counts

  /** How many raw values `v` in `[0, top)` map to index `j`, i.e. have
      `v % s == j`. */
  function Preimages(s: nat, j: nat, top: nat): nat
    requires s > 0
  {
    if top == 0 then 0
    else Preimages(s, j, top - 1) + (if (top - 1) % s == j then 1 else 0)
  }

  /** Each of the `q` full blocks of `s` consecutive values holds one
      preimage of index `j`, and a partial block of length `r` holds one
      exactly when `j < r`. */
  lemma {:induction false} PreimagesBlocks(s: nat, j: nat, q: nat, r: nat)
    requires 0 < s && j < s && r <= s
    ensures Preimages(s, j, s * q + r) == q + (if j < r then 1 else 0)
    decreases q, r
  {
    if r > 0 {
      PreimagesBlocks(s, j, q, r - 1);
      DivModUnique(s * q + r - 1, s, q, r - 1);
    } else if q > 0 {
      assert s * q + r == s * (q - 1) + s;
      PreimagesBlocks(s, j, q - 1, s);
    }
  }

  /** Counting preimages below any bound. */
  lemma PreimagesCount(s: nat, j: nat, top: nat)
    requires 0 < s && j < s
    ensures Preimages(s, j, top) == top / s + (if j < top % s then 1 else 0)
  {
    var q, r := top / s, top % s;
    assert top == s * q + r;
    PreimagesBlocks(s, j, q, r);
  }

  /** The code as written: among the raw values `0 .. maxByte`, index 0 has
      `255 / S + 1` preimages and every other index `255 / S`. */
  lemma AsWrittenPreimages(s: nat, j: nat)
    requires 1 <= s <= 255 && j < s
    ensures Preimages(s, j, MaxByte(s) + 1) == if j == 0 then 255 / s + 1 else 255 / s
  {
    MaxByteSmallSet(s);
    PreimagesCount(s, j, MaxByte(s) + 1);
    if s == 1 {
      DivModUnique(MaxByte(s) + 1, s, 256, 0);
    } else {
      DivModUnique(MaxByte(s) + 1, s, 255 / s, 1);
    }
  }

  /** The bias: for every alphabet of two or more symbols, index 0 is
      reached by one raw value more than index 1. */
  lemma AsWrittenIsBiased(s: nat)
    requires 2 <= s <= 255
    ensures Preimages(s, 0, MaxByte(s) + 1) == Preimages(s, 1, MaxByte(s) + 1) + 1
  {
    AsWrittenPreimages(s, 0);
    AsWrittenPreimages(s, 1);
  }

  /** The smallest instance: with two symbols the cutoff is 254, the first
      symbol is drawn for 128 raw values and the second for 127. */
  lemma AsWrittenBiasForTwoSymbols()
    ensures MaxByte(2) == 254
    ensures Preimages(2, 0, 255) == 128 && Preimages(2, 1, 255) == 127
  {
    AsWrittenPreimages(2, 0);
    AsWrittenPreimages(2, 1);
  }

  /** The corrected cutoff: every index has exactly `256 / S` preimages. */
  lemma UnbiasedPreimages(s: nat, j: nat)
    requires 0 < s <= 256 && j < s
    ensures Preimages(s, j, UnbiasedMaxByte(s) + 1) == 256 / s
  {
    DivAtLeastOne(256, s);
    PreimagesCount(s, j, UnbiasedMaxByte(s) + 1);
    DivModUnique(UnbiasedMaxByte(s) + 1, s, 256 / s, 0);
  }

  // ---------------------------------------------------------------------
  // Sampling

  /** The symbols raw bytes map to when reduced modulo `d`:
      `alphabet[raw[i] % d]` for each `i`. The code as written reduces modulo
      `byte(S)`, the corrected sampler modulo `S`. */
  function MapWith(alphabet: seq<byte>, raw: seq<byte>, d: nat): (out: seq<byte>)
    requires 0 < d <= |alphabet|
    ensures |out| == |raw|
    ensures forall i :: 0 <= i < |raw| ==> out[i] == alphabet[raw[i] % d] && out[i] in alphabet
  {
    if raw == [] then [] else [alphabet[raw[0] % d]] + MapWith(alphabet, raw[1..], d)
  }

  /** `byte(S)` never exceeds `S`, so it is a valid divisor whenever it is
      not zero. */
  lemma ByteOfAtMost(s: nat)
    ensures ByteOf(s) <= s
  {
  }

  /** `NewRandomFromSet` as written: validate the length, then the set;
      draw `length` raw bytes in `[0, maxByte]`; map each to
      `alphabet[raw % byte(S)]`, which panics when `byte(S)` is 0. */
  method NewRandomFromSet(g: Rng, length: int, alphabet: seq<byte>)
    returns (res: Result<Generator.RandomGenerator>, g': Rng)
    requires Valid(g.reader)
    ensures Valid(g'.reader) && |g'.reader.buffer| == |g.reader.buffer|
    ensures length <= 0 ==> res == Failure(InvalidLength) && g' == g
    ensures length > 0 && |alphabet| == 0 ==> res == Failure(EmptySet) && g' == g
    ensures length > 0 && |alphabet| > 0 ==>
      var D := Deliverable(g);
      var raw := Accept(D, 0, MaxByte(|alphabet|));
      && (length > |raw| ==> res == Failure(EntropyUnavailable) && Deliverable(g') == [])
      && (length <= |raw| ==> Deliverable(g') == D[Scan(D, 0, MaxByte(|alphabet|), length)..])
      && (length <= |raw| && ByteOf(|alphabet|) == 0 ==> res == Failure(DivideByZero))
      && (length <= |raw| && ByteOf(|alphabet|) != 0 ==>
            res == Success(Generator.RandomGenerator(
                     Generator.BytesData(MapWith(alphabet, raw[..length], ByteOf(|alphabet|))))))
  {
    if length <= 0 {
      return Failure(InvalidLength), g;
    }
    if |alphabet| == 0 {
      return Failure(EmptySet), g;
    }
    var maxByte := MaxByte(|alphabet|);
    var count, result, err, after := ReadRange(g, seq(length, i => 0), 0, maxByte);
    g' := after;
    if err.Some? {
      return Failure(err.value), g';
    }
    var d := ByteOf(|alphabet|);
    if d == 0 {
      return Failure(DivideByZero), g';
    }
    ByteOfAtMost(|alphabet|);
    assert result == Accept(Deliverable(g), 0, maxByte)[..length];
    result := MapInPlace(alphabet, result, d);
    return Success(Generator.RandomGenerator(Generator.BytesData(result))), g';
  }

  /** The mapping loop of `NewRandomFromSet`: overwrite each raw byte, in
      place, with the symbol it maps to. */
  method MapInPlace(alphabet: seq<byte>, raw: seq<byte>, d: nat) returns (result: seq<byte>)
    requires 0 < d <= |alphabet|
    ensures result == MapWith(alphabet, raw, d)
  {
    result := raw;
    var i := 0;
    while i < |result|
      invariant 0 <= i <= |result| == |raw|
      invariant forall j :: 0 <= j < i ==> result[j] == alphabet[raw[j] % d]
      invariant forall j :: i <= j < |raw| ==> result[j] == raw[j]
      decreases |result| - i
    {
      result := result[i := alphabet[result[i] % d]];
      i := i + 1;
    }
    MapWithPointwise(alphabet, raw, d, result);
  }

  /** A sequence that agrees with the mapping at every position is the
      mapping. */
  lemma MapWithPointwise(alphabet: seq<byte>, raw: seq<byte>, d: nat, out: seq<byte>)
    requires 0 < d <= |alphabet| && |out| == |raw|
    requires forall j :: 0 <= j < |raw| ==> out[j] == alphabet[raw[j] % d]
    ensures out == MapWith(alphabet, raw, d)
  {
  }

  /** Every raw byte the code as written reduces lies in `[0, maxByte]`,
      and every symbol it produces is a member of the set. */
  lemma NewRandomFromSetMembers(alphabet: seq<byte>, D: seq<byte>, length: nat)
    requires |alphabet| > 0 && ByteOf(|alphabet|) != 0
    requires length <= |Accept(D, 0, MaxByte(|alphabet|))|
    ensures var raw := Accept(D, 0, MaxByte(|alphabet|))[..length];
      && (forall i :: 0 <= i < length ==> raw[i] <= MaxByte(|alphabet|))
      && |MapWith(alphabet, raw, ByteOf(|alphabet|))| == length
      && (forall i :: 0 <= i < length ==> MapWith(alphabet, raw, ByteOf(|alphabet|))[i] in alphabet)
  {
    ByteOfAtMost(|alphabet|);
    AcceptInRange(D, 0, MaxByte(|alphabet|));
  }

  /** From 256 symbols on, with `byte(S)` not zero, the code as written
      draws only the raw byte 0 and so returns the first symbol every time. */
  lemma LargeSetCollapses(alphabet: seq<byte>, D: seq<byte>, length: nat)
    requires |alphabet| >= 256 && ByteOf(|alphabet|) != 0
    requires length <= |Accept(D, 0, MaxByte(|alphabet|))|
    ensures forall i :: 0 <= i < length ==>
      MapWith(alphabet, Accept(D, 0, MaxByte(|alphabet|))[..length], ByteOf(|alphabet|))[i] == alphabet[0]
  {
    var m := MaxByte(|alphabet|);
    var d := ByteOf(|alphabet|);
    ByteOfAtMost(|alphabet|);
    MaxByteLargeSet(|alphabet|);
    var A := Accept(D, 0, m);
    AcceptInRange(D, 0, m);
    var raw := A[..length];
    assert forall i :: 0 <= i < length ==> raw[i] == A[i] == 0;
    MapZeros(alphabet, raw, d);
  }

  /** Raw bytes that are all 0 map to the first symbol. */
  lemma MapZeros(alphabet: seq<byte>, raw: seq<byte>, d: nat)
    requires 0 < d <= |alphabet|
    requires forall i :: 0 <= i < |raw| ==> raw[i] == 0
    ensures forall i :: 0 <= i < |raw| ==> MapWith(alphabet, raw, d)[i] == alphabet[0]
  {
    var out := MapWith(alphabet, raw, d);
    forall i | 0 <= i < |raw|
      ensures out[i] == alphabet[0]
    {
      assert out[i] == alphabet[raw[i] % d] && raw[i] % d == 0;
    }
  }

  /** A set whose size is a multiple of 256 makes the code as written
      divide by zero once enough raw bytes are available. */
  lemma MultipleOf256DividesByZero(k: nat)
    requires k >= 1
    ensures ByteOf(256 * k) == 0 && MaxByte(256 * k) == 0
  {
    DivModUnique(256 * k, 256, k, 0);
    MaxByteLargeSet(256 * k);
  }

  /** The symbols drawn through `crypto/rand.Int` for an alphabet too large
      for one byte: one draw in `[0, S)` per symbol, in order. */
  function DrawSymbols(g: Rng, alphabet: seq<byte>, k: nat, draw: ReaderIntOracle): (s: Step<seq<byte>, Rng>)
    requires |alphabet| > 0
    ensures s.result.Success? ==>
      |s.result.value| == k && forall i :: 0 <= i < k ==> s.result.value[i] in alphabet
    decreases k
  {
    if k == 0 then Step(Success([]), g)
    else
      var prefix := DrawSymbols(g, alphabet, k - 1, draw);
      if prefix.result.Failure? then prefix
      else
        var d := draw(prefix.state, |alphabet|);
        if d.result.Failure? then Step(Failure(d.result.error), d.state)
        else Step(Success(prefix.result.value + [alphabet[d.result.value]]), d.state)
  }

  /** Once a draw has failed, drawing more symbols fails the same way. */
  lemma {:induction false} DrawSymbolsFailurePersists(g: Rng, alphabet: seq<byte>, k: nat, k': nat, draw: ReaderIntOracle)
    requires |alphabet| > 0 && k <= k'
    requires DrawSymbols(g, alphabet, k, draw).result.Failure?
    ensures DrawSymbols(g, alphabet, k', draw) == DrawSymbols(g, alphabet, k, draw)
    decreases k'
  {
    if k < k' {
      DrawSymbolsFailurePersists(g, alphabet, k, k' - 1, draw);
    }
  }

  /** The loop that draws one index per symbol for a large alphabet. */
  method DrawLoop(g: Rng, alphabet: seq<byte>, length: nat, draw: ReaderIntOracle)
    returns (res: Result<seq<byte>>, g': Rng)
    requires |alphabet| > 0 && Valid(g.reader)
    ensures Valid(g'.reader) && |g'.reader.buffer| == |g.reader.buffer|
    ensures DrawSymbols(g, alphabet, length, draw) == Step(res, g')
  {
    var out: seq<byte> := [];
    var cur := g;
    var i := 0;
    while i < length
      invariant 0 <= i <= length
      invariant DrawSymbols(g, alphabet, i, draw) == Step(Success(out), cur)
      invariant Valid(cur.reader) && |cur.reader.buffer| == |g.reader.buffer|
      decreases length - i
    {
      var d := draw(cur, |alphabet|);
      if d.result.Failure? {
        DrawSymbolsFailurePersists(g, alphabet, i + 1, length, draw);
        return Failure(d.result.error), d.state;
      }
      out := out + [alphabet[d.result.value]];
      cur := d.state;
      i := i + 1;
    }
    return Success(out), cur;
  }

  /** The sampler the cutoff was meant to give. Up to 256 symbols, raw
      bytes are drawn in `[0, m]` with `m + 1` a multiple of `S` (for
      `S = 256`, every byte) and reduced modulo `S`; beyond that, each
      symbol's index is drawn directly in `[0, S)`. */
  method SampleFromSet(g: Rng, length: int, alphabet: seq<byte>, draw: ReaderIntOracle)
    returns (res: Result<Generator.RandomGenerator>, g': Rng)
    requires Valid(g.reader)
    ensures Valid(g'.reader) && |g'.reader.buffer| == |g.reader.buffer|
    ensures length <= 0 ==> res == Failure(InvalidLength) && g' == g
    ensures length > 0 && |alphabet| == 0 ==> res == Failure(EmptySet) && g' == g
    ensures res.Success? ==>
      && res.value.data.BytesData?
      && |res.value.data.b| == length
      && (forall i :: 0 <= i < length ==> res.value.data.b[i] in alphabet)
    ensures length > 0 && 0 < |alphabet| <= 256 ==>
      var D := Deliverable(g);
      var raw := Accept(D, 0, UnbiasedMaxByte(|alphabet|));
      && (res.Success? <==> length <= |raw|)
      && (res.Success? ==>
            res.value.data.b == MapWith(alphabet, raw[..length], |alphabet|) &&
            Deliverable(g') == D[Scan(D, 0, UnbiasedMaxByte(|alphabet|), length)..])
    ensures length > 0 && |alphabet| > 256 ==>
      var s := DrawSymbols(g, alphabet, length, draw);
      && g' == s.state
      && (res.Success? <==> s.result.Success?)
      && (res.Success? ==> res.value.data.b == s.result.value)
  {
    if length <= 0 {
      return Failure(InvalidLength), g;
    }
    if |alphabet| == 0 {
      return Failure(EmptySet), g;
    }
    if |alphabet| > 256 {
      var out;
      out, g' := DrawLoop(g, alphabet, length, draw);
      if out.Failure? {
        return Failure(out.error), g';
      }
      return Success(Generator.RandomGenerator(Generator.BytesData(out.value))), g';
    }
    var out;
    out, g' := SampleSmallSet(g, length, alphabet);
    if out.Failure? {
      return Failure(out.error), g';
    }
    return Success(Generator.RandomGenerator(Generator.BytesData(out.value))), g';
  }

  /** The corrected sampler for at most 256 symbols: draw `length` raw
      bytes in `[0, m]`, `m + 1` a multiple of `S`, and reduce each modulo
      `S`. */
  method SampleSmallSet(g: Rng, length: nat, alphabet: seq<byte>)
    returns (res: Result<seq<byte>>, g': Rng)
    requires Valid(g.reader) && 0 < length && 0 < |alphabet| <= 256
    ensures Valid(g'.reader) && |g'.reader.buffer| == |g.reader.buffer|
    ensures var D := Deliverable(g);
      var raw := Accept(D, 0, UnbiasedMaxByte(|alphabet|));
      && (res.Success? <==> length <= |raw|)
      && (res.Success? ==>
            res.value == MapWith(alphabet, raw[..length], |alphabet|) &&
            Deliverable(g') == D[Scan(D, 0, UnbiasedMaxByte(|alphabet|), length)..])
  {
    var count, result, err;
    count, result, err, g' := ReadRange(g, seq(length, i => 0), 0, UnbiasedMaxByte(|alphabet|));
    if err.Some? {
      return Failure(err.value), g';
    }
    return Success(MapWith(alphabet, result, |alphabet|)), g';
  }

  /** With exactly 256 symbols the corrected sampler rejects nothing: its
      range is every byte, so it maps the next `length` bytes of the stream
      and consumes exactly those. */
  lemma FullAlphabetReadsExactly(D: seq<byte>, length: nat)
    requires length <= |D|
    ensures UnbiasedMaxByte(256) == 255
    ensures Accept(D, 0, UnbiasedMaxByte(256)) == D
    ensures Scan(D, 0, UnbiasedMaxByte(256), length) == length
  {
    assert UnbiasedMaxByte(256) == 255;
    AcceptFullRange(D, length);
  }

  /** The corrected sampler's index for each raw byte is uniform: up to
      256 symbols, every index is reached by exactly `256 / S` of the raw
      values it accepts, and every accepted raw value reaches an index. */
  lemma SampleFromSetUnbiased(s: nat, j: nat)
    requires 0 < s <= 256 && j < s
    ensures Preimages(s, j, UnbiasedMaxByte(s) + 1) == 256 / s
    ensures (UnbiasedMaxByte(s) + 1) % s == 0
  {
    UnbiasedPreimages(s, j);
    UnbiasedMaxByteBounds(s);
  }
}

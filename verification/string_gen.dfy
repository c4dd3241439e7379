/** The six string constructors: `NewRandomFromSet` over one of the
    package's alphabets, with the resulting bytes stored as a string. */
module StringGen {
  import opened Base
  import opened BufferReader
  import opened SetSampling
  import Generator
  import Variable

  /** What a string constructor over `alphabet` returns: a non-positive
      length is rejected with the reader untouched; otherwise the result is
      the string of symbols `NewRandomFromSet` maps the first `length`
      accepted raw bytes to, or the reader's failure once they run out. */
  ghost predicate SampledString(g: Rng, length: int, alphabet: seq<byte>,
                                res: Result<Generator.RandomGenerator>, g': Rng)
    requires Valid(g.reader) && Valid(g'.reader) && 1 <= |alphabet| <= 255
  {
    var D := Deliverable(g);
    var raw := Accept(D, 0, MaxByte(|alphabet|));
    && (length <= 0 ==> res == Failure(InvalidLength) && g' == g)
    && (length > 0 ==> (res.Success? <==> length <= |raw|))
    && (length > 0 && res.Success? ==>
          res.value.data == Generator.StringData(MapWith(alphabet, raw[..length], |alphabet|)) &&
          Deliverable(g') == D[Scan(D, 0, MaxByte(|alphabet|), length)..])
    && (length > 0 && res.Failure? ==> res.error == EntropyUnavailable && Deliverable(g') == [])
  }

  /** The body every constructor shares: validate the length, sample from
      the alphabet, and turn the bytes into a string. */
  method StringFromSet(g: Rng, length: int, alphabet: seq<byte>)
    returns (res: Result<Generator.RandomGenerator>, g': Rng)
    requires Valid(g.reader) && 1 <= |alphabet| <= 255
    ensures Valid(g'.reader) && |g'.reader.buffer| == |g.reader.buffer|
    ensures SampledString(g, length, alphabet, res, g')
    ensures res.Success? ==>
      && res.value.data.StringData?
      && |res.value.data.s| == length
      && (forall i :: 0 <= i < length ==> res.value.data.s[i] in alphabet)
  {
    if length <= 0 {
      return Failure(InvalidLength), g;
    }
    var r;
    r, g' := NewRandomFromSet(g, length, alphabet);
    MaxByteSmallSet(|alphabet|);
    if r.Failure? {
      return Failure(r.error), g';
    }
    res := Success(Generator.RandomGenerator(Generator.StringData(r.value.data.b)));
  }

  /** `NewLowerChars`: 'a' .. 'z'. */
  method NewLowerChars(g: Rng, length: int) returns (res: Result<Generator.RandomGenerator>, g': Rng)
    requires Valid(g.reader)
    ensures Valid(g'.reader) && |g'.reader.buffer| == |g.reader.buffer|
    ensures SampledString(g, length, Variable.Lowerset, res, g')
    ensures res.Success? ==>
      && res.value.data.StringData?
      && |res.value.data.s| == length
      && (forall i :: 0 <= i < length ==> 'a' as int <= res.value.data.s[i] <= 'z' as int)
  {
    Variable.AlphabetSizes();
    res, g' := StringFromSet(g, length, Variable.Lowerset);
    Variable.BaseSetsAreRuns();
  }

  /** `NewUpperChars`: 'A' .. 'Z'. */
  method NewUpperChars(g: Rng, length: int) returns (res: Result<Generator.RandomGenerator>, g': Rng)
    requires Valid(g.reader)
    ensures Valid(g'.reader) && |g'.reader.buffer| == |g.reader.buffer|
    ensures SampledString(g, length, Variable.Upperset, res, g')
    ensures res.Success? ==>
      && res.value.data.StringData?
      && |res.value.data.s| == length
      && (forall i :: 0 <= i < length ==> 'A' as int <= res.value.data.s[i] <= 'Z' as int)
  {
    Variable.AlphabetSizes();
    res, g' := StringFromSet(g, length, Variable.Upperset);
    Variable.BaseSetsAreRuns();
  }

  /** `NewSymbolChars`: the eight symbols "!@#$%^&*". */
  method NewSymbolChars(g: Rng, length: int) returns (res: Result<Generator.RandomGenerator>, g': Rng)
    requires Valid(g.reader)
    ensures Valid(g'.reader) && |g'.reader.buffer| == |g.reader.buffer|
    ensures SampledString(g, length, Variable.Symbolset, res, g')
    ensures res.Success? ==>
      && res.value.data.StringData?
      && |res.value.data.s| == length
      && (forall i :: 0 <= i < length ==> res.value.data.s[i] in Variable.Symbolset)
  {
    Variable.AlphabetSizes();
    res, g' := StringFromSet(g, length, Variable.Symbolset);
  }

  /** `NewAlphabets`: upper- and lower-case letters. */
  method NewAlphabets(g: Rng, length: int) returns (res: Result<Generator.RandomGenerator>, g': Rng)
    requires Valid(g.reader)
    ensures Valid(g'.reader) && |g'.reader.buffer| == |g.reader.buffer|
    ensures SampledString(g, length, Variable.Alphabetset, res, g')
    ensures res.Success? ==>
      && res.value.data.StringData?
      && |res.value.data.s| == length
      && (forall i :: 0 <= i < length ==> res.value.data.s[i] in Variable.Alphabetset)
  {
    Variable.AlphabetSizes();
    res, g' := StringFromSet(g, length, Variable.Alphabetset);
  }

  /** `NewChars`: letters and digits. */
  method NewChars(g: Rng, length: int) returns (res: Result<Generator.RandomGenerator>, g': Rng)
    requires Valid(g.reader)
    ensures Valid(g'.reader) && |g'.reader.buffer| == |g.reader.buffer|
    ensures SampledString(g, length, Variable.Charset, res, g')
    ensures res.Success? ==>
      && res.value.data.StringData?
      && |res.value.data.s| == length
      && (forall i :: 0 <= i < length ==> res.value.data.s[i] in Variable.Charset)
  {
    Variable.AlphabetSizes();
    res, g' := StringFromSet(g, length, Variable.Charset);
  }

  /** `NewAllChars`: letters, digits and the eight symbols. */
  method NewAllChars(g: Rng, length: int) returns (res: Result<Generator.RandomGenerator>, g': Rng)
    requires Valid(g.reader)
    ensures Valid(g'.reader) && |g'.reader.buffer| == |g.reader.buffer|
    ensures SampledString(g, length, Variable.Allset, res, g')
    ensures res.Success? ==>
      && res.value.data.StringData?
      && |res.value.data.s| == length
      && (forall i :: 0 <= i < length ==> res.value.data.s[i] in Variable.Allset)
  {
    Variable.AlphabetSizes();
    res, g' := StringFromSet(g, length, Variable.Allset);
  }
}

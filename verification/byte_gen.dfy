/** `NewBytes`: a generator holding the next `length` bytes of a reader. */
module ByteGen {
  import opened Base
  import opened BufferReader
  import Generator

  /** Reject a non-positive length before touching the reader, then fill a
      fresh slice of `length` bytes with `io.ReadFull`, which here is one
      `Read` call: `Read` comes back short only together with an error. */
  method NewBytes(g: Rng, length: int) returns (res: Result<Generator.RandomGenerator>, g': Rng)
    requires Valid(g.reader)
    ensures Valid(g'.reader) && |g'.reader.buffer| == |g.reader.buffer|
    ensures length <= 0 ==> res == Failure(InvalidLength) && g' == g
    ensures length > 0 ==> (res.Success? <==> length <= |Deliverable(g)|)
    ensures res.Success? ==>
      res.value.data == Generator.BytesData(Deliverable(g)[..length]) &&
      Deliverable(g') == Deliverable(g)[length..]
    ensures length > 0 && res.Failure? ==> res.error == EntropyUnavailable && Deliverable(g') == []
  {
    if length <= 0 {
      return Failure(InvalidLength), g;
    }
    var count, result, err, after := Read(g, seq(length, i => 0));
    g' := after;
    if err.Some? {
      return Failure(err.value), g';
    }
    return Success(Generator.RandomGenerator(Generator.BytesData(result))), g';
  }
}

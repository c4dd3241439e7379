/** `RandBufferReader`: a fixed-size buffer of entropy with a cursor, refilled
    in full from the operating system's generator whenever it runs dry.

    Every public method of the source runs under the reader's mutex, so each
    is modelled here as one atomic step from a state `Rng` (reader plus
    entropy source) to the next. The central specification function is
    `Deliverable`: the exact bytes the reader will hand out from a given
    state, in order. Each operation is specified as taking a prefix of it
    (no byte skipped, none served twice) and leaving the rest. */
module BufferReader {
  import opened Base
  import Variable

  /** The operating system's generator (`crypto/rand.Reader`), as the finite
      run of bytes it still delivers before it fails. */
  datatype Source = Source(pending: seq<byte>)

  /** `io.ReadFull(rand.Reader, buf)` for a buffer of `n` bytes: either all `n`
      bytes, taken in order from the front of the source, or a failure. */
  function SourceReadFull(src: Source, n: nat): (s: Step<seq<byte>, Source>)
    ensures s.result.Success? <==> n <= |src.pending|
    ensures s.result.Success? ==>
      |s.result.value| == n && s.result.value + s.state.pending == src.pending
    ensures s.result.Failure? ==> s == Step(Failure(EntropyUnavailable), src)
  {
    if n <= |src.pending| then
      Step(Success(src.pending[..n]), Source(src.pending[n..]))
    else
      Step(Failure(EntropyUnavailable), src)
  }

  /** The reader's buffer and its cursor: `buffer[index..]` is still unserved. */
  datatype Reader = Reader(buffer: seq<byte>, index: int)

  /** The reader invariant: a non-empty buffer and a cursor within it. */
  predicate Valid(r: Reader)
  {
    0 < |r.buffer| && 0 <= r.index <= |r.buffer|
  }

  /** A reader together with the entropy source behind it. */
  datatype Rng = Rng(reader: Reader, source: Source)

  /** The part of the source's bytes that successive whole-buffer fills of
      size `n` deliver: every complete chunk of `n`, in order; an incomplete
      final chunk is never delivered because the fill that wants it fails. */
  function Chunked(p: seq<byte>, n: nat): seq<byte>
    requires n > 0
    decreases |p|
  {
    if |p| < n then [] else p[..n] + Chunked(p[n..], n)
  }

  /** Whole-buffer fills lose nothing but an incomplete final chunk: they
      deliver a prefix of the source's bytes that is less than one buffer
      short of all of them. */
  lemma {:induction false} ChunkedIsPrefix(p: seq<byte>, n: nat)
    requires n > 0
    ensures |Chunked(p, n)| <= |p| && Chunked(p, n) == p[..|Chunked(p, n)|]
    ensures |p| - |Chunked(p, n)| < n
    decreases |p|
  {
    if |p| >= n {
      var q := p[n..];
      ChunkedIsPrefix(q, n);
      var c := Chunked(q, n);
      assert Chunked(p, n) == p[..n] + c;
      assert p[..n + |c|] == p[..n] + q[..|c|];
    }
  }

  /** Every byte the reader hands out from state `g` on, in order. */
  function Deliverable(g: Rng): seq<byte>
    requires Valid(g.reader)
  {
    g.reader.buffer[g.reader.index..] + Chunked(g.source.pending, |g.reader.buffer|)
  }

  /** The cursor moved `k` bytes forward. */
  function Advance(g: Rng, k: nat): Rng
  {
    Rng(Reader(g.reader.buffer, g.reader.index + k), g.source)
  }

  /** Serving `k` buffered bytes takes exactly the first `k` deliverable bytes. */
  lemma DeliverableAdvance(g: Rng, k: nat)
    requires Valid(g.reader) && g.reader.index + k <= |g.reader.buffer|
    ensures Valid(Advance(g, k).reader)
    ensures Deliverable(g) ==
      g.reader.buffer[g.reader.index..g.reader.index + k] + Deliverable(Advance(g, k))
  {
    var r := g.reader;
    assert r.buffer[r.index..] == r.buffer[r.index..r.index + k] + r.buffer[r.index + k..];
  }

  /** With the buffer used up, what is left is what the source's whole-buffer
      chunks hold, and that is empty exactly when the next fill would fail. */
  lemma DeliverableExhausted(g: Rng)
    requires Valid(g.reader) && g.reader.index == |g.reader.buffer|
    ensures Deliverable(g) == Chunked(g.source.pending, |g.reader.buffer|)
    ensures |Deliverable(g)| > 0 <==> |g.reader.buffer| <= |g.source.pending|
  {
    assert g.reader.buffer[g.reader.index..] == [];
  }

  /** `fill`: overwrite the whole buffer from the source and reset the cursor.
      On failure nothing changes (the source's partial write into the buffer
      is never served, since the cursor stays at the end). */
  function Fill(g: Rng): (s: Step<(), Rng>)
    requires Valid(g.reader)
    ensures Valid(s.state.reader) && |s.state.reader.buffer| == |g.reader.buffer|
    ensures s.result.Success? <==> |g.reader.buffer| <= |g.source.pending|
    ensures s.result.Success? ==>
      s.state.reader.index == 0 &&
      s.state.reader.buffer + s.state.source.pending == g.source.pending
    ensures s.result.Failure? ==> s == Step(Failure(EntropyUnavailable), g)
    ensures g.reader.index == |g.reader.buffer| ==> Deliverable(s.state) == Deliverable(g)
  {
    var f := SourceReadFull(g.source, |g.reader.buffer|);
    match f.result
    case Success(bytes) => Step(Success(()), Rng(Reader(bytes, 0), f.state))
    case Failure(e) => Step(Failure(e), g)
  }

  /** `NewRandBufferReaderWithSize`: reject a non-positive size, otherwise
      allocate the buffer with the cursor at its end and fill it once. */
  function NewRandBufferReaderWithSize(size: int, src: Source): (s: Step<Reader, Source>)
    ensures size <= 0 ==> s == Step(Failure(InvalidSize), src)
    ensures size > 0 ==> (s.result.Success? <==> size <= |src.pending|)
    ensures s.result.Success? ==>
      Valid(s.result.value) && |s.result.value.buffer| == size && s.result.value.index == 0 &&
      Deliverable(Rng(s.result.value, s.state)) == Chunked(src.pending, size)
    ensures s.result.Failure? ==> s.state == src
  {
    if size <= 0 then
      Step(Failure(InvalidSize), src)
    else
      var empty := Rng(Reader(seq(size, i => 0), size), src);
      var f := Fill(empty);
      match f.result
      case Success(_) => Step(Success(f.state.reader), f.state.source)
      case Failure(e) => Step(Failure(e), src)
  }

  /** `NewRandBufferReader`: a reader with the default buffer size. */
  function NewRandBufferReader(src: Source): (s: Step<Reader, Source>)
    ensures s.result.Success? <==> Variable.DefaultBufferSize <= |src.pending|
    ensures s.result.Success? ==>
      Valid(s.result.value) && |s.result.value.buffer| == Variable.DefaultBufferSize
  {
    NewRandBufferReaderWithSize(Variable.DefaultBufferSize, src)
  }

  /** `Byte` / `byteUnsafe`: refill only when the buffer is exhausted, then
      serve the byte under the cursor and advance the cursor by one. */
  function NextByte(g: Rng): (s: Step<byte, Rng>)
    requires Valid(g.reader)
    ensures Valid(s.state.reader) && |s.state.reader.buffer| == |g.reader.buffer|
    ensures s.result.Success? <==> |Deliverable(g)| > 0
    ensures s.result.Success? ==>
      s.result.value == Deliverable(g)[0] && Deliverable(s.state) == Deliverable(g)[1..]
    ensures s.result.Failure? ==> s == Step(Failure(EntropyUnavailable), g)
    ensures g.reader.index < |g.reader.buffer| ==> s.state == Advance(g, 1)
  {
    if g.reader.index >= |g.reader.buffer| then
      var f := Fill(g);
      DeliverableExhausted(g);
      if f.result.Failure? then
        Step(Failure(f.result.error), g)
      else
        DeliverableAdvance(f.state, 1);
        Step(Success(f.state.reader.buffer[0]), Advance(f.state, 1))
    else
      DeliverableAdvance(g, 1);
      Step(Success(g.reader.buffer[g.reader.index]), Advance(g, 1))
  }

  /** The refill step at the head of `Read`'s loop: when the buffer is used
      up, fill it; either the cursor then has a byte under it, or nothing
      is left to deliver. */
  method RefillIfEmpty(g: Rng) returns (err: Option<Error>, g': Rng)
    requires Valid(g.reader)
    ensures Valid(g'.reader) && |g'.reader.buffer| == |g.reader.buffer|
    ensures Deliverable(g') == Deliverable(g)
    ensures err.None? <==> g'.reader.index < |g'.reader.buffer|
    ensures err.Some? ==> err == Some(EntropyUnavailable) && Deliverable(g) == [] && g' == g
  {
    if g.reader.index < |g.reader.buffer| {
      return None, g;
    }
    DeliverableExhausted(g);
    var f := Fill(g);
    if f.result.Failure? {
      return Some(f.result.error), g;
    }
    return None, f.state;
  }

  /** `Read`: copy into `b` from the buffer, refilling whenever it is
      exhausted, until `b` is full. Returns the count, the new contents of
      `b`, the error if a refill failed, and the new state. */
  method Read(g: Rng, b: seq<byte>) returns (n: int, b': seq<byte>, err: Option<Error>, g': Rng)
    requires Valid(g.reader)
    ensures Valid(g'.reader) && |g'.reader.buffer| == |g.reader.buffer|
    ensures 0 <= n <= |b| && n <= |Deliverable(g)|
    ensures b' == Deliverable(g)[..n] + b[n..]
    ensures Deliverable(g') == Deliverable(g)[n..]
    ensures |b| == 0 ==> g' == g
    ensures err.None? <==> |b| <= |Deliverable(g)|
    ensures err.None? ==> n == |b|
    ensures err.Some? ==> err == Some(EntropyUnavailable) && n < |b| && n == |Deliverable(g)|
  {
    if |b| == 0 {
      return 0, b, None, g;
    }
    ghost var D := Deliverable(g);
    var cur := g;
    n := 0;
    b' := b;
    while n < |b|
      invariant 0 <= n <= |b| && n <= |D| && b' == D[..n] + b[n..]
      invariant Valid(cur.reader) && |cur.reader.buffer| == |g.reader.buffer|
      invariant Deliverable(cur) == D[n..]
      decreases |b| - n
    {
      var e;
      e, cur := RefillIfEmpty(cur);
      if e.Some? {
        return n, b', e, cur;
      }
      var available := |cur.reader.buffer| - cur.reader.index;
      var toCopy := Min(|b| - n, available);
      var chunk := cur.reader.buffer[cur.reader.index..cur.reader.index + toCopy];
      var next := Advance(cur, toCopy);
      CopyAdvance(D, b, n, cur, toCopy);
      b' := b'[..n] + chunk + b'[n + toCopy..];
      cur := next;
      n := n + toCopy;
    }
    return n, b', None, cur;
  }

  /** One iteration of `Read`'s loop: serving `k` buffered bytes copies
      the next `k` deliverable bytes into `b` at offset `n` and leaves the
      rest of the stream. */
  lemma CopyAdvance(D: seq<byte>, b: seq<byte>, n: nat, cur: Rng, k: nat)
    requires Valid(cur.reader) && cur.reader.index + k <= |cur.reader.buffer|
    requires n + k <= |b| && n <= |D| && Deliverable(cur) == D[n..]
    ensures Valid(Advance(cur, k).reader)
    ensures n + k <= |D| && Deliverable(Advance(cur, k)) == D[n + k..]
    ensures var r := cur.reader;
      (D[..n] + b[n..])[..n] + r.buffer[r.index..r.index + k] + (D[..n] + b[n..])[n + k..]
        == D[..n + k] + b[n + k..]
  {
    var r := cur.reader;
    DeliverableAdvance(cur, k);
    CopyStep(D, b, n, r.buffer[r.index..r.index + k], Deliverable(Advance(cur, k)));
  }

  /** One copy step of `Read`: copying the next `|chunk|` deliverable bytes
      into `b` at offset `n` extends the copied prefix by exactly them. */
  lemma CopyStep(D: seq<byte>, b: seq<byte>, n: nat, chunk: seq<byte>, rest: seq<byte>)
    requires n + |chunk| <= |b| && n <= |D| && D[n..] == chunk + rest
    ensures n + |chunk| <= |D| && D[n + |chunk|..] == rest
    ensures (D[..n] + b[n..])[..n] + chunk + (D[..n] + b[n..])[n + |chunk|..]
      == D[..n + |chunk|] + b[n + |chunk|..]
  {
    assert D == D[..n] + chunk + rest;
    assert D[..n + |chunk|] == D[..n] + chunk;
  }

  /** `Bytes`: reject a non-positive count, otherwise read exactly `n` bytes.
      (`io.ReadFull` calls `Read` once: `Read` returns short only with an
      error, which ends `io.ReadFull`'s loop.) */
  method Bytes(g: Rng, n: int) returns (res: Result<seq<byte>>, g': Rng)
    requires Valid(g.reader)
    ensures Valid(g'.reader) && |g'.reader.buffer| == |g.reader.buffer|
    ensures n <= 0 ==> res == Failure(InvalidLength) && g' == g
    ensures n > 0 ==> (res.Success? <==> n <= |Deliverable(g)|)
    ensures res.Success? ==>
      res.value == Deliverable(g)[..n] && Deliverable(g') == Deliverable(g)[n..]
    ensures n > 0 && res.Failure? ==> res.error == EntropyUnavailable && Deliverable(g') == []
  {
    if n <= 0 {
      return Failure(InvalidLength), g;
    }
    var count, result, err, after := Read(g, seq(n, i => 0));
    g' := after;
    if err.Some? {
      return Failure(err.value), g';
    }
    res := Success(result[..count]);
  }

  /** The in-range bytes of `s`, in order: what rejection sampling over
      `[lo, hi]` keeps from the stream `s`. */
  function Accept(s: seq<byte>, lo: byte, hi: byte): (a: seq<byte>)
    ensures |a| <= |s|
  {
    if s == [] then []
    else if lo <= s[0] <= hi then [s[0]] + Accept(s[1..], lo, hi)
    else Accept(s[1..], lo, hi)
  }

  /** One step of the filter, for a non-empty stream. */
  lemma AcceptHead(s: seq<byte>, lo: byte, hi: byte)
    requires s != []
    ensures lo <= s[0] <= hi ==> Accept(s, lo, hi) == [s[0]] + Accept(s[1..], lo, hi)
    ensures !(lo <= s[0] <= hi) ==> Accept(s, lo, hi) == Accept(s[1..], lo, hi)
  {
  }

  /** Every byte rejection sampling keeps lies in the range, and every byte
      of the range that occurs in the stream is kept. */
  lemma {:induction false} AcceptInRange(s: seq<byte>, lo: byte, hi: byte)
    ensures forall i :: 0 <= i < |Accept(s, lo, hi)| ==> lo <= Accept(s, lo, hi)[i] <= hi
    ensures forall i :: 0 <= i < |s| && lo <= s[i] <= hi ==> s[i] in Accept(s, lo, hi)
    decreases |s|
  {
    if s != [] {
      AcceptInRange(s[1..], lo, hi);
      assert forall i :: 0 < i < |s| ==> s[i] == s[1..][i - 1];
    }
  }

  lemma {:induction false} AcceptAppend(s: seq<byte>, t: seq<byte>, lo: byte, hi: byte)
    ensures Accept(s + t, lo, hi) == Accept(s, lo, hi) + Accept(t, lo, hi)
    decreases |s|
  {
    if s == [] {
      assert s + t == t;
    } else {
      assert (s + t)[1..] == s[1..] + t;
      AcceptAppend(s[1..], t, lo, hi);
    }
  }

  /** How many bytes rejection sampling over `[lo, hi]` consumes from `u`
      to obtain one accepted byte: one more than the position of the first
      byte of `u` in the range. */
  function First(u: seq<byte>, lo: byte, hi: byte): (d: nat)
    requires 0 < |Accept(u, lo, hi)|
    ensures 1 <= d <= |u|
    decreases |u|
  {
    if lo <= u[0] <= hi then 1 else 1 + First(u[1..], lo, hi)
  }

  /** The bytes `First` consumes hold exactly the first accepted byte, and
      what it leaves holds the other accepted bytes. */
  lemma {:induction false} FirstSplits(u: seq<byte>, lo: byte, hi: byte)
    requires 0 < |Accept(u, lo, hi)|
    ensures Accept(u[..First(u, lo, hi)], lo, hi) == [Accept(u, lo, hi)[0]]
    ensures Accept(u[First(u, lo, hi)..], lo, hi) == Accept(u, lo, hi)[1..]
    decreases |u|
  {
    var d := First(u, lo, hi);
    var w := u[..d];
    AcceptHead(u, lo, hi);
    AcceptHead(w, lo, hi);
    if lo <= u[0] <= hi {
      assert w[1..] == [];
    } else {
      var t := u[1..];
      FirstSplits(t, lo, hi);
      assert w[1..] == t[..d - 1];
      assert u[d..] == t[d - 1..];
    }
  }

  /** One more draw after `c` bytes: if the bytes from `c` on hold accepted
      bytes `k - 1` onwards, and the next `d` bytes are what one draw
      consumes, then the bytes from `c + d` on hold accepted bytes `k`
      onwards. */
  lemma DrawRest(s: seq<byte>, lo: byte, hi: byte, k: nat, c: nat, d: nat)
    requires 0 < k <= |Accept(s, lo, hi)| && c + d <= |s|
    requires Accept(s[c..], lo, hi) == Accept(s, lo, hi)[k - 1..]
    requires Accept(s[c..][d..], lo, hi) == Accept(s[c..], lo, hi)[1..]
    ensures Accept(s[c + d..], lo, hi) == Accept(s, lo, hi)[k..]
  {
    assert s[c + d..] == s[c..][d..];
  }

  /** How many bytes of `s` rejection sampling consumes to obtain `k`
      in-range bytes: `k` successive draws, each consuming `First` of what
      is left. What it leaves holds the accepted bytes not yet drawn. */
  function Scan(s: seq<byte>, lo: byte, hi: byte, k: nat): (c: nat)
    requires k <= |Accept(s, lo, hi)|
    ensures k <= c <= |s|
    ensures Accept(s[c..], lo, hi) == Accept(s, lo, hi)[k..]
    decreases k
  {
    if k == 0 then
      assert s[0..] == s;
      0
    else
      var done := Scan(s, lo, hi, k - 1);
      var d := First(s[done..], lo, hi);
      FirstSplits(s[done..], lo, hi);
      DrawRest(s, lo, hi, k, done, d);
      done + d
  }

  /** One more draw before `c` bytes: if the first `c` bytes hold the first
      `k - 1` accepted bytes and the next `d` bytes hold exactly the next
      one, the first `c + d` bytes hold the first `k`. */
  lemma DrawPrefix(s: seq<byte>, lo: byte, hi: byte, k: nat, c: nat, d: nat)
    requires 0 < k <= |Accept(s, lo, hi)| && c + d <= |s|
    requires Accept(s[..c], lo, hi) == Accept(s, lo, hi)[..k - 1]
    requires Accept(s[c..], lo, hi) == Accept(s, lo, hi)[k - 1..]
    requires 0 < |Accept(s[c..], lo, hi)|
    requires Accept(s[c..][..d], lo, hi) == [Accept(s[c..], lo, hi)[0]]
    ensures Accept(s[..c + d], lo, hi) == Accept(s, lo, hi)[..k]
  {
    var A := Accept(s, lo, hi);
    assert s[..c + d] == s[..c] + s[c..][..d];
    AcceptAppend(s[..c], s[c..][..d], lo, hi);
    assert A[..k] == A[..k - 1] + [A[k - 1]];
  }

  /** One more draw after a scan for `k` accepted bytes: the bytes left
      start with accepted byte `k`, and the scan for `k + 1` bytes consumes
      `First` of them more. */
  lemma ScanNext(s: seq<byte>, lo: byte, hi: byte, k: nat)
    requires k < |Accept(s, lo, hi)|
    ensures var c := Scan(s, lo, hi, k);
      && 0 < |Accept(s[c..], lo, hi)|
      && Accept(s[c..], lo, hi)[0] == Accept(s, lo, hi)[k]
      && Scan(s, lo, hi, k + 1) == c + First(s[c..], lo, hi)
      && s[c..][First(s[c..], lo, hi)..] == s[c + First(s[c..], lo, hi)..]
  {
    var c := Scan(s, lo, hi, k);
    var d := First(s[c..], lo, hi);
    assert s[c..][d..] == s[c + d..];
  }

  /** The bytes a scan for `k` accepted bytes consumes hold exactly the
      first `k` accepted bytes: every byte it discards lies outside the
      range. */
  lemma {:induction false} ScanPrefix(s: seq<byte>, lo: byte, hi: byte, k: nat)
    requires k <= |Accept(s, lo, hi)|
    ensures Accept(s[..Scan(s, lo, hi, k)], lo, hi) == Accept(s, lo, hi)[..k]
    decreases k
  {
    if k == 0 {
      assert s[..0] == [];
      assert Scan(s, lo, hi, 0) == 0;
      assert Accept(s[..Scan(s, lo, hi, k)], lo, hi) == Accept(s, lo, hi)[..k];
    } else {
      var c := Scan(s, lo, hi, k - 1);
      var d := First(s[c..], lo, hi);
      assert Scan(s, lo, hi, k) == c + d;
      ScanPrefix(s, lo, hi, k - 1);
      FirstSplits(s[c..], lo, hi);
      DrawPrefix(s, lo, hi, k, c, d);
      assert s[..Scan(s, lo, hi, k)] == s[..c + d];
      assert Accept(s[..Scan(s, lo, hi, k)], lo, hi) == Accept(s, lo, hi)[..k];
    }
  }

  /** The first accepted byte: if every byte before position `d` is
      rejected and `s[d]` is accepted, then `s[d]` heads the accepted bytes
      and one draw consumes `d + 1` bytes. */
  lemma {:induction false} FirstAt(s: seq<byte>, lo: byte, hi: byte, d: nat)
    requires d < |s| && Accept(s[..d], lo, hi) == [] && lo <= s[d] <= hi
    ensures 0 < |Accept(s, lo, hi)| && Accept(s, lo, hi)[0] == s[d]
    ensures First(s, lo, hi) == d + 1
    decreases |s|
  {
    AcceptHead(s, lo, hi);
    if d > 0 {
      var t := s[1..];
      var w := s[..d];
      AcceptHead(w, lo, hi);
      assert w[0] == s[0] && w[1..] == t[..d - 1];
      FirstAt(t, lo, hi, d - 1);
    }
  }

  /** Storing accepted byte number `n` at position `n` of `b` extends the
      filled prefix by one. */
  lemma StoreStep(a: seq<byte>, b: seq<byte>, n: nat)
    requires n < |a| && n < |b|
    ensures (a[..n] + b[n..])[n := a[n]] == a[..n + 1] + b[n + 1..]
  {
  }

  /** The inner loop of `ReadRange`: draw bytes until one lies in
      `[lo, hi]`, discarding the others. It yields the first accepted byte
      of the stream and leaves the stream just after it. */
  method NextInRange(g: Rng, lo: byte, hi: byte) returns (t: byte, err: Option<Error>, g': Rng)
    requires Valid(g.reader)
    ensures Valid(g'.reader) && |g'.reader.buffer| == |g.reader.buffer|
    ensures err.None? <==> 0 < |Accept(Deliverable(g), lo, hi)|
    ensures err.None? ==>
      t == Accept(Deliverable(g), lo, hi)[0] &&
      Deliverable(g') == Deliverable(g)[First(Deliverable(g), lo, hi)..]
    ensures err.Some? ==> err == Some(EntropyUnavailable) && Deliverable(g') == []
  {
    ghost var D := Deliverable(g);
    ghost var d := 0;
    g' := g;
    while true
      invariant Valid(g'.reader) && |g'.reader.buffer| == |g.reader.buffer|
      invariant d <= |D| && Deliverable(g') == D[d..]
      invariant Accept(D[..d], lo, hi) == []
      decreases |D| - d
    {
      var s := NextByte(g');
      if s.result.Failure? {
        StreamEnd(D, d);
        return 0, Some(s.result.error), g';
      }
      StreamHead(D, d, Deliverable(g'));
      g' := s.state;
      t := s.result.value;
      if lo <= t <= hi {
        FirstAt(D, lo, hi, d);
        return t, None, g';
      }
      Rejected(D, d, lo, hi);
      d := d + 1;
    }
  }

  /** The stream seen from position `d`: its head is `D[d]`, its tail what
      follows position `d`. */
  lemma StreamHead(D: seq<byte>, d: nat, rest: seq<byte>)
    requires d < |D| && D[d..] == rest
    ensures rest != [] && rest[0] == D[d] && rest[1..] == D[d + 1..]
  {
  }

  /** Nothing left from position `d` on: `d` bytes were all of it. */
  lemma StreamEnd(D: seq<byte>, d: nat)
    requires d <= |D| && D[d..] == []
    ensures D[..d] == D
  {
  }

  /** A rejected byte after rejected bytes leaves nothing accepted. */
  lemma Rejected(D: seq<byte>, d: nat, lo: byte, hi: byte)
    requires d < |D| && !(lo <= D[d] <= hi) && Accept(D[..d], lo, hi) == []
    ensures Accept(D[..d + 1], lo, hi) == []
  {
    assert D[..d + 1] == D[..d] + [D[d]];
    AcceptAppend(D[..d], [D[d]], lo, hi);
  }

  /** `ReadRange`: an empty `b` returns at once; an inverted range fails
      before anything is read; otherwise each position of `b` receives the
      next byte of the stream that lies in `[lo, hi]`, bytes outside the
      range being drawn and discarded. */
  method ReadRange(g: Rng, b: seq<byte>, lo: byte, hi: byte)
    returns (n: int, b': seq<byte>, err: Option<Error>, g': Rng)
    requires Valid(g.reader)
    ensures Valid(g'.reader) && |g'.reader.buffer| == |g.reader.buffer|
    ensures 0 <= n <= |b|
    ensures |b| == 0 ==> n == 0 && err.None? && b' == b && g' == g
    ensures |b| > 0 && lo > hi ==> n == 0 && err == Some(InvalidRange) && b' == b && g' == g
    ensures |b| > 0 && lo <= hi ==>
      var accepted := Accept(Deliverable(g), lo, hi);
      && n <= |accepted| && b' == accepted[..n] + b[n..]
      && (err.None? <==> |b| <= |accepted|)
      && (err.None? ==>
            n == |b| && Deliverable(g') == Deliverable(g)[Scan(Deliverable(g), lo, hi, n)..])
      && (err.Some? ==> err == Some(EntropyUnavailable) && n == |accepted| && Deliverable(g') == [])
  {
    if |b| == 0 {
      return 0, b, None, g;
    }
    if lo > hi {
      return 0, b, Some(InvalidRange), g;
    }
    ghost var D := Deliverable(g);
    ghost var A := Accept(D, lo, hi);
    ghost var c := 0;
    var cur := g;
    b' := b;
    n := 0;
    while n < |b|
      invariant 0 <= n <= |b| && n <= |A| && b' == A[..n] + b[n..]
      invariant Valid(cur.reader) && |cur.reader.buffer| == |g.reader.buffer|
      invariant c == Scan(D, lo, hi, n) && Deliverable(cur) == D[c..]
      decreases |b| - n
    {
      var t, e, next := NextInRange(cur, lo, hi);
      if e.Some? {
        assert |Accept(D[c..], lo, hi)| == |A| - n;
        return n, b', e, next;
      }
      ScanNext(D, lo, hi, n);
      StoreStep(A, b, n);
      b' := b'[n := t];
      c := c + First(D[c..], lo, hi);
      cur := next;
      n := n + 1;
    }
    return n, b', None, cur;
  }

  /** `crypto/rand.Int` reading from a `RandBufferReader`: the values it
      returns lie below the bound, and it leaves a valid reader with the
      buffer size unchanged, since it only calls `Read`. */
  type ReaderIntOracle = draw: IntOracle<Rng>
    | forall g: Rng, bound: int :: Valid(g.reader) ==>
        Valid(draw(g, bound).state.reader) &&
        |draw(g, bound).state.reader.buffer| == |g.reader.buffer|
    witness (g: Rng, bound: int) => Step(Failure(EntropyUnavailable), g)

  /** Every byte of the stream lies in the full byte range, so filtering
      on it keeps everything and a scan for `k` bytes consumes `k`. */
  lemma {:induction false} AcceptFullRange(s: seq<byte>, k: nat)
    requires k <= |s|
    ensures Accept(s, 0, 255) == s
    ensures Scan(s, 0, 255, k) == k
    decreases |s| + k
  {
    if s != [] {
      AcceptHead(s, 0, 255);
      AcceptFullRange(s[1..], 0);
    }
    if k > 0 {
      AcceptFullRange(s, k - 1);
    }
  }
}

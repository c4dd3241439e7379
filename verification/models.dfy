/** The integer character tables of the `models` package. Each base table
    is a run of consecutive ASCII codes filled by a loop in `init`; the
    combined tables are concatenations of the base ones. */
module Models {
  const NumStart: int := 48      // '0'
  const NumEnd: int := 57        // '9'
  const LowerStart: int := 97    // 'a'
  const LowerEnd: int := 122     // 'z'
  const UpperStart: int := 65    // 'A'
  const UpperEnd: int := 90      // 'Z'
  const Symbol1Start: int := 33  // '!'
  const Symbol1End: int := 47    // '/'
  const Symbol2Start: int := 58  // ':'
  const Symbol2End: int := 64    // '@'

  /** The consecutive codes `start, start + 1, ..., end`. */
  function Run(start: int, end: int): (r: seq<int>)
    requires start <= end + 1
    ensures |r| == end - start + 1
  {
    seq(end - start + 1, i => start + i)
  }

  const Numset: seq<int> := Run(NumStart, NumEnd)
  const Lowerset: seq<int> := Run(LowerStart, LowerEnd)
  const Upperset: seq<int> := Run(UpperStart, UpperEnd)
  const Symbolset: seq<int> := Run(Symbol1Start, Symbol1End) + Run(Symbol2Start, Symbol2End)
  const Alphabetset: seq<int> := Upperset + Lowerset
  const Charset: seq<int> := Numset + Upperset + Lowerset
  const Allset: seq<int> := Numset + Upperset + Lowerset + Symbolset

  /** The seven package-level tables, as `init` leaves them. */
  datatype Tables = Tables(
    numset: seq<int>, lowerset: seq<int>, upperset: seq<int>, symbolset: seq<int>,
    alphabetset: seq<int>, charset: seq<int>, allset: seq<int>)

  /** One `init` loop: `table[at + i] = start + i` for `i` in `[0, count)`,
      every other slot left as it was. */
  method FillRun(table: seq<int>, at: nat, start: int, count: nat) returns (t: seq<int>)
    requires at + count <= |table|
    ensures t == table[..at] + Run(start, start + count - 1) + table[at + count..]
  {
    t := table;
    for i := 0 to count
      invariant |t| == |table|
      invariant forall j :: 0 <= j < |t| ==>
        t[j] == (if at <= j < at + i then start + (j - at) else table[j])
    {
      t := t[at + i := start + i];
    }
    assert forall j :: 0 <= j < |t| ==>
      t[j] == (table[..at] + Run(start, start + count - 1) + table[at + count..])[j];
  }

  /** `init`: allocate the base tables zeroed, fill them run by run, then
      concatenate them into the combined tables. */
  method Init() returns (t: Tables)
    ensures t == Tables(Numset, Lowerset, Upperset, Symbolset, Alphabetset, Charset, Allset)
  {
    var numset := seq(NumEnd - NumStart + 1, _ => 0);
    var lowerset := seq(LowerEnd - LowerStart + 1, _ => 0);
    var upperset := seq(UpperEnd - UpperStart + 1, _ => 0);
    var symbolset := seq((Symbol1End - Symbol1Start + 1) + (Symbol2End - Symbol2Start + 1), _ => 0);
    numset := FillRun(numset, 0, NumStart, NumEnd - NumStart + 1);
    lowerset := FillRun(lowerset, 0, LowerStart, LowerEnd - LowerStart + 1);
    upperset := FillRun(upperset, 0, UpperStart, UpperEnd - UpperStart + 1);
    symbolset := FillRun(symbolset, 0, Symbol1Start, Symbol1End - Symbol1Start + 1);
    symbolset := FillRun(symbolset, Symbol1End - Symbol1Start + 1, Symbol2Start, Symbol2End - Symbol2Start + 1);
    assert numset == Numset;
    assert lowerset == Lowerset;
    assert upperset == Upperset;
    assert symbolset == Symbolset;
    t := Tables(numset, lowerset, upperset, symbolset,
                upperset + lowerset, numset + upperset + lowerset,
                numset + upperset + lowerset + symbolset);
  }

  /** No code occurs twice. */
  predicate Distinct(s: seq<int>)
  {
    forall i, j :: 0 <= i < j < |s| ==> s[i] != s[j]
  }

  /** A run holds exactly the codes between its ends, each once. */
  lemma RunContents(start: int, end: int)
    requires start <= end + 1
    ensures forall x :: x in Run(start, end) <==> start <= x <= end
    ensures Distinct(Run(start, end))
  {
    var r := Run(start, end);
    forall x | start <= x <= end
      ensures x in r
    {
      assert r[x - start] == x;
    }
  }

  /** Concatenating two duplicate-free tables with no code in common gives
      a duplicate-free table. */
  lemma ConcatDistinct(a: seq<int>, b: seq<int>)
    requires Distinct(a) && Distinct(b)
    requires forall x :: x in a ==> x !in b
    ensures Distinct(a + b)
  {
    var c := a + b;
    forall i, j | 0 <= i < j < |c|
      ensures c[i] != c[j]
    {
      if j < |a| {
        assert c[i] == a[i] && c[j] == a[j];
      } else if i >= |a| {
        assert c[i] == b[i - |a|] && c[j] == b[j - |a|];
      } else {
        assert c[i] == a[i] && c[j] == b[j - |a|];
        assert c[i] in a && c[j] in b;
      }
    }
  }

  /** The sizes the tests of the `models` package expect. */
  lemma TableSizes()
    ensures |Numset| == 10 && |Lowerset| == 26 && |Upperset| == 26 && |Symbolset| == 22
    ensures |Alphabetset| == 52 && |Charset| == 62 && |Allset| == 84
  {
  }

  /** What each base table holds. */
  lemma BaseContents()
    ensures forall x :: x in Numset <==> 48 <= x <= 57
    ensures forall x :: x in Lowerset <==> 97 <= x <= 122
    ensures forall x :: x in Upperset <==> 65 <= x <= 90
    ensures forall x :: x in Symbolset <==> 33 <= x <= 47 || 58 <= x <= 64
    ensures Distinct(Numset) && Distinct(Lowerset) && Distinct(Upperset) && Distinct(Symbolset)
  {
    RunContents(NumStart, NumEnd);
    RunContents(LowerStart, LowerEnd);
    RunContents(UpperStart, UpperEnd);
    RunContents(Symbol1Start, Symbol1End);
    RunContents(Symbol2Start, Symbol2End);
    ConcatDistinct(Run(Symbol1Start, Symbol1End), Run(Symbol2Start, Symbol2End));
  }

  /** The four base tables are pairwise disjoint. */
  lemma BaseTablesDisjoint()
    ensures forall x :: x in Numset ==> x !in Lowerset && x !in Upperset && x !in Symbolset
    ensures forall x :: x in Lowerset ==> x !in Upperset && x !in Symbolset
    ensures forall x :: x in Upperset ==> x !in Symbolset
  {
    BaseContents();
  }

  /** `Charset` is exactly the ASCII digits and letters, each once. */
  lemma CharsetContents()
    ensures forall x :: x in Charset <==> 48 <= x <= 57 || 65 <= x <= 90 || 97 <= x <= 122
    ensures Distinct(Charset)
  {
    BaseContents();
    ConcatDistinct(Numset, Upperset);
    ConcatDistinct(Numset + Upperset, Lowerset);
  }

  /** `Allset` is exactly the printable ASCII codes from '!' to 'z' except
      the six between 'Z' and 'a', each once; in particular every code lies
      in `[33, 122]` and fits in a byte. */
  lemma AllsetContents()
    ensures forall x :: x in Allset <==> 33 <= x <= 122 && !(91 <= x <= 96)
    ensures Distinct(Allset)
  {
    CharsetContents();
    BaseContents();
    ConcatDistinct(Charset, Symbolset);
  }

  /** `Alphabetset` is exactly the ASCII letters, each once. */
  lemma AlphabetsetContents()
    ensures forall x :: x in Alphabetset <==> 65 <= x <= 90 || 97 <= x <= 122
    ensures Distinct(Alphabetset)
  {
    BaseContents();
    ConcatDistinct(Upperset, Lowerset);
  }
}

/** The package-level constants and byte alphabets of `variable.go`. */
module Variable {
  import opened Base

  /** Working precision, in bits, of the `big.Float` generators. */
  const Precision: nat := 256

  /** Capacity of the buffer behind the package's default reader. */
  const DefaultBufferSize: nat := 256

  /** '0' .. '9' */
  const Numset: seq<byte> := [48, 49, 50, 51, 52, 53, 54, 55, 56, 57]

  /** 'a' .. 'z' */
  const Lowerset: seq<byte> :=
    [97, 98, 99, 100, 101, 102, 103, 104, 105, 106, 107, 108, 109,
     110, 111, 112, 113, 114, 115, 116, 117, 118, 119, 120, 121, 122]

  /** 'A' .. 'Z' */
  const Upperset: seq<byte> :=
    [65, 66, 67, 68, 69, 70, 71, 72, 73, 74, 75, 76, 77,
     78, 79, 80, 81, 82, 83, 84, 85, 86, 87, 88, 89, 90]

  /** '!' '@' '#' '$' '%' '^' '&' '*' */
  const Symbolset: seq<byte> := [33, 64, 35, 36, 37, 94, 38, 42]

  /** `append(upperset, lowerset...)`: `upperset` is a literal filled to
      capacity, so the append copies and the two tables do not alias. */
  const Alphabetset: seq<byte> := Upperset + Lowerset

  /** `append(alphabetset, numset...)` */
  const Charset: seq<byte> := Alphabetset + Numset

  /** `append(charset, symbolset...)` */
  const Allset: seq<byte> := Charset + Symbolset

  /** `s` is the run of consecutive byte values starting at `first`. */
  predicate IsRun(s: seq<byte>, first: int)
  {
    forall i :: 0 <= i < |s| ==> s[i] == first + i
  }

  /** The three base alphabets are the contiguous ASCII runs of digits,
      lower-case and upper-case letters. */
  lemma BaseSetsAreRuns()
    ensures |Numset| == 10 && IsRun(Numset, '0' as int)
    ensures |Lowerset| == 26 && IsRun(Lowerset, 'a' as int)
    ensures |Upperset| == 26 && IsRun(Upperset, 'A' as int)
  {
  }

  /** The symbol alphabet is exactly the eight bytes of "!@#$%^&*", in order. */
  lemma SymbolsetIsExact()
    ensures |Symbolset| == 8
    ensures Symbolset == ['!' as int, '@' as int, '#' as int, '$' as int,
                          '%' as int, '^' as int, '&' as int, '*' as int]
  {
  }

  /** The composite alphabets are concatenations of the base ones, with the
      sizes that follow. */
  lemma CompositeSets()
    ensures Alphabetset == Upperset + Lowerset && |Alphabetset| == 52
    ensures Charset == Upperset + Lowerset + Numset && |Charset| == 62
    ensures Allset == Upperset + Lowerset + Numset + Symbolset && |Allset| == 70
  {
  }

  /** Every named alphabet has between 1 and 255 symbols, the range on which
      `NewRandomFromSet`'s byte mapping is well defined. */
  lemma AlphabetSizes()
    ensures 1 <= |Numset| <= 255 && 1 <= |Lowerset| <= 255 && 1 <= |Upperset| <= 255
    ensures 1 <= |Symbolset| <= 255 && 1 <= |Alphabetset| <= 255
    ensures 1 <= |Charset| <= 255 && 1 <= |Allset| <= 255
  {
  }
}

/** The textual renderings the package relies on: Go's `%d` for integers
    (also `(*big.Int).String()`), and `%x` for byte slices. Go strings are
    byte sequences, so text is `seq<byte>` here. Each rendering comes with
    the parser that inverts it. */
module Text {
  import opened Base

  const Minus: byte := 45   // '-'
  const Zero: byte := 48    // '0'

  predicate IsDigit(c: byte)
  {
    48 <= c <= 57
  }

  predicate AllDigits(s: seq<byte>)
  {
    forall i :: 0 <= i < |s| ==> IsDigit(s[i])
  }

  function DigitChar(d: nat): byte
    requires d < 10
  {
    48 + d
  }

  /** The decimal digits of `n`, most significant first, without leading
      zeros (so `0` is the single digit "0"). */
  function Digits(n: nat): (s: seq<byte>)
    ensures |s| >= 1 && AllDigits(s)
    ensures |s| > 1 ==> s[0] != Zero
    decreases n
  {
    if n < 10 then [DigitChar(n)] else Digits(n / 10) + [DigitChar(n % 10)]
  }

  /** Go's `fmt.Sprintf("%d", i)`: an optional minus sign, then the digits
      of the magnitude. */
  function Decimal(i: int): (s: seq<byte>)
    ensures |s| >= 1
    ensures i >= 0 ==> AllDigits(s)
    ensures i < 0 ==> s[0] == Minus && AllDigits(s[1..])
  {
    if i < 0 then [Minus] + Digits(-i) else Digits(i)
  }

  /** The number a digit string denotes. */
  function DigitsValue(s: seq<byte>): nat
    requires AllDigits(s)
  {
    if s == [] then 0 else 10 * DigitsValue(s[..|s| - 1]) + (s[|s| - 1] - Zero)
  }

  /** Read back `%d` text: an optional minus sign followed by at least one digit. */
  function ParseDecimal(s: seq<byte>): (r: Option<int>)
    ensures r.Some? ==> 1 <= |s|
  {
    if 2 <= |s| && s[0] == Minus && AllDigits(s[1..]) then Some(-(DigitsValue(s[1..]) as int))
    else if 1 <= |s| && AllDigits(s) then Some(DigitsValue(s))
    else None
  }

  /** Reading the digits of `n` back gives `n`. */
  lemma {:induction false} DigitsRoundTrip(n: nat)
    ensures DigitsValue(Digits(n)) == n
    decreases n
  {
    var s := Digits(n);
    if n >= 10 {
      DigitsRoundTrip(n / 10);
      assert s[..|s| - 1] == Digits(n / 10);
    }
  }

  /** `%d` text parses back to the integer it renders. */
  lemma DecimalRoundTrip(i: int)
    ensures ParseDecimal(Decimal(i)) == Some(i)
  {
    if i < 0 {
      DigitsRoundTrip(-i);
      assert Decimal(i)[1..] == Digits(-i);
    } else {
      DigitsRoundTrip(i);
    }
  }

  /** Rendering is injective: distinct integers have distinct `%d` texts. */
  lemma DecimalInjective(i: int, j: int)
    ensures Decimal(i) == Decimal(j) <==> i == j
  {
    if Decimal(i) == Decimal(j) {
      DecimalRoundTrip(i);
      DecimalRoundTrip(j);
    }
  }

  lemma {:induction false} Pow10Monotone(a: nat, b: nat)
    requires a < b
    ensures Pow10(a) < Pow10(b)
    decreases b
  {
    if a < b - 1 {
      Pow10Monotone(a, b - 1);
    }
  }

  /** A positive number with `k` digits lies in `[10^(k-1), 10^k)`. */
  lemma {:induction false} DigitsMagnitude(n: nat)
    requires n >= 1
    ensures Pow10(|Digits(n)| - 1) <= n < Pow10(|Digits(n)|)
    decreases n
  {
    if n >= 10 {
      DigitsMagnitude(n / 10);
      assert |Digits(n)| == |Digits(n / 10)| + 1;
    }
  }

  /** The digit count of a positive number is `k` exactly when it lies in
      `[10^(k-1), 10^k)`. */
  lemma DigitCount(n: nat, k: nat)
    requires n >= 1 && k >= 1
    ensures |Digits(n)| == k <==> Pow10(k - 1) <= n < Pow10(k)
  {
    DigitsMagnitude(n);
    var m := |Digits(n)|;
    if m < k - 1 {
      Pow10Monotone(m, k - 1);
    }
    if k < m - 1 {
      Pow10Monotone(k, m - 1);
    }
  }

  /** The lower-case hexadecimal digit of `d`. */
  function HexDigit(d: nat): byte
    requires d < 16
  {
    if d < 10 then 48 + d else 87 + d
  }

  /** The value of a lower-case hexadecimal digit. */
  function HexValue(c: byte): Option<nat>
  {
    if 48 <= c <= 57 then Some(c - 48)
    else if 97 <= c <= 102 then Some(c - 87)
    else None
  }

  /** Go's `fmt.Sprintf("%x", bs)` on a byte slice: two lower-case
      hexadecimal digits per byte, high nibble first. */
  function HexEncode(bs: seq<byte>): (s: seq<byte>)
    ensures |s| == 2 * |bs|
  {
    if bs == [] then [] else [HexDigit(bs[0] / 16), HexDigit(bs[0] % 16)] + HexEncode(bs[1..])
  }

  /** Read back `%x` text: pairs of lower-case hexadecimal digits. */
  function HexDecode(s: seq<byte>): (r: Option<seq<byte>>)
    ensures r.Some? ==> 2 * |r.value| == |s|
  {
    if s == [] then Some([])
    else if |s| == 1 then None
    else match (HexValue(s[0]), HexValue(s[1]), HexDecode(s[2..]))
      case (Some(hi), Some(lo), Some(rest)) => Some([16 * hi + lo] + rest)
      case _ => None
  }

  /** Every hexadecimal digit reads back as its value. */
  lemma HexDigitValue(d: nat)
    requires d < 16
    ensures HexValue(HexDigit(d)) == Some(d)
  {
  }

  /** `%x` text decodes back to the bytes it renders. */
  lemma {:induction false} HexRoundTrip(bs: seq<byte>)
    ensures HexDecode(HexEncode(bs)) == Some(bs)
  {
    if bs != [] {
      var s := HexEncode(bs);
      HexDigitValue(bs[0] / 16);
      HexDigitValue(bs[0] % 16);
      assert s[2..] == HexEncode(bs[1..]);
      HexRoundTrip(bs[1..]);
      assert [bs[0]] + bs[1..] == bs;
    }
  }

  /** Byte `i` of the input becomes characters `2i` (high nibble) and
      `2i + 1` (low nibble) of the text. */
  lemma {:induction false} HexEncodeAt(bs: seq<byte>, i: nat)
    requires i < |bs|
    ensures HexEncode(bs)[2 * i] == HexDigit(bs[i] / 16)
    ensures HexEncode(bs)[2 * i + 1] == HexDigit(bs[i] % 16)
  {
    if i > 0 {
      HexEncodeAt(bs[1..], i - 1);
    }
  }

  /** `%x` of a concatenation is the concatenation of the texts. */
  lemma {:induction false} HexEncodeAppend(a: seq<byte>, b: seq<byte>)
    ensures HexEncode(a + b) == HexEncode(a) + HexEncode(b)
  {
    if a != [] {
      assert (a + b)[1..] == a[1..] + b;
      HexEncodeAppend(a[1..], b);
    } else {
      assert a + b == b;
    }
  }
}

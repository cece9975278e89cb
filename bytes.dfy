/** Byte strings, fixed-width integers and the decimal text that C++ stream
    insertion (`os << int64_t`, `os << uint64_t`) writes for them. */
module Bytes {

  datatype Option<+T> = None | Some(value: T)

  /** One byte of a `std::string` or of the text handed across the bridge. */
  type byte = x: int | 0 <= x < 256

  /** A native string: the bytes of a `std::string` (no encoding is implied). */
  type Text = seq<byte>

  type int32 = x: int | -0x8000_0000 <= x < 0x8000_0000
  type int64 = x: int | -0x8000_0000_0000_0000 <= x < 0x8000_0000_0000_0000
  type uint64 = x: int | 0 <= x < 0x1_0000_0000_0000_0000

  const QUOTE: byte := 34      // "
  const COMMA: byte := 44      // ,
  const MINUS: byte := 45      // -
  const SLASH: byte := 47      // /
  const ZERO: byte := 48       // 0
  const COLON: byte := 58      // :
  const LBRACKET: byte := 91   // [
  const BACKSLASH: byte := 92  // \
  const RBRACKET: byte := 93   // ]
  const LBRACE: byte := 123    // {
  const RBRACE: byte := 125    // }

  /** The bytes of an ASCII literal written in the model (every literal used
      here is ASCII; a wider character would map to 0). */
  function Ascii(s: string): Text
  {
    seq(|s|, i requires 0 <= i < |s| => if s[i] as int < 256 then s[i] as int else 0)
  }

  predicate StartsWith(s: Text, prefix: Text)
  {
    |prefix| <= |s| && s[..|prefix|] == prefix
  }

  predicate EndsWith(s: Text, suffix: Text)
  {
    |suffix| <= |s| && s[|s| - |suffix|..] == suffix
  }

  /** No control byte (below 0x20), so in particular no NUL. */
  predicate Printable(t: Text)
  {
    forall i :: 0 <= i < |t| ==> t[i] >= 0x20
  }

  lemma PrintableAppend(a: Text, b: Text)
    ensures Printable(a + b) <==> Printable(a) && Printable(b)
  {
    if Printable(a) && Printable(b) {
      forall i | 0 <= i < |a + b|
        ensures (a + b)[i] >= 0x20
      {
        if i >= |a| {
          assert (a + b)[i] == b[i - |a|];
        }
      }
    }
    if Printable(a + b) {
      forall i | 0 <= i < |a|
        ensures a[i] >= 0x20
      {
        assert (a + b)[i] == a[i];
      }
      forall i | 0 <= i < |b|
        ensures b[i] >= 0x20
      {
        assert (a + b)[|a| + i] == b[i];
      }
    }
  }

  /** `(int64_t) n` for an unsigned count `n` (a `size_t` / `idx_t`): the low
      64 bits, read as two's complement. */
  function WrapInt64(n: nat): (r: int64)
    ensures n < 0x8000_0000_0000_0000 ==> r == n
    ensures r % 0x1_0000_0000_0000_0000 == n % 0x1_0000_0000_0000_0000
  {
    var low := n % 0x1_0000_0000_0000_0000;
    if low < 0x8000_0000_0000_0000 then low else low - 0x1_0000_0000_0000_0000
  }

  predicate IsDigit(b: byte)
  {
    ZERO <= b <= ZERO + 9
  }

  predicate AllDigits(t: Text)
  {
    forall i :: 0 <= i < |t| ==> IsDigit(t[i])
  }

  /** Decimal digits of `n`, most significant first, no leading zeros. */
  function Digits(n: nat): Text
    decreases n
  {
    if n < 10 then [ZERO + n] else Digits(n / 10) + [ZERO + n % 10]
  }

  /** What `std::ostream << v` writes for an integer `v` under the default
      flags: an optional `-` and the decimal digits of `|v|`. */
  function DecimalText(v: int): Text
  {
    if v < 0 then [MINUS] + Digits(-v) else Digits(v)
  }

  /** The value of a run of decimal digits. */
  function DigitsValue(t: Text): nat
    requires AllDigits(t)
  {
    if t == [] then 0 else DigitsValue(t[..|t| - 1]) * 10 + (t[|t| - 1] - ZERO)
  }

  /** A reader for the `int` production of RFC 8259 section 6:
      `[ minus ] ( "0" / digit1-9 *DIGIT )`; anything else is `None`. */
  function ParseInteger(t: Text): Option<int>
  {
    var negative := |t| > 0 && t[0] == MINUS;
    var d := if negative then t[1..] else t;
    if |d| == 0 || !AllDigits(d) || (d[0] == ZERO && |d| > 1) then None
    else
      var magnitude: int := DigitsValue(d);
      var value := if negative then -magnitude else magnitude;
      Some(value)
  }

  lemma {:induction false} DigitsFacts(n: nat)
    ensures |Digits(n)| >= 1
    ensures AllDigits(Digits(n))
    ensures DigitsValue(Digits(n)) == n
    ensures n > 0 ==> Digits(n)[0] != ZERO
    decreases n
  {
    if n >= 10 {
      DigitsFacts(n / 10);
      var t := Digits(n);
      assert t[..|t| - 1] == Digits(n / 10);
      assert t[0] == Digits(n / 10)[0];
    }
  }

  /** Whatever integer the stream writes, a strict reader of RFC 8259 integers
      reads back exactly that integer, at any width. */
  lemma DecimalRoundTrip(v: int)
    ensures ParseInteger(DecimalText(v)) == Some(v)
  {
    if v < 0 {
      NegativeRoundTrip(v);
    } else {
      DigitsFacts(v);
    }
  }

  lemma NegativeRoundTrip(v: int)
    requires v < 0
    ensures ParseInteger(DecimalText(v)) == Some(v)
  {
    var d := Digits(-v);
    DigitsFacts(-v);
    var t := DecimalText(v);
    assert t == [MINUS] + d;
    assert t[1..] == d;
    assert t[0] == MINUS;
  }

  /** The text of an integer is never empty and holds nothing but digits and
      a leading minus sign; a non-negative value has no minus sign. */
  lemma DecimalTextShape(v: int)
    ensures |DecimalText(v)| >= 1
    ensures forall i :: 0 <= i < |DecimalText(v)| ==> IsDigit(DecimalText(v)[i]) || (i == 0 && v < 0 && DecimalText(v)[i] == MINUS)
    ensures v >= 0 ==> AllDigits(DecimalText(v))
  {
    if v < 0 { DigitsFacts(-v); } else { DigitsFacts(v); }
  }
}

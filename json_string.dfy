/** `escapeJsonString` of both bridges, and a reader for the string grammar of
    section 7 of RFC 8259 that undoes it. */
module JsonString {
  import opened Bytes

  /** A lower-case hexadecimal digit, as `std::hex` writes it. */
  function HexDigit(d: nat): byte
    requires d < 16
  {
    if d < 10 then ZERO + d else 87 + d
  }

  /** `std::hex << std::setw(4) << std::setfill('0') << c` for a control
      byte `c <= 0x1F` (the only bytes it is applied to): two zero pads, then
      the two lower-case hex digits of `c`. */
  function Hex4(c: byte): Text
    requires c <= 0x1F
  {
    if c < 16 then [ZERO, ZERO, ZERO, HexDigit(c)] else [ZERO, ZERO, ZERO + 1, HexDigit(c - 16)]
  }

  /** The escape table of the `switch` in `escapeJsonString`. */
  function EscapeByte(c: byte): Text
  {
    if c == QUOTE then [BACKSLASH, QUOTE]
    else if c == BACKSLASH then [BACKSLASH, BACKSLASH]
    else if c == 0x08 then [BACKSLASH, 98]    // \b
    else if c == 0x0C then [BACKSLASH, 102]   // \f
    else if c == 0x0A then [BACKSLASH, 110]   // \n
    else if c == 0x0D then [BACKSLASH, 114]   // \r
    else if c == 0x09 then [BACKSLASH, 116]   // \t
    else if c <= 0x1F then [BACKSLASH, 117] + Hex4(c)   // \u00XX
    else [c]
  }

  /** The escaped bytes between the quotes. */
  function EscapedBody(s: Text): Text
  {
    if s == [] then [] else EscapeByte(s[0]) + EscapedBody(s[1..])
  }

  /** The string literal `escapeJsonString(s)` returns. */
  function Escaped(s: Text): Text
  {
    [QUOTE] + EscapedBody(s) + [QUOTE]
  }

  lemma {:induction false} EscapedBodySnoc(s: Text, c: byte)
    ensures EscapedBody(s + [c]) == EscapedBody(s) + EscapeByte(c)
    decreases |s|
  {
    if s == [] {
      assert [c][1..] == [];
    } else {
      assert (s + [c])[1..] == s[1..] + [c];
      EscapedBodySnoc(s[1..], c);
    }
  }

  lemma EscapeStep(s: Text, i: nat, before: Text)
    requires i < |s|
    requires before == [QUOTE] + EscapedBody(s[..i])
    ensures before + EscapeByte(s[i]) == [QUOTE] + EscapedBody(s[..i + 1])
  {
    assert s[..i + 1] == s[..i] + [s[i]];
    EscapedBodySnoc(s[..i], s[i]);
  }

  /** `escapeJsonString`: a quote, then each input byte through the escape
      table, in order, then a quote. */
  method EscapeJsonString(s: Text) returns (out: Text)
    ensures out == Escaped(s)
  {
    out := [QUOTE];
    for i := 0 to |s|
      invariant out == [QUOTE] + EscapedBody(s[..i])
    {
      var c := s[i];
      var piece: Text;
      if c == QUOTE {
        piece := [BACKSLASH, QUOTE];
      } else if c == BACKSLASH {
        piece := [BACKSLASH, BACKSLASH];
      } else if c == 0x08 {
        piece := [BACKSLASH, 98];
      } else if c == 0x0C {
        piece := [BACKSLASH, 102];
      } else if c == 0x0A {
        piece := [BACKSLASH, 110];
      } else if c == 0x0D {
        piece := [BACKSLASH, 114];
      } else if c == 0x09 {
        piece := [BACKSLASH, 116];
      } else if 0x00 <= c <= 0x1F {
        piece := [BACKSLASH, 117] + Hex4(c);
      } else {
        piece := [c];
      }
      assert piece == EscapeByte(c);
      EscapeStep(s, i, out);
      out := out + piece;
    }
    assert s[..|s|] == s;
    out := out + [QUOTE];
  }

  // ---------------------------------------------------------------------
  // The reading side: RFC 8259 section 7, over bytes.

  /** The value of one hex digit, either case (RFC 8259 `HEXDIG`). */
  function HexValue(b: byte): Option<nat>
  {
    if ZERO <= b <= ZERO + 9 then Some(b - ZERO)
    else if 97 <= b <= 102 then Some(b - 87)
    else if 65 <= b <= 70 then Some(b - 55)
    else None
  }

  /** The value of four hex digits. */
  function Hex4Value(t: Text): Option<nat>
    requires |t| == 4
  {
    match (HexValue(t[0]), HexValue(t[1]), HexValue(t[2]), HexValue(t[3]))
    case (Some(a), Some(b), Some(c), Some(d)) => Some(((a * 16 + b) * 16 + c) * 16 + d)
    case _ => None
  }

  /** The UTF-8 bytes of a `\uXXXX` escape. A lone surrogate escape is
      rejected (surrogate pairs are not combined by this reader). */
  function CodePointBytes(cp: nat): Option<Text>
  {
    if cp < 0x80 then Some([cp])
    else if cp < 0x800 then Some([0xC0 + cp / 64, 0x80 + cp % 64])
    else if 0xD800 <= cp <= 0xDFFF || cp > 0xFFFF then None
    else Some([0xE0 + cp / 4096, 0x80 + cp / 64 % 64, 0x80 + cp % 64])
  }

  /** The bytes an escape sequence stands for, and how many bytes after the
      backslash it occupies. */
  function DecodeEscape(t: Text): (r: Option<(Text, nat)>)
    ensures r.Some? ==> 1 <= r.value.1 <= |t|
  {
    if |t| == 0 then None
    else if t[0] == QUOTE then Some(([QUOTE], 1))
    else if t[0] == BACKSLASH then Some(([BACKSLASH], 1))
    else if t[0] == SLASH then Some(([SLASH], 1))
    else if t[0] == 98 then Some(([0x08], 1))
    else if t[0] == 102 then Some(([0x0C], 1))
    else if t[0] == 110 then Some(([0x0A], 1))
    else if t[0] == 114 then Some(([0x0D], 1))
    else if t[0] == 116 then Some(([0x09], 1))
    else if t[0] == 117 && |t| >= 5 then
      match Hex4Value(t[1..5])
      case None => None
      case Some(cp) =>
        match CodePointBytes(cp)
        case None => None
        case Some(bytes) => Some((bytes, 5))
    else None
  }

  /** Reads the characters of a string up to and including the closing
      quote; gives the decoded bytes and the input after the quote. A raw
      control byte (below 0x20) is an error, as RFC 8259 requires. */
  function ParseStringBody(t: Text): (r: Option<(Text, Text)>)
    ensures r.Some? ==> |r.value.1| < |t|
    decreases |t|
  {
    if |t| == 0 then None
    else if t[0] == QUOTE then Some(([], t[1..]))
    else if t[0] == BACKSLASH then
      match DecodeEscape(t[1..])
      case None => None
      case Some((bytes, used)) =>
        match ParseStringBody(t[1 + used..])
        case None => None
        case Some((more, rest)) => Some((bytes + more, rest))
    else if t[0] < 0x20 then None
    else
      match ParseStringBody(t[1..])
      case None => None
      case Some((more, rest)) => Some(([t[0]] + more, rest))
  }

  /** Reads one string literal at the start of `t`; gives its bytes and the
      rest of the input. */
  function ParseString(t: Text): (r: Option<(Text, Text)>)
    ensures r.Some? ==> |r.value.1| < |t|
  {
    if |t| > 0 && t[0] == QUOTE then ParseStringBody(t[1..]) else None
  }

  /** A whole input that is exactly one string literal. */
  function DecodeString(t: Text): Option<Text>
  {
    match ParseString(t)
    case Some((s, rest)) => if rest == [] then Some(s) else None
    case None => None
  }

  lemma Hex4OfControl(c: byte)
    requires c <= 0x1F
    ensures Hex4Value(Hex4(c)) == Some(c)
  {
  }

  /** Reading one escaped byte, followed by anything, gives that byte back
      and leaves the rest untouched. */
  lemma EscapeByteReads(c: byte, rest: Text)
    ensures ParseStringBody(EscapeByte(c) + rest) ==
      (match ParseStringBody(rest)
       case None => None
       case Some((more, after)) => Some(([c] + more, after)))
  {
    if c == QUOTE || c == BACKSLASH || c == 0x08 || c == 0x0C || c == 0x0A || c == 0x0D || c == 0x09 {
      ShortEscapeReads(c, rest);
    } else if c <= 0x1F {
      ControlEscapeReads(c, rest);
    } else {
      assert (EscapeByte(c) + rest)[1..] == rest;
    }
  }

  lemma ShortEscapeReads(c: byte, rest: Text)
    requires c == QUOTE || c == BACKSLASH || c == 0x08 || c == 0x0C || c == 0x0A || c == 0x0D || c == 0x09
    ensures ParseStringBody(EscapeByte(c) + rest) ==
      (match ParseStringBody(rest)
       case None => None
       case Some((more, after)) => Some(([c] + more, after)))
  {
    var e := EscapeByte(c);
    var t := e + rest;
    assert |e| == 2 && t[0] == BACKSLASH;
    assert t[1..][0] == e[1];
    assert t[1 + 1..] == rest;
  }

  lemma ControlEscapeReads(c: byte, rest: Text)
    requires c <= 0x1F && c != 0x08 && c != 0x0C && c != 0x0A && c != 0x0D && c != 0x09
    ensures DecodeEscape((EscapeByte(c) + rest)[1..]) == Some(([c], 5))
    ensures (EscapeByte(c) + rest)[1 + 5..] == rest
  {
    var h := Hex4(c);
    var u := (EscapeByte(c) + rest)[1..];
    assert EscapeByte(c) == [BACKSLASH, 117] + h;
    assert u == [117] + h + rest;
    assert u[1..5] == h;
    Hex4OfControl(c);
  }

  lemma {:induction false} BodyRoundTrip(s: Text, rest: Text)
    ensures ParseStringBody(EscapedBody(s) + [QUOTE] + rest) == Some((s, rest))
    decreases |s|
  {
    if s == [] {
      assert EscapedBody(s) + [QUOTE] + rest == [QUOTE] + rest;
    } else {
      BodyRoundTrip(s[1..], rest);
      assert EscapedBody(s) + [QUOTE] + rest == EscapeByte(s[0]) + (EscapedBody(s[1..]) + [QUOTE] + rest);
      EscapeByteReads(s[0], EscapedBody(s[1..]) + [QUOTE] + rest);
      assert [s[0]] + s[1..] == s;
    }
  }

  /** Reading the escaped literal at the head of any input gives the original
      bytes and the input that follows it. */
  lemma StringRoundTrip(s: Text, rest: Text)
    ensures ParseString(Escaped(s) + rest) == Some((s, rest))
  {
    BodyRoundTrip(s, rest);
    assert (Escaped(s) + rest)[1..] == EscapedBody(s) + [QUOTE] + rest;
  }

  /** Decoding `escapeJsonString(s)` per RFC 8259 section 7 yields `s`. */
  lemma DecodeEscaped(s: Text)
    ensures DecodeString(Escaped(s)) == Some(s)
  {
    StringRoundTrip(s, []);
    assert Escaped(s) + [] == Escaped(s);
  }

  /** Distinct inputs give distinct literals. */
  lemma EscapedInjective(s: Text, u: Text)
    requires Escaped(s) == Escaped(u)
    ensures s == u
  {
    DecodeEscaped(s);
    DecodeEscaped(u);
  }

  /** An escaped literal holds no raw control byte at all (so it is valid
      for a strict reader and never contains a NUL). */
  lemma {:induction false} EscapedBodyPrintable(s: Text)
    ensures forall i :: 0 <= i < |EscapedBody(s)| ==> EscapedBody(s)[i] >= 0x20
    decreases |s|
  {
    if s != [] {
      EscapedBodyPrintable(s[1..]);
      var e := EscapeByte(s[0]);
      assert forall i :: 0 <= i < |e| ==> e[i] >= 0x20;
      assert EscapedBody(s) == e + EscapedBody(s[1..]);
    }
  }

  lemma EscapedPrintable(s: Text)
    ensures |Escaped(s)| >= 2 && Escaped(s)[0] == QUOTE
    ensures Printable(Escaped(s))
  {
    EscapedBodyPrintable(s);
  }
}

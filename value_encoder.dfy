/** The per-value encoder of both bridges: the `switch (type.id())` inside the
    serializers, and the JSON reading of what it writes. */
module ValueEncoder {
  import opened Bytes
  import opened JsonString

  /** The column type ids the encoder distinguishes; every other DuckDB type
      (VARCHAR, DATE, BLOB, DECIMAL, LIST, ...) is `OtherType`. */
  datatype LogicalType =
    | BOOLEAN
    | TINYINT | SMALLINT | INTEGER | BIGINT
    | UTINYINT | USMALLINT | UINTEGER | UBIGINT
    | FLOAT | DOUBLE
    | OtherType(id: Text)

  predicate IsSigned(t: LogicalType)
  {
    t == TINYINT || t == SMALLINT || t == INTEGER || t == BIGINT
  }

  predicate IsUnsigned(t: LogicalType)
  {
    t == UTINYINT || t == USMALLINT || t == UINTEGER || t == UBIGINT
  }

  /** A cell of a result, seen through the engine accessors the encoder
      calls: `IsNull()`, `GetValue<bool>()`, `GetValue<int64_t>()`,
      `GetValue<uint64_t>()`, the text the stream writes for
      `GetValue<float>()` / `GetValue<double>()` (an abstract formatter), and
      `ToString()`. */
  datatype Value =
    | Null
    | Present(asBool: bool, asInt64: int64, asUInt64: uint64,
              floatText: Text, doubleText: Text, text: Text)

  /** The three JSON literal names, as bytes. */
  const NULL_TEXT: Text := [110, 117, 108, 108]          // null
  const TRUE_TEXT: Text := [116, 114, 117, 101]          // true
  const FALSE_TEXT: Text := [102, 97, 108, 115, 101]     // false

  /** What the encoder writes for one cell of a column of type `t`. */
  function EncodeValue(t: LogicalType, v: Value): Text
  {
    match v
    case Null => NULL_TEXT
    case Present(b, i, u, f, d, s) =>
      if t == BOOLEAN then (if b then TRUE_TEXT else FALSE_TEXT)
      else if IsSigned(t) then DecimalText(i)
      else if IsUnsigned(t) then DecimalText(u)
      else if t == FLOAT then f
      else if t == DOUBLE then d
      else Escaped(s)
  }

  /** The `switch` of one cell, appending to the row's stream. */
  method WriteValue(t: LogicalType, v: Value) returns (out: Text)
    ensures out == EncodeValue(t, v)
  {
    if v.Null? {
      out := NULL_TEXT;
    } else {
      match t
      case BOOLEAN =>
        out := if v.asBool then TRUE_TEXT else FALSE_TEXT;
      case TINYINT => out := DecimalText(v.asInt64);
      case SMALLINT => out := DecimalText(v.asInt64);
      case INTEGER => out := DecimalText(v.asInt64);
      case BIGINT => out := DecimalText(v.asInt64);
      case UTINYINT => out := DecimalText(v.asUInt64);
      case USMALLINT => out := DecimalText(v.asUInt64);
      case UINTEGER => out := DecimalText(v.asUInt64);
      case UBIGINT => out := DecimalText(v.asUInt64);
      case FLOAT => out := v.floatText;
      case DOUBLE => out := v.doubleText;
      case OtherType(_) => out := EscapeJsonString(v.text);
    }
  }

  // ---------------------------------------------------------------------
  // The reading side.

  /** A JSON value as a reader of the serialized text sees it. `JOther`
      holds an unquoted token that is neither a literal name nor an integer:
      a fraction or exponent number, or whatever else the float formatter
      wrote (`nan`, `inf`). */
  datatype Json = JNull | JBool(b: bool) | JInt(i: int) | JString(s: Text) | JOther(token: Text)

  /** The meaning of one cell: the reference reading of the value encoder's
      contract. */
  function Meaning(t: LogicalType, v: Value): Json
  {
    match v
    case Null => JNull
    case Present(b, i, u, f, d, s) =>
      if t == BOOLEAN then JBool(b)
      else if IsSigned(t) then JInt(i)
      else if IsUnsigned(t) then JInt(u)
      else if t == FLOAT then Classify(f)
      else if t == DOUBLE then Classify(d)
      else JString(s)
  }

  /** How a reader classifies an unquoted token. */
  function Classify(token: Text): Json
  {
    if token == NULL_TEXT then JNull
    else if token == TRUE_TEXT then JBool(true)
    else if token == FALSE_TEXT then JBool(false)
    else match ParseInteger(token)
      case Some(n) => JInt(n)
      case None => JOther(token)
  }

  /** A byte that ends an unquoted token inside an object. */
  predicate IsDelimiter(b: byte)
  {
    b == COMMA || b == RBRACE
  }

  /** What the float formatter must write for the text to stay readable:
      one non-empty token without delimiters, quotes or control bytes. */
  predicate IsBareToken(t: Text)
  {
    |t| > 0 && t[0] != QUOTE && forall i :: 0 <= i < |t| ==> !IsDelimiter(t[i]) && t[i] >= 0x20
  }

  /** The engine's side of a float or double cell: its formatted text is a
      bare token. Nothing is assumed of any other cell. */
  predicate CellReadable(t: LogicalType, v: Value)
  {
    v.Present? ==> (t == FLOAT ==> IsBareToken(v.floatText)) && (t == DOUBLE ==> IsBareToken(v.doubleText))
  }

  /** The length of the unquoted token at the head of `t`. */
  function TokenLength(t: Text): (n: nat)
    ensures n <= |t|
    ensures forall i :: 0 <= i < n ==> !IsDelimiter(t[i])
    ensures n < |t| ==> IsDelimiter(t[n])
  {
    if |t| == 0 || IsDelimiter(t[0]) then 0 else 1 + TokenLength(t[1..])
  }

  /** Reads one member value: a string literal, or an unquoted token up to
      the next `,` or `}`. */
  function ParseValue(t: Text): (r: Option<(Json, Text)>)
    ensures r.Some? ==> |r.value.1| < |t|
  {
    if |t| > 0 && t[0] == QUOTE then
      match ParseString(t)
      case None => None
      case Some((s, rest)) => Some((JString(s), rest))
    else
      var n := TokenLength(t);
      if n == 0 then None else Some((Classify(t[..n]), t[n..]))
  }

  predicate EndsValue(rest: Text)
  {
    rest == [] || IsDelimiter(rest[0])
  }

  lemma {:induction false} TokenLengthOf(token: Text, rest: Text)
    requires forall i :: 0 <= i < |token| ==> !IsDelimiter(token[i])
    requires EndsValue(rest)
    ensures TokenLength(token + rest) == |token|
    decreases |token|
  {
    if token == [] {
      assert token + rest == rest;
    } else {
      assert (token + rest)[1..] == token[1..] + rest;
      TokenLengthOf(token[1..], rest);
    }
  }

  lemma TokenRoundTrip(token: Text, rest: Text)
    requires |token| > 0 && token[0] != QUOTE
    requires forall i :: 0 <= i < |token| ==> !IsDelimiter(token[i])
    requires EndsValue(rest)
    ensures ParseValue(token + rest) == Some((Classify(token), rest))
  {
    var t := token + rest;
    var n := TokenLength(t);
    TokenLengthOf(token, rest);
    assert t[..n] == token && t[n..] == rest;
  }

  /** Reading what the encoder wrote, followed by the `,` or `}` that the
      record puts after it, gives the meaning of the cell: `null` for a null
      of any type, `true`/`false`, the exact integer for every signed and
      unsigned width (so an unsigned value never reads back negative), and
      the original bytes of `ToString()` for every other type. */
  lemma ValueRoundTrip(t: LogicalType, v: Value, rest: Text)
    requires CellReadable(t, v)
    requires EndsValue(rest)
    ensures ParseValue(EncodeValue(t, v) + rest) == Some((Meaning(t, v), rest))
  {
    match v
    case Null =>
      TokenRoundTrip(NULL_TEXT, rest);
    case Present(b, i, u, f, d, s) =>
      if t == BOOLEAN {
        TokenRoundTrip(if b then TRUE_TEXT else FALSE_TEXT, rest);
      } else if IsSigned(t) || IsUnsigned(t) {
        var n: int := if IsSigned(t) then i else u;
        DecimalTextShape(n);
        DecimalRoundTrip(n);
        var text := DecimalText(n);
        assert text != NULL_TEXT && text != TRUE_TEXT && text != FALSE_TEXT by {
          assert IsDigit(text[0]) || text[0] == MINUS;
        }
        TokenRoundTrip(text, rest);
      } else if t == FLOAT {
        TokenRoundTrip(f, rest);
      } else if t == DOUBLE {
        TokenRoundTrip(d, rest);
      } else {
        StringRoundTrip(s, rest);
      }
  }

  /** Whatever the encoder writes for a readable cell is non-empty text with
      no control byte in it. */
  lemma EncodedPrintable(t: LogicalType, v: Value)
    requires CellReadable(t, v)
    ensures |EncodeValue(t, v)| > 0
    ensures Printable(EncodeValue(t, v))
  {
    match v
    case Null =>
    case Present(b, i, u, f, d, s) =>
      if t == BOOLEAN {
      } else if IsSigned(t) || IsUnsigned(t) {
        var n: int := if IsSigned(t) then i else u;
        DecimalTextShape(n);
      } else if t == FLOAT || t == DOUBLE {
      } else {
        EscapedPrintable(s);
      }
  }
}

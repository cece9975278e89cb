/** A reader for what the serializers write (compact RFC 8259 text: an array
    of objects of string keys and scalar values, with no whitespace), and the
    proof that it reads back the rows of the result, in order, with every
    column under its own name. */
module ResultReader {
  import opened Bytes
  import opened JsonString
  import opened ValueEncoder
  import opened ResultSerializer

  /** One decoded object: its members in the order they were written. */
  type Record = seq<(Text, Json)>

  /** `member *( "," member ) "}"`, the input starting at a member. */
  function ParseMembers(t: Text): (r: Option<(Record, Text)>)
    ensures r.Some? ==> |r.value.1| < |t|
    decreases |t|
  {
    match ParseString(t)
    case None => None
    case Some((key, afterKey)) =>
      if |afterKey| == 0 || afterKey[0] != COLON then None
      else
        match ParseValue(afterKey[1..])
        case None => None
        case Some((v, afterValue)) =>
          if |afterValue| == 0 then None
          else if afterValue[0] == RBRACE then Some(([(key, v)], afterValue[1..]))
          else if afterValue[0] == COMMA then
            match ParseMembers(afterValue[1..])
            case None => None
            case Some((more, rest)) => Some(([(key, v)] + more, rest))
          else None
  }

  /** `"{" [ members ] "}"`. */
  function ParseObject(t: Text): (r: Option<(Record, Text)>)
    ensures r.Some? ==> |r.value.1| < |t|
  {
    if |t| == 0 || t[0] != LBRACE then None
    else if |t| > 1 && t[1] == RBRACE then Some(([], t[2..]))
    else ParseMembers(t[1..])
  }

  /** `object *( "," object ) "]"`, the input starting at an object. */
  function ParseElements(t: Text): (r: Option<(seq<Record>, Text)>)
    ensures r.Some? ==> |r.value.1| < |t|
    decreases |t|
  {
    match ParseObject(t)
    case None => None
    case Some((o, after)) =>
      if |after| == 0 then None
      else if after[0] == RBRACKET then Some(([o], after[1..]))
      else if after[0] == COMMA then
        match ParseElements(after[1..])
        case None => None
        case Some((more, rest)) => Some(([o] + more, rest))
      else None
  }

  /** `"[" [ elements ] "]"`. */
  function ParseArray(t: Text): (r: Option<(seq<Record>, Text)>)
    ensures r.Some? ==> |r.value.1| < |t|
  {
    if |t| == 0 || t[0] != LBRACKET then None
    else if |t| > 1 && t[1] == RBRACKET then Some(([], t[2..]))
    else ParseElements(t[1..])
  }

  /** A whole text that is one array of objects. */
  function ParseRows(t: Text): Option<seq<Record>>
  {
    match ParseArray(t)
    case Some((records, rest)) => if rest == [] then Some(records) else None
    case None => None
  }

  /** The record a row means: each column's name with its cell's meaning. */
  function DecodedRecord(cols: seq<Column>, row: Row): Record
    requires |row| == |cols|
  {
    seq(|cols|, j requires 0 <= j < |cols| => (cols[j].name, Meaning(cols[j].kind, row[j])))
  }

  function DecodedRows(cols: seq<Column>, rows: seq<Row>): seq<Record>
    requires Fits(cols, rows)
  {
    seq(|rows|, i requires 0 <= i < |rows| => DecodedRecord(cols, rows[i]))
  }

  /** Every float and double cell of every row formats as a bare token. */
  predicate Readable(cols: seq<Column>, rows: seq<Row>)
  {
    Fits(cols, rows) && forall i, j :: 0 <= i < |rows| && 0 <= j < |cols| ==> CellReadable(cols[j].kind, rows[i][j])
  }

  // One step of each reader, with the readings of its parts given.

  lemma MemberStep(t: Text, key: Text, afterKey: Text, v: Json, afterValue: Text)
    requires ParseString(t) == Some((key, afterKey))
    requires |afterKey| > 0 && afterKey[0] == COLON
    requires ParseValue(afterKey[1..]) == Some((v, afterValue))
    requires |afterValue| > 0
    ensures afterValue[0] == RBRACE ==> ParseMembers(t) == Some(([(key, v)], afterValue[1..]))
    ensures afterValue[0] == COMMA ==>
      (ParseMembers(t) ==
       match ParseMembers(afterValue[1..])
       case None => None
       case Some((more, rest)) => Some(([(key, v)] + more, rest)))
  {
  }

  lemma ElementStep(t: Text, o: Record, after: Text)
    requires ParseObject(t) == Some((o, after))
    requires |after| > 0
    ensures after[0] == RBRACKET ==> ParseElements(t) == Some(([o], after[1..]))
    ensures after[0] == COMMA ==>
      (ParseElements(t) ==
       match ParseElements(after[1..])
       case None => None
       case Some((more, rest)) => Some(([o] + more, rest)))
  {
  }

  // Regrouping of texts, stated over plain variables.

  lemma Regroup(j: Text, p: Text, tl: Text, sep: byte, close: byte, rest: Text)
    requires j == p + [sep] + tl
    ensures j + [close] + rest == p + ([sep] + (tl + [close] + rest))
    ensures ([sep] + (tl + [close] + rest))[1..] == tl + [close] + rest
  {
  }

  lemma RegroupLast(j: Text, close: byte, rest: Text)
    ensures j + [close] + rest == j + ([close] + rest)
    ensures ([close] + rest)[1..] == rest
  {
  }

  lemma Enclosed(open: byte, body: Text, close: byte, rest: Text)
    requires |body| > 0
    ensures |[open] + body + [close] + rest| > 1
    ensures ([open] + body + [close] + rest)[0] == open
    ensures ([open] + body + [close] + rest)[1] == body[0]
    ensures ([open] + body + [close] + rest)[1..] == body + [close] + rest
  {
  }

  lemma EmptyEnclosed(open: byte, close: byte, rest: Text)
    ensures [open] + [] + [close] + rest == [open, close] + rest
    ensures ([open, close] + rest)[2..] == rest
  {
  }

  lemma HeadOfAppend(p: Text, q: Text)
    requires |p| > 0
    ensures |p + q| > 0 && (p + q)[0] == p[0]
  {
  }

  // Members.

  /** The key of a pair reads back, leaving the colon and the value. */
  lemma KeyReads(c: Column, v: Value, rest: Text)
    ensures ParseString(PairText(c, v) + rest) == Some((c.name, [COLON] + (EncodeValue(c.kind, v) + rest)))
    ensures ([COLON] + (EncodeValue(c.kind, v) + rest))[1..] == EncodeValue(c.kind, v) + rest
  {
    assert PairText(c, v) + rest == Escaped(c.name) + ([COLON] + (EncodeValue(c.kind, v) + rest));
    StringRoundTrip(c.name, [COLON] + (EncodeValue(c.kind, v) + rest));
  }

  /** A pair at the head of the members: its key and meaning, then the
      object ends (`}`) or the next member follows (`,`). */
  lemma MemberAt(c: Column, v: Value, rest: Text)
    requires CellReadable(c.kind, v)
    requires |rest| > 0 && IsDelimiter(rest[0])
    ensures rest[0] == RBRACE ==>
      ParseMembers(PairText(c, v) + rest) == Some(([(c.name, Meaning(c.kind, v))], rest[1..]))
    ensures rest[0] == COMMA ==>
      (ParseMembers(PairText(c, v) + rest) ==
       match ParseMembers(rest[1..])
       case None => None
       case Some((more, after)) => Some(([(c.name, Meaning(c.kind, v))] + more, after)))
  {
    KeyReads(c, v, rest);
    ValueRoundTrip(c.kind, v, rest);
    MemberStep(PairText(c, v) + rest, c.name, [COLON] + (EncodeValue(c.kind, v) + rest), Meaning(c.kind, v), rest);
  }

  lemma PairsSplit(cols: seq<Column>, row: Row)
    requires |row| == |cols| > 0
    ensures |cols| == 1 ==> Join(Pairs(cols, row)) == PairText(cols[0], row[0])
    ensures |cols| > 1 ==> Join(Pairs(cols, row)) == PairText(cols[0], row[0]) + [COMMA] + Join(Pairs(cols[1..], row[1..]))
  {
    assert Pairs(cols, row)[1..] == Pairs(cols[1..], row[1..]);
  }

  lemma PairHead(c: Column, v: Value)
    ensures |PairText(c, v)| > 0 && PairText(c, v)[0] == QUOTE
  {
    EscapedPrintable(c.name);
    assert PairText(c, v) == Escaped(c.name) + ([COLON] + EncodeValue(c.kind, v));
    HeadOfAppend(Escaped(c.name), [COLON] + EncodeValue(c.kind, v));
  }

  lemma HeadOfJoined(p: Text, sep: byte, tl: Text)
    requires |p| > 0
    ensures |p + [sep] + tl| > 0 && (p + [sep] + tl)[0] == p[0]
  {
  }

  /** The members of a non-empty record start with the quote of a key. */
  lemma PairsHead(cols: seq<Column>, row: Row)
    requires |row| == |cols| > 0
    ensures |Join(Pairs(cols, row))| > 0 && Join(Pairs(cols, row))[0] == QUOTE
  {
    PairHead(cols[0], row[0]);
    PairsSplit(cols, row);
    if |cols| > 1 {
      HeadOfJoined(PairText(cols[0], row[0]), COMMA, Join(Pairs(cols[1..], row[1..])));
    }
  }

  lemma DecodedSplit(cols: seq<Column>, row: Row)
    requires |row| == |cols| > 0
    ensures DecodedRecord(cols, row) == [(cols[0].name, Meaning(cols[0].kind, row[0]))] + DecodedRecord(cols[1..], row[1..])
  {
  }

  /** The last member of a record. */
  lemma MembersLast(cols: seq<Column>, row: Row, rest: Text)
    requires |row| == |cols| == 1
    requires CellReadable(cols[0].kind, row[0])
    ensures ParseMembers(Join(Pairs(cols, row)) + [RBRACE] + rest) == Some((DecodedRecord(cols, row), rest))
  {
    PairsSplit(cols, row);
    RegroupLast(Join(Pairs(cols, row)), RBRACE, rest);
    MemberAt(cols[0], row[0], [RBRACE] + rest);
    assert DecodedRecord(cols, row) == [(cols[0].name, Meaning(cols[0].kind, row[0]))];
  }

  /** A member followed by more members. */
  lemma MembersMore(cols: seq<Column>, row: Row, rest: Text, more: Record)
    requires |row| == |cols| > 1
    requires CellReadable(cols[0].kind, row[0])
    requires ParseMembers(Join(Pairs(cols[1..], row[1..])) + [RBRACE] + rest) == Some((more, rest))
    ensures ParseMembers(Join(Pairs(cols, row)) + [RBRACE] + rest) == Some(([(cols[0].name, Meaning(cols[0].kind, row[0]))] + more, rest))
  {
    var tl := Join(Pairs(cols[1..], row[1..]));
    PairsSplit(cols, row);
    Regroup(Join(Pairs(cols, row)), PairText(cols[0], row[0]), tl, COMMA, RBRACE, rest);
    MemberAt(cols[0], row[0], [COMMA] + (tl + [RBRACE] + rest));
  }

  lemma {:induction false} MembersRoundTrip(cols: seq<Column>, row: Row, rest: Text)
    requires |row| == |cols| > 0
    requires forall j :: 0 <= j < |cols| ==> CellReadable(cols[j].kind, row[j])
    ensures ParseMembers(Join(Pairs(cols, row)) + [RBRACE] + rest) == Some((DecodedRecord(cols, row), rest))
    decreases |cols|
  {
    if |cols| == 1 {
      MembersLast(cols, row, rest);
    } else {
      MembersRoundTrip(cols[1..], row[1..], rest);
      MembersMore(cols, row, rest, DecodedRecord(cols[1..], row[1..]));
      DecodedSplit(cols, row);
    }
  }

  /** Reading one record gives its columns' names and meanings, in column
      order, and leaves the rest of the input. */
  lemma RecordRoundTrip(cols: seq<Column>, row: Row, rest: Text)
    requires |row| == |cols|
    requires forall j :: 0 <= j < |cols| ==> CellReadable(cols[j].kind, row[j])
    ensures ParseObject(RecordText(cols, row) + rest) == Some((DecodedRecord(cols, row), rest))
  {
    if |cols| == 0 {
      assert Pairs(cols, row) == [] && DecodedRecord(cols, row) == [];
      EmptyEnclosed(LBRACE, RBRACE, rest);
    } else {
      MembersRoundTrip(cols, row, rest);
      PairsHead(cols, row);
      Enclosed(LBRACE, Join(Pairs(cols, row)), RBRACE, rest);
    }
  }

  // Elements.

  /** A record at the head of the elements: its decoded columns, then the
      array ends (`]`) or the next record follows (`,`). */
  lemma ElementAt(cols: seq<Column>, row: Row, rest: Text)
    requires |row| == |cols|
    requires forall j :: 0 <= j < |cols| ==> CellReadable(cols[j].kind, row[j])
    requires |rest| > 0
    ensures rest[0] == RBRACKET ==>
      ParseElements(RecordText(cols, row) + rest) == Some(([DecodedRecord(cols, row)], rest[1..]))
    ensures rest[0] == COMMA ==>
      (ParseElements(RecordText(cols, row) + rest) ==
       match ParseElements(rest[1..])
       case None => None
       case Some((more, after)) => Some(([DecodedRecord(cols, row)] + more, after)))
  {
    RecordRoundTrip(cols, row, rest);
    ElementStep(RecordText(cols, row) + rest, DecodedRecord(cols, row), rest);
  }

  lemma RecordsSplit(cols: seq<Column>, rows: seq<Row>)
    requires Fits(cols, rows) && |rows| > 0
    ensures Fits(cols, rows[1..])
    ensures |rows| == 1 ==> Join(Records(cols, rows)) == RecordText(cols, rows[0])
    ensures |rows| > 1 ==> Join(Records(cols, rows)) == RecordText(cols, rows[0]) + [COMMA] + Join(Records(cols, rows[1..]))
  {
    assert Records(cols, rows)[1..] == Records(cols, rows[1..]);
  }

  lemma DecodedRowsSplit(cols: seq<Column>, rows: seq<Row>)
    requires Fits(cols, rows) && |rows| > 0
    ensures Fits(cols, rows[1..])
    ensures DecodedRows(cols, rows) == [DecodedRecord(cols, rows[0])] + DecodedRows(cols, rows[1..])
  {
  }

  lemma ReadableSplit(cols: seq<Column>, rows: seq<Row>)
    requires Readable(cols, rows) && |rows| > 0
    ensures Readable(cols, rows[1..])
    ensures forall j :: 0 <= j < |cols| ==> CellReadable(cols[j].kind, rows[0][j])
  {
  }

  /** The last record of the array. */
  lemma ElementsLast(cols: seq<Column>, rows: seq<Row>, rest: Text)
    requires Readable(cols, rows) && |rows| == 1
    ensures ParseElements(Join(Records(cols, rows)) + [RBRACKET] + rest) == Some((DecodedRows(cols, rows), rest))
  {
    RecordsSplit(cols, rows);
    ReadableSplit(cols, rows);
    DecodedRowsSplit(cols, rows);
    RegroupLast(Join(Records(cols, rows)), RBRACKET, rest);
    ElementAt(cols, rows[0], [RBRACKET] + rest);
    assert Join(Records(cols, rows)) == RecordText(cols, rows[0]);
    assert ParseElements(RecordText(cols, rows[0]) + ([RBRACKET] + rest)) == Some(([DecodedRecord(cols, rows[0])], rest));
    assert DecodedRows(cols, rows[1..]) == [];
    assert DecodedRows(cols, rows) == [DecodedRecord(cols, rows[0])];
  }

  /** A record followed by more records. */
  lemma ElementsMore(cols: seq<Column>, rows: seq<Row>, rest: Text, more: seq<Record>)
    requires Readable(cols, rows) && |rows| > 1
    requires ParseElements(Join(Records(cols, rows[1..])) + [RBRACKET] + rest) == Some((more, rest))
    ensures ParseElements(Join(Records(cols, rows)) + [RBRACKET] + rest) == Some(([DecodedRecord(cols, rows[0])] + more, rest))
  {
    RecordsSplit(cols, rows);
    ReadableSplit(cols, rows);
    var tl := Join(Records(cols, rows[1..]));
    Regroup(Join(Records(cols, rows)), RecordText(cols, rows[0]), tl, COMMA, RBRACKET, rest);
    ElementAt(cols, rows[0], [COMMA] + (tl + [RBRACKET] + rest));
  }

  lemma {:induction false} ElementsRoundTrip(cols: seq<Column>, rows: seq<Row>, rest: Text)
    requires Readable(cols, rows) && |rows| > 0
    ensures ParseElements(Join(Records(cols, rows)) + [RBRACKET] + rest) == Some((DecodedRows(cols, rows), rest))
    decreases |rows|
  {
    if |rows| == 1 {
      ElementsLast(cols, rows, rest);
    } else {
      ReadableSplit(cols, rows);
      ElementsRoundTrip(cols, rows[1..], rest);
      ElementsMore(cols, rows, rest, DecodedRows(cols, rows[1..]));
      DecodedRowsSplit(cols, rows);
    }
  }

  /** The records of a non-empty result start with a brace. */
  lemma RecordsHead(cols: seq<Column>, rows: seq<Row>)
    requires Fits(cols, rows) && |rows| > 0
    ensures |Join(Records(cols, rows))| > 0 && Join(Records(cols, rows))[0] == LBRACE
  {
    RecordsSplit(cols, rows);
    if |rows| > 1 {
      HeadOfJoined(RecordText(cols, rows[0]), COMMA, Join(Records(cols, rows[1..])));
    }
  }

  lemma ArrayStep(t: Text, body: Text, records: seq<Record>)
    requires |body| > 0 && body[0] != RBRACKET
    requires t == [LBRACKET] + body + [RBRACKET] + []
    requires ParseElements(body + [RBRACKET] + []) == Some((records, []))
    ensures ParseRows(t) == Some(records)
  {
    Enclosed(LBRACKET, body, RBRACKET, []);
  }

  /** Reading the serialized result gives one record per row, in row order,
      each holding the row's cells under their column names, in column order;
      zero rows read back as the empty array. */
  lemma RowsRoundTrip(cols: seq<Column>, rows: seq<Row>)
    requires Readable(cols, rows)
    ensures ParseRows(RowsText(cols, rows)) == Some(DecodedRows(cols, rows))
  {
    if |rows| == 0 {
      assert Records(cols, rows) == [] && DecodedRows(cols, rows) == [];
      EmptyEnclosed(LBRACKET, RBRACKET, []);
    } else {
      ElementsRoundTrip(cols, rows, []);
      RecordsHead(cols, rows);
      ArrayStep(RowsText(cols, rows) + [], Join(Records(cols, rows)), DecodedRows(cols, rows));
      assert RowsText(cols, rows) + [] == RowsText(cols, rows);
    }
  }

  /** Two results that serialize to the same text have the same decoded
      rows: the text loses nothing a reader can see. */
  lemma RowsTextDetermines(cols: seq<Column>, rows: seq<Row>, cols': seq<Column>, rows': seq<Row>)
    requires Readable(cols, rows) && Readable(cols', rows')
    requires RowsText(cols, rows) == RowsText(cols', rows')
    ensures DecodedRows(cols, rows) == DecodedRows(cols', rows')
  {
    RowsRoundTrip(cols, rows);
    RowsRoundTrip(cols', rows');
  }

  // ---------------------------------------------------------------------
  // No control bytes.

  lemma {:induction false} JoinPrintable(parts: seq<Text>)
    requires forall i :: 0 <= i < |parts| ==> Printable(parts[i])
    ensures Printable(Join(parts))
    decreases |parts|
  {
    if |parts| > 1 {
      JoinPrintable(parts[1..]);
      PrintableAppend(parts[0], [COMMA]);
      PrintableAppend(parts[0] + [COMMA], Join(parts[1..]));
    }
  }

  lemma RecordPrintable(cols: seq<Column>, row: Row)
    requires |row| == |cols|
    requires forall j :: 0 <= j < |cols| ==> CellReadable(cols[j].kind, row[j])
    ensures Printable(RecordText(cols, row))
  {
    var pairs := Pairs(cols, row);
    forall j | 0 <= j < |pairs|
      ensures Printable(pairs[j])
    {
      EscapedPrintable(cols[j].name);
      EncodedPrintable(cols[j].kind, row[j]);
      PrintableAppend(Escaped(cols[j].name), [COLON]);
      PrintableAppend(Escaped(cols[j].name) + [COLON], EncodeValue(cols[j].kind, row[j]));
    }
    JoinPrintable(pairs);
    PrintableAppend([LBRACE], Join(pairs));
    PrintableAppend([LBRACE] + Join(pairs), [RBRACE]);
  }

  /** The serialized result holds no control byte, and so no NUL: a copy
      that stops at the first NUL (`strcpy` into a `malloc`ed buffer) copies
      all of it, and a strict RFC 8259 reader meets no raw control byte. */
  lemma RowsPrintable(cols: seq<Column>, rows: seq<Row>)
    requires Readable(cols, rows)
    ensures Printable(RowsText(cols, rows))
  {
    var records := Records(cols, rows);
    forall i | 0 <= i < |records|
      ensures Printable(records[i])
    {
      RecordPrintable(cols, rows[i]);
    }
    JoinPrintable(records);
    PrintableAppend([LBRACKET], Join(records));
    PrintableAppend([LBRACKET] + Join(records), [RBRACKET]);
  }
}

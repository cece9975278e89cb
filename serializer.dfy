/** The two result serializers: `resultToJson` (materialized rows, row count
    known up front) and `queryResultToJson` (chunks pulled with `Fetch()`
    until a null or empty chunk); the iOS `resultToJson` is the chunked one. */
module ResultSerializer {
  import opened Bytes
  import opened JsonString
  import opened ValueEncoder

  /** One entry of the result's `names` and `types` vectors. */
  datatype Column = Column(name: Text, kind: LogicalType)

  /** A row, cell `col` being `GetValue(col, row)`. */
  type Row = seq<Value>

  /** A `DataChunk`: a block of rows. */
  type Chunk = seq<Row>

  /** Every row has one cell per column (the engine's own guarantee). */
  predicate Fits(cols: seq<Column>, rows: seq<Row>)
  {
    forall i :: 0 <= i < |rows| ==> |rows[i]| == |cols|
  }

  /** The parts joined by `,` (the `if (col > 0)` / `if (!first_row)`
      separators). */
  function Join(parts: seq<Text>): Text
  {
    if |parts| == 0 then []
    else if |parts| == 1 then parts[0]
    else parts[0] + [COMMA] + Join(parts[1..])
  }

  lemma {:induction false} JoinSnoc(parts: seq<Text>, p: Text)
    ensures Join(parts + [p]) == if parts == [] then p else Join(parts) + [COMMA] + p
    decreases |parts|
  {
    if |parts| == 0 {
      assert parts + [p] == [p];
    } else if |parts| == 1 {
      assert (parts + [p])[1..] == [p];
    } else {
      assert (parts + [p])[1..] == parts[1..] + [p];
      JoinSnoc(parts[1..], p);
    }
  }

  /** Joining two non-empty lists puts one separator between their joins. */
  lemma {:induction false} JoinAppend(a: seq<Text>, b: seq<Text>)
    requires a != [] && b != []
    ensures Join(a + b) == Join(a) + [COMMA] + Join(b)
    decreases |a|
  {
    if |a| == 1 {
      assert (a + b)[1..] == b;
    } else {
      assert (a + b)[1..] == a[1..] + b;
      JoinAppend(a[1..], b);
    }
  }

  /** `escapeJsonString(name) << ":" << value`. */
  function PairText(c: Column, v: Value): Text
  {
    Escaped(c.name) + [COLON] + EncodeValue(c.kind, v)
  }

  function Pairs(cols: seq<Column>, row: Row): seq<Text>
    requires |row| == |cols|
  {
    seq(|cols|, j requires 0 <= j < |cols| => PairText(cols[j], row[j]))
  }

  /** One record: `{`, one pair per column in column order, `}`. */
  function RecordText(cols: seq<Column>, row: Row): Text
    requires |row| == |cols|
  {
    [LBRACE] + Join(Pairs(cols, row)) + [RBRACE]
  }

  function Records(cols: seq<Column>, rows: seq<Row>): seq<Text>
    requires Fits(cols, rows)
  {
    seq(|rows|, i requires 0 <= i < |rows| => RecordText(cols, rows[i]))
  }

  /** The serialized result: `[`, one record per row in row order, `]`. */
  function RowsText(cols: seq<Column>, rows: seq<Row>): Text
    requires Fits(cols, rows)
  {
    [LBRACKET] + Join(Records(cols, rows)) + [RBRACKET]
  }

  /** One more part written after a joined prefix: a separator first unless
      it is the first part. */
  lemma JoinStep(open: Text, parts: seq<Text>, n: nat, before: Text, after: Text)
    requires n < |parts|
    requires before == open + Join(parts[..n])
    requires after == if n == 0 then before + parts[n] else before + [COMMA] + parts[n]
    ensures after == open + Join(parts[..n + 1])
  {
    assert parts[..n + 1] == parts[..n] + [parts[n]];
    JoinSnoc(parts[..n], parts[n]);
    if n == 0 {
      assert parts[..n] == [];
    }
  }

  /** The inner column loop shared by both serializers. */
  method WriteRecord(cols: seq<Column>, row: Row) returns (out: Text)
    requires |row| == |cols|
    ensures out == RecordText(cols, row)
  {
    ghost var pairs := Pairs(cols, row);
    out := [LBRACE];
    for col := 0 to |cols|
      invariant out == [LBRACE] + Join(pairs[..col])
    {
      ghost var before := out;
      if col > 0 {
        out := out + [COMMA];
      }
      var key := EscapeJsonString(cols[col].name);
      var value := WriteValue(cols[col].kind, row[col]);
      var pair := key + [COLON] + value;
      assert pair == pairs[col];
      out := out + pair;
      JoinStep([LBRACE], pairs, col, before, out);
    }
    assert pairs[..|cols|] == pairs;
    out := out + [RBRACE];
  }

  /** `resultToJson` of the Android bridge: rows `0 .. RowCount()-1`. */
  method ResultToJson(cols: seq<Column>, rows: seq<Row>) returns (json: Text)
    requires Fits(cols, rows)
    ensures json == RowsText(cols, rows)
    ensures rows == [] ==> json == [LBRACKET, RBRACKET]
  {
    ghost var records := Records(cols, rows);
    json := [LBRACKET];
    for row := 0 to |rows|
      invariant json == [LBRACKET] + Join(records[..row])
    {
      ghost var before := json;
      if row > 0 {
        json := json + [COMMA];
      }
      var record := WriteRecord(cols, rows[row]);
      json := json + record;
      JoinStep([LBRACKET], records, row, before, json);
    }
    assert records[..|rows|] == records;
    json := json + [RBRACKET];
  }

  // ---------------------------------------------------------------------
  // The chunked result.

  /** The loop guard `(chunk = Fetch()) != nullptr && chunk->size() > 0`. */
  predicate Continues(f: Option<Chunk>)
  {
    f.Some? && |f.value| > 0
  }

  /** How many `Fetch()` calls return a non-empty chunk before the first null
      or empty one (past the end of `fetches`, `Fetch()` returns null). */
  function Sentinel(fetches: seq<Option<Chunk>>): (k: nat)
    ensures k <= |fetches|
    ensures forall i :: 0 <= i < k ==> Continues(fetches[i])
    ensures k < |fetches| ==> !Continues(fetches[k])
  {
    if |fetches| == 0 || !Continues(fetches[0]) then 0 else 1 + Sentinel(fetches[1..])
  }

  /** The rows of a run of fetched chunks, in order. */
  function Concat(fetched: seq<Option<Chunk>>): seq<Row>
    requires forall i :: 0 <= i < |fetched| ==> fetched[i].Some?
  {
    if fetched == [] then [] else Concat(fetched[..|fetched| - 1]) + fetched[|fetched| - 1].value
  }

  /** The rows the chunked loop visits. */
  function StreamRows(fetches: seq<Option<Chunk>>): seq<Row>
  {
    Concat(fetches[..Sentinel(fetches)])
  }

  /** Every chunk the engine hands out has one cell per column. */
  predicate ChunksFit(cols: seq<Column>, fetches: seq<Option<Chunk>>)
  {
    forall i :: 0 <= i < |fetches| && fetches[i].Some? ==> Fits(cols, fetches[i].value)
  }

  lemma FitsAppend(cols: seq<Column>, a: seq<Row>, b: seq<Row>)
    requires Fits(cols, a) && Fits(cols, b)
    ensures Fits(cols, a + b)
  {
    forall i | 0 <= i < |a + b|
      ensures |(a + b)[i]| == |cols|
    {
      if i >= |a| {
        assert (a + b)[i] == b[i - |a|];
      }
    }
  }

  lemma RecordsAppend(cols: seq<Column>, a: seq<Row>, b: seq<Row>)
    requires Fits(cols, a) && Fits(cols, b)
    ensures Fits(cols, a + b)
    ensures Records(cols, a + b) == Records(cols, a) + Records(cols, b)
  {
    FitsAppend(cols, a, b);
    var rab := Records(cols, a + b);
    var ra, rb := Records(cols, a), Records(cols, b);
    forall i | 0 <= i < |rab|
      ensures rab[i] == (ra + rb)[i]
    {
      if i >= |a| {
        assert (a + b)[i] == b[i - |a|];
      }
    }
  }

  lemma ConcatStep(fetched: seq<Option<Chunk>>, k: nat)
    requires k < |fetched|
    requires forall i :: 0 <= i <= k ==> fetched[i].Some?
    ensures Concat(fetched[..k + 1]) == Concat(fetched[..k]) + fetched[k].value
  {
    assert fetched[..k + 1][..k] == fetched[..k];
  }

  /** One more record after the records of earlier chunks and the earlier
      rows of this chunk. */
  lemma JoinStepAfter(prior: seq<Text>, parts: seq<Text>, n: nat, before: Text, after: Text)
    requires n < |parts|
    requires before == [LBRACKET] + Join(prior + parts[..n])
    requires after == if prior + parts[..n] == [] then before + parts[n] else before + [COMMA] + parts[n]
    ensures after == [LBRACKET] + Join(prior + parts[..n + 1])
  {
    assert parts[..n + 1] == parts[..n] + [parts[n]];
    assert prior + parts[..n + 1] == (prior + parts[..n]) + [parts[n]];
    JoinSnoc(prior + parts[..n], parts[n]);
  }

  /** `queryResultToJson` of the Android bridge and `resultToJson` of the
      iOS bridge: a `first_row` flag, rows of each chunk in order, stopping
      at the first null or empty chunk. */
  method QueryResultToJson(cols: seq<Column>, fetches: seq<Option<Chunk>>) returns (json: Text)
    requires ChunksFit(cols, fetches)
    ensures Fits(cols, StreamRows(fetches))
    ensures json == RowsText(cols, StreamRows(fetches))
  {
    json := [LBRACKET];
    var firstRow := true;
    ghost var done: seq<Row> := [];
    var k := 0;
    while k < |fetches| && Continues(fetches[k])
      invariant 0 <= k <= Sentinel(fetches)
      invariant done == Concat(fetches[..k])
      invariant Fits(cols, done)
      invariant firstRow <==> Records(cols, done) == []
      invariant json == [LBRACKET] + Join(Records(cols, done))
    {
      var chunk := fetches[k].value;
      assert Fits(cols, chunk);
      ghost var prior := Records(cols, done);
      ghost var records := Records(cols, chunk);
      assert prior + records[..0] == prior;
      for row := 0 to |chunk|
        invariant firstRow <==> prior + records[..row] == []
        invariant json == [LBRACKET] + Join(prior + records[..row])
      {
        ghost var before := json;
        if !firstRow {
          json := json + [COMMA];
        }
        firstRow := false;
        var record := WriteRecord(cols, chunk[row]);
        assert record == records[row];
        json := json + record;
        JoinStepAfter(prior, records, row, before, json);
      }
      assert records[..|chunk|] == records;
      RecordsAppend(cols, done, chunk);
      assert k < Sentinel(fetches);
      ConcatStep(fetches, k);
      done := done + chunk;
      k := k + 1;
    }
    assert k == Sentinel(fetches);
    assert done == StreamRows(fetches);
    json := json + [RBRACKET];
  }

  // ---------------------------------------------------------------------
  // What the chunked loop sees.

  lemma {:induction false} ConcatFits(cols: seq<Column>, fetched: seq<Option<Chunk>>)
    requires forall i :: 0 <= i < |fetched| ==> fetched[i].Some? && Fits(cols, fetched[i].value)
    ensures Fits(cols, Concat(fetched))
    decreases |fetched|
  {
    if fetched != [] {
      var init := fetched[..|fetched| - 1];
      assert forall i :: 0 <= i < |init| ==> init[i] == fetched[i];
      ConcatFits(cols, init);
      RecordsAppend(cols, Concat(init), fetched[|fetched| - 1].value);
    }
  }

  /** The rows the chunked loop visits have one cell per column. */
  lemma StreamFits(cols: seq<Column>, fetches: seq<Option<Chunk>>)
    requires ChunksFit(cols, fetches)
    ensures Fits(cols, StreamRows(fetches))
  {
    var k := Sentinel(fetches);
    assert forall i :: 0 <= i < k ==> fetches[..k][i] == fetches[i];
    ConcatFits(cols, fetches[..k]);
  }

  /** The rows of a sequence of chunks, in order (the reference reading). */
  function Flatten(chunks: seq<Chunk>): seq<Row>
  {
    if chunks == [] then [] else chunks[0] + Flatten(chunks[1..])
  }

  lemma {:induction false} FlattenSnoc(chunks: seq<Chunk>, c: Chunk)
    ensures Flatten(chunks + [c]) == Flatten(chunks) + c
    decreases |chunks|
  {
    if chunks == [] {
      assert [c][1..] == [];
    } else {
      assert (chunks + [c])[1..] == chunks[1..] + [c];
      FlattenSnoc(chunks[1..], c);
    }
  }

  /** The chunks, each as a successful `Fetch()`. */
  function Fetched(chunks: seq<Chunk>): (f: seq<Option<Chunk>>)
    ensures |f| == |chunks|
  {
    seq(|chunks|, i requires 0 <= i < |chunks| => Some(chunks[i]))
  }

  lemma {:induction false} ConcatFetched(chunks: seq<Chunk>)
    ensures Concat(Fetched(chunks)) == Flatten(chunks)
    decreases |chunks|
  {
    if chunks != [] {
      var init := chunks[..|chunks| - 1];
      var last := chunks[|chunks| - 1];
      assert Fetched(chunks)[..|chunks| - 1] == Fetched(init);
      ConcatFetched(init);
      assert chunks == init + [last];
      FlattenSnoc(init, last);
    }
  }

  lemma {:induction false} SentinelAfter(chunks: seq<Chunk>, tail: seq<Option<Chunk>>)
    requires forall i :: 0 <= i < |chunks| ==> |chunks[i]| > 0
    requires tail == [] || !Continues(tail[0])
    ensures Sentinel(Fetched(chunks) + tail) == |chunks|
    decreases |chunks|
  {
    var f := Fetched(chunks) + tail;
    if chunks == [] {
      assert f == tail;
    } else {
      assert f[0] == Some(chunks[0]);
      assert f[1..] == Fetched(chunks[1..]) + tail;
      SentinelAfter(chunks[1..], tail);
    }
  }

  /** Whatever the materialized rows and however the engine cuts them into
      non-empty chunks, the chunked loop visits exactly those rows in order
      and nothing fetched after the first null or empty chunk: so
      `QueryResultToJson` and `ResultToJson` write the same text for the
      same rows. */
  lemma StreamOfChunks(chunks: seq<Chunk>, tail: seq<Option<Chunk>>)
    requires forall i :: 0 <= i < |chunks| ==> |chunks[i]| > 0
    requires tail == [] || !Continues(tail[0])
    ensures StreamRows(Fetched(chunks) + tail) == Flatten(chunks)
  {
    SentinelAfter(chunks, tail);
    assert (Fetched(chunks) + tail)[..|chunks|] == Fetched(chunks);
    ConcatFetched(chunks);
  }
}

/** The Java side of the Android plugin (`CapacitorDuckDb`): database names
    and their file paths, the registry of open databases, and the mapping of
    the native strings onto the JSON objects handed to JavaScript. Native
    calls are not executed here: each one the registry makes is recorded in
    a ghost log, and what it returns is an input of the operation. */
module JavaRegistry {
  import opened Bytes
  import opened ValueEncoder
  import opened ResultSerializer
  import opened ResultReader
  import opened BindingStore
  import opened Engine
  import opened AndroidJni

  /** `:memory:` */
  const MEMORY_NAME: Text := [58, 109, 101, 109, 111, 114, 121, 58]
  /** `.duckdb` */
  const DUCKDB_SUFFIX: Text := [46, 100, 117, 99, 107, 100, 98]
  /** `.db` */
  const DB_SUFFIX: Text := [46, 100, 98]

  const FAILED_TO_OPEN: Text := Ascii("Failed to open database: ")
  const FAILED_TO_CONNECT: Text := Ascii("Failed to create connection for database: ")
  const NOT_OPEN: Text := Ascii("Database not open: ")
  const FAILED_TO_PREPARE: Text := Ascii("Failed to prepare statement")

  // ---------------------------------------------------------------------
  // Names and paths.

  /** A name that `getDatabasePath` maps to the in-memory database: Java
      null, empty, or `:memory:`. */
  predicate InMemoryName(name: Option<Text>)
  {
    name.None? || name.value == [] || name.value == MEMORY_NAME
  }

  /** The file name for a database name: `.duckdb` is appended unless the
      name already ends in `.duckdb` or `.db`. */
  function FileName(name: Text): Text
  {
    if EndsWith(name, DUCKDB_SUFFIX) || EndsWith(name, DB_SUFFIX) then name else name + DUCKDB_SUFFIX
  }

  /** `getDatabasePath`: Java null (in memory) or the file of that name in
      the database directory `dir`. */
  function DatabasePath(dir: Text, name: Option<Text>): Option<Text>
  {
    if InMemoryName(name) then None else Some(dir + [SLASH] + FileName(name.value))
  }

  /** The file name starts with the database name and carries one of the two
      extensions. */
  lemma FileNameShape(name: Text)
    ensures StartsWith(FileName(name), name)
    ensures EndsWith(FileName(name), DUCKDB_SUFFIX) || EndsWith(FileName(name), DB_SUFFIX)
  {
    var f := FileName(name);
    if f != name {
      assert f[..|name|] == name;
      assert f[|f| - |DUCKDB_SUFFIX|..] == DUCKDB_SUFFIX;
    }
  }

  /** Normalising twice is normalising once. */
  lemma FileNameIdempotent(name: Text)
    ensures FileName(FileName(name)) == FileName(name)
  {
    FileNameShape(name);
  }

  /** A normalised name denotes the same database file as the name itself:
      `app` and `app.duckdb` share a file. */
  lemma PathOfFileName(dir: Text, name: Text)
    requires !InMemoryName(Some(name))
    ensures DatabasePath(dir, Some(FileName(name))) == DatabasePath(dir, Some(name))
  {
    var f := FileName(name);
    FileNameIdempotent(name);
    if f != name {
      assert f[|f| - 1] == 98;
      assert MEMORY_NAME[|MEMORY_NAME| - 1] == 58;
    }
  }

  // ---------------------------------------------------------------------
  // Native strings to JSON objects.

  /** The object handed back to JavaScript: `{"error": ...}`,
      `{"changes": N}`, `{"values": [...]}`, or a thrown `JSONException`
      when the native text does not read as JSON. */
  datatype Response =
    | ErrorResponse(error: Text)
    | ChangesResponse(changes: int)
    | ValuesResponse(values: seq<OrgObject>)
    | JsonException

  /** `result.startsWith("ERROR:") ? result.substring(6) : ...` */
  function StripError(result: Text): Option<Text>
  {
    if StartsWith(result, ERROR_PREFIX) then Some(result[|ERROR_PREFIX|..]) else None
  }

  /** `new JSONObject(result)` for the one object the native `execute`
      writes: `{"changes":` an integer `}`. */
  function ReadChanges(result: Text): Option<int>
  {
    var n := |CHANGES_OPEN|;
    if |result| > n && result[..n] == CHANGES_OPEN && result[|result| - 1] == RBRACE then
      ParseInteger(result[n..|result| - 1])
    else None
  }

  // ---------------------------------------------------------------------
  // How `new JSONArray(result)` holds the rows: Android's `org.json`.

  /** A value as Android's `JSONTokener` returns it for one member of the
      bridge's text. An integer literal in the `long` range stays exact (as
      an `Integer` or a `Long`). One outside that range fails
      `Long.parseLong` and becomes `Double.valueOf(literal)`, the double
      nearest `literal`, kept here as that integer since floating point is
      not modelled. Any other unquoted token is held as the token. */
  datatype OrgValue =
    | OrgNull
    | OrgBool(b: bool)
    | OrgLong(l: int64)
    | OrgDouble(nearest: int)
    | OrgString(s: Text)
    | OrgLiteral(token: Text)

  /** A `JSONObject`: the entries of its `LinkedHashMap`, in insertion order. */
  type OrgObject = seq<(Text, OrgValue)>

  /** The value `JSONTokener` makes of one decoded JSON value. */
  function OrgOf(v: Json): OrgValue
  {
    match v
    case JNull => OrgNull
    case JBool(b) => OrgBool(b)
    case JInt(i) =>
      if -0x8000_0000_0000_0000 <= i < 0x8000_0000_0000_0000 then OrgLong(i) else OrgDouble(i)
    case JString(s) => OrgString(s)
    case JOther(token) => OrgLiteral(token)
  }

  /** No name occurs twice. */
  predicate DistinctNames<V>(o: seq<(Text, V)>)
  {
    forall i, j :: 0 <= i < j < |o| ==> o[i].0 != o[j].0
  }

  /** Where `name` sits in `o`: its first index, or `|o|` when it is absent. */
  function IndexOf(o: OrgObject, name: Text): (k: nat)
    ensures k <= |o|
    ensures k < |o| ==> o[k].0 == name
    ensures forall j :: 0 <= j < k ==> o[j].0 != name
  {
    if o == [] then 0
    else if o[0].0 == name then 0
    else 1 + IndexOf(o[1..], name)
  }

  /** `JSONObject.opt(name)`. */
  function Lookup(o: OrgObject, name: Text): Option<OrgValue>
  {
    var k := IndexOf(o, name);
    if k < |o| then Some(o[k].1) else None
  }

  /** `JSONObject.put(name, value)`: a name already present keeps its place
      and takes the new value; a new name goes last. */
  function Put(o: OrgObject, name: Text, v: OrgValue): OrgObject
  {
    var k := IndexOf(o, name);
    if k < |o| then o[k := (name, v)] else o + [(name, v)]
  }

  /** `JSONTokener.readObject`: every member, in text order, is `put` into a
      fresh object, so a later member of the same name overwrites an earlier
      one. */
  function ReadObject(record: Record): OrgObject
  {
    if record == [] then []
    else
      var last := record[|record| - 1];
      Put(ReadObject(record[..|record| - 1]), last.0, OrgOf(last.1))
  }

  /** `new JSONArray(result)` once the text has been read: one object per record. */
  function ReadRecords(records: seq<Record>): seq<OrgObject>
  {
    seq(|records|, i requires 0 <= i < |records| => ReadObject(records[i]))
  }

  /** The value of the last member named `name`, if there is one. */
  function LastWith(record: Record, name: Text): Option<Json>
  {
    if record == [] then None
    else if record[|record| - 1].0 == name then Some(record[|record| - 1].1)
    else LastWith(record[..|record| - 1], name)
  }

  function OrgOfOption(v: Option<Json>): Option<OrgValue>
  {
    match v
    case None => None
    case Some(x) => Some(OrgOf(x))
  }

  /** The first index of a name is determined by where it occurs. */
  lemma IndexOfIs(o: OrgObject, name: Text, k: nat)
    requires k <= |o| && (k < |o| ==> o[k].0 == name)
    requires forall j :: 0 <= j < k ==> o[j].0 != name
    ensures IndexOf(o, name) == k
  {
  }

  /** After `put`, the name looks up the value just put. */
  lemma PutSame(o: OrgObject, name: Text, v: OrgValue)
    ensures Lookup(Put(o, name, v), name) == Some(v)
  {
    var k := IndexOf(o, name);
    var r := Put(o, name, v);
    if k < |o| {
      assert forall j :: 0 <= j < k ==> r[j] == o[j];
      IndexOfIs(r, name, k);
    } else {
      assert forall j :: 0 <= j < |o| ==> r[j] == o[j];
      IndexOfIs(r, name, |o|);
    }
  }

  /** After `put`, every other name looks up what it did before. */
  lemma PutOther(o: OrgObject, name: Text, v: OrgValue, other: Text)
    requires other != name
    ensures Lookup(Put(o, name, v), other) == Lookup(o, other)
  {
    var k := IndexOf(o, name);
    var m := IndexOf(o, other);
    var r := Put(o, name, v);
    assert forall j :: 0 <= j < |o| ==> r[j].0 == o[j].0;
    assert forall j :: 0 <= j < |o| && j != k ==> r[j] == o[j];
    if k == |o| {
      assert r[|o|].0 == name;
    }
    IndexOfIs(r, other, if m < |o| then m else |r|);
  }

  /** `put` keeps names distinct; it adds an entry exactly for a new name,
      and a new name goes last. */
  lemma PutDistinct(o: OrgObject, name: Text, v: OrgValue)
    requires DistinctNames(o)
    ensures DistinctNames(Put(o, name, v))
    ensures Lookup(o, name).Some? ==> |Put(o, name, v)| == |o|
    ensures Lookup(o, name).None? ==> Put(o, name, v) == o + [(name, v)]
  {
    var k := IndexOf(o, name);
    var r := Put(o, name, v);
    assert forall j :: 0 <= j < |o| ==> r[j].0 == o[j].0;
    if k == |o| {
      assert r[|o|].0 == name;
    }
  }

  /** `readObject` looks up, for every name, the last value written under
      it, and nothing for a name the text does not hold. */
  lemma {:induction false} ReadObjectLookup(record: Record, name: Text)
    ensures Lookup(ReadObject(record), name) == OrgOfOption(LastWith(record, name))
  {
    if record != [] {
      var init, last := record[..|record| - 1], record[|record| - 1];
      ReadObjectLookup(init, name);
      if last.0 == name {
        PutSame(ReadObject(init), last.0, OrgOf(last.1));
      } else {
        PutOther(ReadObject(init), last.0, OrgOf(last.1), name);
      }
    }
  }

  /** The object `readObject` builds never holds a name twice. */
  lemma {:induction false} ReadObjectDistinct(record: Record)
    ensures DistinctNames(ReadObject(record))
  {
    if record != [] {
      var init, last := record[..|record| - 1], record[|record| - 1];
      ReadObjectDistinct(init);
      PutDistinct(ReadObject(init), last.0, OrgOf(last.1));
    }
  }

  /** Every member, in text order, each value as `JSONTokener` makes it. */
  function Converted(record: Record): OrgObject
  {
    seq(|record|, i requires 0 <= i < |record| => (record[i].0, OrgOf(record[i].1)))
  }

  lemma ConvertedSnoc(record: Record)
    requires record != []
    ensures Converted(record) == Converted(record[..|record| - 1]) + [(record[|record| - 1].0, OrgOf(record[|record| - 1].1))]
  {
  }

  /** With distinct names nothing is overwritten: the object holds every
      member, in text order. */
  lemma {:induction false} DistinctNamesInOrder(record: Record)
    requires DistinctNames(record)
    ensures ReadObject(record) == Converted(record)
  {
    if record != [] {
      var init, last := record[..|record| - 1], record[|record| - 1];
      assert DistinctNames(init) by {
        assert forall j :: 0 <= j < |init| ==> init[j] == record[j];
      }
      DistinctNamesInOrder(init);
      var o := ReadObject(init);
      assert forall j :: 0 <= j < |o| ==> o[j].0 == record[j].0;
      IndexOfIs(o, last.0, |o|);
      ConvertedSnoc(record);
    }
  }

  /** What `JSONTokener` makes of one cell: booleans, nulls and strings
      unchanged, every signed integer and every unsigned one up to
      `Long.MAX_VALUE` exactly, and a larger UBIGINT as a `Double`. */
  lemma CellAsJava(t: LogicalType, v: Value)
    requires v.Present? && t != FLOAT && t != DOUBLE
    ensures t == BOOLEAN ==> OrgOf(Meaning(t, v)) == OrgBool(v.asBool)
    ensures IsSigned(t) ==> OrgOf(Meaning(t, v)) == OrgLong(v.asInt64)
    ensures IsUnsigned(t) && v.asUInt64 < 0x8000_0000_0000_0000 ==> OrgOf(Meaning(t, v)) == OrgLong(v.asUInt64)
    ensures IsUnsigned(t) && v.asUInt64 >= 0x8000_0000_0000_0000 ==> OrgOf(Meaning(t, v)) == OrgDouble(v.asUInt64)
    ensures t.OtherType? ==> OrgOf(Meaning(t, v)) == OrgString(v.text)
  {
  }

  /** `SELECT 1 AS a, 2 AS a`: the bridge writes both members, and the
      object JavaScript receives holds only the second. */
  lemma DuplicateColumnLastWins(a: Text)
    ensures ReadObject([(a, JInt(1)), (a, JInt(2))]) == [(a, OrgLong(2))]
  {
    var one: Record := [(a, JInt(1))];
    var both: Record := [(a, JInt(1)), (a, JInt(2))];
    assert one[..0] == [] && one[0] == (a, JInt(1));
    assert ReadObject(one) == Put([], a, OrgLong(1));
    var first := ReadObject(one);
    assert first == [(a, OrgLong(1))];
    assert both[..1] == one && both[1] == (a, JInt(2));
    IndexOfIs(first, a, 0);
  }

  /** What `execute` returns for the native result. */
  function ExecuteResponse(result: Text): Response
  {
    match StripError(result)
    case Some(m) => ErrorResponse(m)
    case None =>
      match ReadChanges(result)
      case Some(n) => ChangesResponse(n)
      case None => JsonException
  }

  /** What `query` and `queryWithParams` return: `{"values": new JSONArray(result)}`,
      the text read as JSON and each object built by `readObject`. */
  function QueryResponse(result: Text): Response
  {
    match StripError(result)
    case Some(m) => ErrorResponse(m)
    case None =>
      match ParseRows(result)
      case Some(rows) => ValuesResponse(ReadRecords(rows))
      case None => JsonException
  }

  /** The `changes` rule of `run`: the number of result rows, or 1 when
      there are none. */
  function RunChanges(rowCount: nat): nat
  {
    if rowCount > 0 then rowCount else 1
  }

  /** What `run` returns: the row count of the parsed array through the
      `changes` rule. */
  function RunResponse(result: Text): Response
  {
    match StripError(result)
    case Some(m) => ErrorResponse(m)
    case None =>
      match ParseRows(result)
      case Some(rows) => ChangesResponse(RunChanges(|rows|))
      case None => JsonException
  }

  lemma NotAnError(t: Text, first: byte)
    requires |t| > 0 && t[0] == first && first != ERROR_PREFIX[0]
    ensures StripError(t).None?
  {
    if |t| >= |ERROR_PREFIX| {
      assert t[..|ERROR_PREFIX|][0] == first;
    }
  }

  /** An error string from the native side gives `{"error": message}` with
      the engine's message intact, in all three mappings. */
  lemma ErrorsPassThrough(message: Text)
    ensures QueryResponse(ErrorText(message)) == ErrorResponse(message)
    ensures ExecuteResponse(ErrorText(message)) == ErrorResponse(message)
    ensures RunResponse(ErrorText(message)) == ErrorResponse(message)
  {
    assert ErrorText(message)[..|ERROR_PREFIX|] == ERROR_PREFIX;
  }

  /** The JSON of a readable result reaches JavaScript as `values` holding
      one `JSONObject` per decoded row, built by `readObject`, and `run`
      counts the rows by the `changes` rule. */
  lemma RowsPassThrough(cols: seq<Column>, rows: seq<Row>)
    requires Readable(cols, rows)
    ensures QueryResponse(RowsText(cols, rows)) == ValuesResponse(ReadRecords(DecodedRows(cols, rows)))
    ensures RunResponse(RowsText(cols, rows)) == ChangesResponse(RunChanges(|rows|))
  {
    NotAnError(RowsText(cols, rows), LBRACKET);
    RowsRoundTrip(cols, rows);
  }

  /** The `{"changes":N}` of a successful native `execute` reads back as
      `N`: the row count, as the native side stored it in an `int64_t`. */
  lemma ChangesPassThrough(rowCount: nat)
    ensures ExecuteResponse(ChangesText(rowCount)) == ChangesResponse(WrapInt64(rowCount))
  {
    var t := ChangesText(rowCount);
    var d := DecimalText(WrapInt64(rowCount));
    NotAnError(t, LBRACE);
    DecimalTextShape(WrapInt64(rowCount));
    assert t[..|CHANGES_OPEN|] == CHANGES_OPEN;
    assert t[|CHANGES_OPEN|..|t| - 1] == d;
    DecimalRoundTrip(WrapInt64(rowCount));
  }

  /** End to end, the engine's answer to `query` as JavaScript sees it:
      the decoded rows as `org.json` objects, or the engine's message. */
  lemma QueryEndToEnd(o: Outcome<QueryResult>)
    requires o.Success? ==> Readable(o.value.columns, Rows(o.value))
    ensures o.Success? ==> QueryResponse(QueryReply(o)) == ValuesResponse(ReadRecords(DecodedRows(o.value.columns, Rows(o.value))))
    ensures !o.Success? ==> QueryResponse(QueryReply(o)) == ErrorResponse(Message(o))
  {
    if o.Success? {
      RowsPassThrough(o.value.columns, Rows(o.value));
    } else {
      ErrorsPassThrough(Message(o));
    }
  }

  /** End to end for `execute`: the row count, or the engine's message. */
  lemma ExecuteEndToEnd(o: Outcome<QueryResult>)
    ensures o.Success? ==> ExecuteResponse(ExecuteReply(o)) == ChangesResponse(WrapInt64(|Rows(o.value)|))
    ensures !o.Success? ==> ExecuteResponse(ExecuteReply(o)) == ErrorResponse(Message(o))
  {
    if o.Success? {
      ChangesPassThrough(|Rows(o.value)|);
    } else {
      ErrorsPassThrough(Message(o));
    }
  }

  /** End to end for `run`: `changes` is the number of rows the prepared
      statement returned, at least 1, or the engine's message. */
  lemma RunEndToEnd(o: Outcome<QueryResult>)
    requires o.Success? ==> Readable(o.value.columns, Rows(o.value))
    ensures o.Success? ==> RunResponse(QueryReply(o)) == ChangesResponse(RunChanges(|Rows(o.value)|))
    ensures o.Success? ==> RunChanges(|Rows(o.value)|) >= 1
    ensures !o.Success? ==> RunResponse(QueryReply(o)) == ErrorResponse(Message(o))
  {
    if o.Success? {
      RowsPassThrough(o.value.columns, Rows(o.value));
    } else {
      ErrorsPassThrough(Message(o));
    }
  }

  // ---------------------------------------------------------------------
  // Parameters.

  /** An element of the `values` JSONArray, by its Java class. */
  datatype JavaValue =
    | JavaNull                  // null or JSONObject.NULL
    | JavaString(s: Text)
    | JavaInteger(i: int32)
    | JavaLong(l: int64)
    | JavaDouble(d: Double)
    | JavaFloat(widened: Double)   // its doubleValue()
    | JavaBoolean(b: bool)
    | JavaOther(text: Text)        // any other object, by its toString()

  /** A call into the native library, as the registry issues it. */
  datatype NativeCall =
    | OpenDatabase(path: Option<Text>)
    | Connect(db: int64)
    | CloseDatabase(db: int64)
    | Disconnect(conn: int64)
    | ExecuteSql(conn: int64, sql: Text)
    | QuerySql(conn: int64, sql: Text)
    | Prepare(conn: int64, sql: Text)
    | BindNull(stmt: int64, index: int32)
    | BindString(stmt: int64, index: int32, s: Text)
    | BindLong(stmt: int64, index: int32, l: int64)
    | BindDouble(stmt: int64, index: int32, d: Double)
    | BindBoolean(stmt: int64, index: int32, b: bool)
    | ExecutePrepared(stmt: int64)
    | DestroyPrepared(stmt: int64)

  /** The native bind call for one value at a (1-based) index. */
  function BindCall(stmt: int64, index: int32, v: JavaValue): NativeCall
  {
    match v
    case JavaNull => BindNull(stmt, index)
    case JavaString(s) => BindString(stmt, index, s)
    case JavaInteger(i) => BindLong(stmt, index, i)
    case JavaLong(l) => BindLong(stmt, index, l)
    case JavaDouble(d) => BindDouble(stmt, index, d)
    case JavaFloat(w) => BindDouble(stmt, index, w)
    case JavaBoolean(b) => BindBoolean(stmt, index, b)
    case JavaOther(t) => BindString(stmt, index, t)
  }

  /** The bind calls for a whole parameter list: value `i` at index `i + 1`. */
  function BindCalls(stmt: int64, values: seq<JavaValue>): (calls: seq<NativeCall>)
    requires |values| < 0x8000_0000
    ensures |calls| == |values|
  {
    seq(|values|, i requires 0 <= i < |values| => BindCall(stmt, i + 1, values[i]))
  }

  /** The value a parameter is meant to carry into the engine (the
      reference reading of the dispatch). */
  function ParamOf(v: JavaValue): Param
  {
    match v
    case JavaNull => PNull
    case JavaString(s) => PVarchar(s)
    case JavaInteger(i) => PBigint(i)
    case JavaLong(l) => PBigint(l)
    case JavaDouble(d) => PDouble(d)
    case JavaFloat(w) => PDouble(w)
    case JavaBoolean(b) => PBoolean(b)
    case JavaOther(t) => PVarchar(t)
  }

  /** The slot a native bind call writes and what it stores there (the JNI
      `bind*` functions; a Java `true` arrives as `JNI_TRUE`); `None` for
      every other call. */
  function BindEffect(c: NativeCall): Option<(int32, Param)>
  {
    match c
    case BindNull(_, index) => Some((index, PNull))
    case BindString(_, index, s) => Some((index, PVarchar(s)))
    case BindLong(_, index, l) => Some((index, PBigint(l)))
    case BindDouble(_, index, d) => Some((index, PDouble(d)))
    case BindBoolean(_, index, b) => Some((index, PBoolean(b)))
    case _ => None
  }

  /** The bindings vector after the native side has run `calls` in order. */
  function Applied(b: seq<Param>, calls: seq<NativeCall>): seq<Param>
  {
    if calls == [] then b
    else
      var before := Applied(b, calls[..|calls| - 1]);
      match BindEffect(calls[|calls| - 1])
      case None => before
      case Some((index, p)) =>
        match Bound(before, index, p)
        case None => before
        case Some(after) => after
  }

  lemma BindCallsStep(stmt: int64, values: seq<JavaValue>)
    requires 0 < |values| < 0x8000_0000
    ensures BindCalls(stmt, values)[..|values| - 1] == BindCalls(stmt, values[..|values| - 1])
    ensures BindEffect(BindCalls(stmt, values)[|values| - 1]) == Some((|values| as int32, ParamOf(values[|values| - 1])))
  {
  }

  /** Running the bind calls of a parameter list on a fresh statement with
      `n` parameter slots leaves value `i` in slot `i` (index `i + 1`) and
      null in any slot beyond the list. */
  lemma {:induction false} ParametersInOrder(n: nat, stmt: int64, values: seq<JavaValue>)
    requires |values| < 0x8000_0000
    ensures |Applied(NullSlots(n), BindCalls(stmt, values))| == Max(n, |values|)
    ensures forall i :: 0 <= i < |values| ==> Applied(NullSlots(n), BindCalls(stmt, values))[i] == ParamOf(values[i])
    ensures forall i :: |values| <= i < Max(n, |values|) ==> Applied(NullSlots(n), BindCalls(stmt, values))[i] == PNull
    decreases |values|
  {
    if values != [] {
      var k := |values| - 1;
      var init := values[..k];
      BindCallsStep(stmt, values);
      ParametersInOrder(n, stmt, init);
      var before := Applied(NullSlots(n), BindCalls(stmt, init));
      var after := Bound(before, k + 1, ParamOf(values[k])).value;
      assert Applied(NullSlots(n), BindCalls(stmt, values)) == after;
      forall i | 0 <= i < k
        ensures after[i] == ParamOf(values[i])
      {
        assert init[i] == values[i];
      }
    }
  }

  // ---------------------------------------------------------------------
  // The registry.

  /** The closing calls `close` issues for each name of `names`, in order:
      the connection first, then the database. */
  function ClosingCalls(dbs: map<Text, int64>, conns: map<Text, int64>, names: seq<Text>): seq<NativeCall>
  {
    if names == [] then []
    else
      var last := names[|names| - 1];
      ClosingCalls(dbs, conns, names[..|names| - 1]) +
      (if last in conns then [Disconnect(conns[last])] else []) +
      (if last in dbs then [CloseDatabase(dbs[last])] else [])
  }

  lemma ClosingCallsStep(dbs: map<Text, int64>, conns: map<Text, int64>, names: seq<Text>, i: nat, before: seq<NativeCall>)
    requires i < |names|
    requires names[i] in dbs && names[i] in conns
    ensures before + ClosingCalls(dbs, conns, names[..i + 1]) ==
      before + ClosingCalls(dbs, conns, names[..i]) + [Disconnect(conns[names[i]]), CloseDatabase(dbs[names[i]])]
  {
    assert names[..i + 1][..i] == names[..i];
  }

  /** The entries of `m` whose names are listed in `names`. */
  function Keep(m: map<Text, int64>, names: seq<Text>): map<Text, int64>
  {
    map name | name in m && name in names :: m[name]
  }

  lemma KeepAll(m: map<Text, int64>, names: seq<Text>)
    requires forall name :: name in m <==> name in names
    ensures Keep(m, names) == m
  {
  }

  lemma KeepStep(m: map<Text, int64>, names: seq<Text>, i: nat)
    requires i < |names| && names[i] in m
    requires forall j, k :: 0 <= j < k < |names| ==> names[j] != names[k]
    ensures names[i] in Keep(m, names[i..]) && Keep(m, names[i..])[names[i]] == m[names[i]]
    ensures Keep(m, names[i..]) - {names[i]} == Keep(m, names[i + 1..])
  {
    assert names[i..] == [names[i]] + names[i + 1..];
    assert names[i] !in names[i + 1..] by {
      forall k | i + 1 <= k < |names| ensures names[k] != names[i] {}
    }
  }

  /** `CapacitorDuckDb`: name to database handle and name to connection
      handle. */
  class Registry {
    /** The application's database directory (`files/duckdb`). */
    const dir: Text
    var databases: map<Text, int64>
    var connections: map<Text, int64>
    /** Every native call made so far, in order. */
    ghost var calls: seq<NativeCall>

    /** Both maps have the same names, and no handle in them is `0`. */
    ghost predicate Valid()
      reads this
    {
      databases.Keys == connections.Keys &&
      (forall name :: name in databases ==> databases[name] != 0) &&
      (forall name :: name in connections ==> connections[name] != 0)
    }

    constructor (dir: Text)
      ensures Valid() && this.dir == dir
      ensures databases == map[] && connections == map[] && calls == []
    {
      this.dir := dir;
      databases := map[];
      connections := map[];
      calls := [];
    }

    /** `isOpen`: registered with a non-zero handle, which for a valid
        registry is being registered at all, in either map. */
    method IsOpen(name: Text) returns (open: bool)
      requires Valid()
      ensures open <==> name in databases
      ensures open <==> name in connections
    {
      open := name in databases && databases[name] != 0;
    }

    /** `open`: nothing for a registered name; otherwise open the file (or
        memory), connect, and register both handles; a failed connect
        closes the database again. `dbHandle` and `connHandle` are what the
        native `openDatabase` and `connect` return. */
    method Open(name: Text, dbHandle: int64, connHandle: int64) returns (error: Option<Text>)
      requires Valid()
      modifies this
      ensures Valid()
      ensures name in old(databases) ==>
        error.None? && databases == old(databases) && connections == old(connections) && calls == old(calls)
      ensures name !in old(databases) && dbHandle == 0 ==>
        error == Some(FAILED_TO_OPEN + name) && databases == old(databases) && connections == old(connections) &&
        calls == old(calls) + [OpenDatabase(DatabasePath(dir, Some(name)))]
      ensures name !in old(databases) && dbHandle != 0 && connHandle == 0 ==>
        error == Some(FAILED_TO_CONNECT + name) && databases == old(databases) && connections == old(connections) &&
        calls == old(calls) + [OpenDatabase(DatabasePath(dir, Some(name))), Connect(dbHandle), CloseDatabase(dbHandle)]
      ensures name !in old(databases) && dbHandle != 0 && connHandle != 0 ==>
        error.None? && databases == old(databases)[name := dbHandle] && connections == old(connections)[name := connHandle] &&
        calls == old(calls) + [OpenDatabase(DatabasePath(dir, Some(name))), Connect(dbHandle)]
    {
      if name in databases {
        return None;
      }
      var path := DatabasePath(dir, Some(name));
      calls := calls + [OpenDatabase(path)];
      if dbHandle == 0 {
        return Some(FAILED_TO_OPEN + name);
      }
      calls := calls + [Connect(dbHandle)];
      if connHandle == 0 {
        calls := calls + [CloseDatabase(dbHandle)];
        return Some(FAILED_TO_CONNECT + name);
      }
      databases := databases[name := dbHandle];
      connections := connections[name := connHandle];
      error := None;
    }

    /** `close`: an unregistered name is an error and changes nothing;
        otherwise both entries go, the connection closed before the
        database. */
    method Close(name: Text) returns (error: Option<Text>)
      requires Valid()
      modifies this
      ensures Valid()
      ensures name !in old(databases) ==>
        error == Some(NOT_OPEN + name) && databases == old(databases) && connections == old(connections) && calls == old(calls)
      ensures name in old(databases) ==>
        error.None? && databases == old(databases) - {name} && connections == old(connections) - {name} &&
        calls == old(calls) + [Disconnect(old(connections)[name]), CloseDatabase(old(databases)[name])]
    {
      if name !in databases {
        return Some(NOT_OPEN + name);
      }
      if name in connections {
        var connHandle := connections[name];
        connections := connections - {name};
        if connHandle != 0 {
          calls := calls + [Disconnect(connHandle)];
        }
      }
      var dbHandle := databases[name];
      databases := databases - {name};
      if dbHandle != 0 {
        calls := calls + [CloseDatabase(dbHandle)];
      }
      error := None;
    }

    /** `closeAll`: `close` for every registered name, in the order of the
        key-set snapshot `order`; afterwards nothing is registered. */
    method CloseAll(order: seq<Text>)
      requires Valid()
      requires forall name :: name in databases <==> name in order
      requires forall i, j :: 0 <= i < j < |order| ==> order[i] != order[j]
      modifies this
      ensures Valid()
      ensures databases == map[] && connections == map[]
      ensures calls == old(calls) + ClosingCalls(old(databases), old(connections), order)
    {
      ghost var dbs, conns, before := databases, connections, calls;
      KeepAll(dbs, order);
      KeepAll(conns, order);
      for i := 0 to |order|
        invariant Valid()
        invariant databases == Keep(dbs, order[i..])
        invariant connections == Keep(conns, order[i..])
        invariant calls == before + ClosingCalls(dbs, conns, order[..i])
      {
        KeepStep(dbs, order, i);
        KeepStep(conns, order, i);
        ClosingCallsStep(dbs, conns, order, i, before);
        var _ := Close(order[i]);
      }
      assert order[..|order|] == order;
    }

    /** The first step of every statement call: the connection handle of a
        registered name, or `None`. */
    method ConnectionOf(name: Text) returns (conn: Option<int64>)
      requires Valid()
      ensures conn.None? <==> name !in connections
      ensures conn.Some? ==> conn.value == connections[name] && conn.value != 0
    {
      if name !in connections || connections[name] == 0 {
        return None;
      }
      conn := Some(connections[name]);
    }

    /** `execute`; `result` is what the native `execute` returns. */
    method Execute(name: Text, sql: Text, result: Text) returns (response: Response)
      requires Valid()
      modifies this`calls
      ensures name !in connections ==> response == ErrorResponse(NOT_OPEN + name) && calls == old(calls)
      ensures name in connections ==>
        response == ExecuteResponse(result) && calls == old(calls) + [ExecuteSql(connections[name], sql)]
    {
      var conn := ConnectionOf(name);
      if conn.None? {
        return ErrorResponse(NOT_OPEN + name);
      }
      calls := calls + [ExecuteSql(conn.value, sql)];
      response := ExecuteResponse(result);
    }

    /** `query`; `result` is what the native `query` returns. */
    method Query(name: Text, sql: Text, result: Text) returns (response: Response)
      requires Valid()
      modifies this`calls
      ensures name !in connections ==> response == ErrorResponse(NOT_OPEN + name) && calls == old(calls)
      ensures name in connections ==>
        response == QueryResponse(result) && calls == old(calls) + [QuerySql(connections[name], sql)]
    {
      var conn := ConnectionOf(name);
      if conn.None? {
        return ErrorResponse(NOT_OPEN + name);
      }
      calls := calls + [QuerySql(conn.value, sql)];
      response := QueryResponse(result);
    }

    /** The bind loop of `queryWithParams` and `run`: parameter `i` at
        index `i + 1`, dispatched on its Java class. */
    method BindParameters(stmt: int64, values: Option<seq<JavaValue>>)
      requires values.Some? ==> |values.value| < 0x8000_0000
      modifies this`calls
      ensures calls == old(calls) + if values.Some? then BindCalls(stmt, values.value) else []
    {
      if values.None? {
        return;
      }
      var vs := values.value;
      for i := 0 to |vs|
        invariant calls == old(calls) + BindCalls(stmt, vs[..i])
      {
        var paramIndex: int32 := i + 1;
        match vs[i]
        case JavaNull => calls := calls + [BindNull(stmt, paramIndex)];
        case JavaString(s) => calls := calls + [BindString(stmt, paramIndex, s)];
        case JavaInteger(n) => calls := calls + [BindLong(stmt, paramIndex, n)];
        case JavaLong(l) => calls := calls + [BindLong(stmt, paramIndex, l)];
        case JavaDouble(d) => calls := calls + [BindDouble(stmt, paramIndex, d)];
        case JavaFloat(w) => calls := calls + [BindDouble(stmt, paramIndex, w)];
        case JavaBoolean(b) => calls := calls + [BindBoolean(stmt, paramIndex, b)];
        case JavaOther(t) => calls := calls + [BindString(stmt, paramIndex, t)];
        assert BindCalls(stmt, vs[..i + 1]) == BindCalls(stmt, vs[..i]) + [BindCall(stmt, paramIndex, vs[i])];
      }
      assert vs[..|vs|] == vs;
    }

    /** `queryWithParams`: prepare, bind, execute, and destroy the statement
        on every path after a successful prepare. `stmt` and `result` are
        what the native `prepare` and `executePrepared` return. */
    method QueryWithParams(name: Text, sql: Text, values: Option<seq<JavaValue>>, stmt: int64, result: Text)
      returns (response: Response)
      requires Valid()
      requires values.Some? ==> |values.value| < 0x8000_0000
      modifies this`calls
      ensures name !in connections ==> response == ErrorResponse(NOT_OPEN + name) && calls == old(calls)
      ensures name in connections && stmt == 0 ==>
        response == ErrorResponse(FAILED_TO_PREPARE) && calls == old(calls) + [Prepare(connections[name], sql)]
      ensures name in connections && stmt != 0 ==>
        response == QueryResponse(result) &&
        calls == old(calls) + [Prepare(connections[name], sql)] +
          (if values.Some? then BindCalls(stmt, values.value) else []) +
          [ExecutePrepared(stmt), DestroyPrepared(stmt)]
    {
      var conn := ConnectionOf(name);
      if conn.None? {
        return ErrorResponse(NOT_OPEN + name);
      }
      calls := calls + [Prepare(conn.value, sql)];
      if stmt == 0 {
        return ErrorResponse(FAILED_TO_PREPARE);
      }
      BindParameters(stmt, values);
      calls := calls + [ExecutePrepared(stmt)];
      response := QueryResponse(result);
      calls := calls + [DestroyPrepared(stmt)];
    }

    /** `run`: as `queryWithParams`, answering with the `changes` rule. */
    method Run(name: Text, sql: Text, values: Option<seq<JavaValue>>, stmt: int64, result: Text)
      returns (response: Response)
      requires Valid()
      requires values.Some? ==> |values.value| < 0x8000_0000
      modifies this`calls
      ensures name !in connections ==> response == ErrorResponse(NOT_OPEN + name) && calls == old(calls)
      ensures name in connections && stmt == 0 ==>
        response == ErrorResponse(FAILED_TO_PREPARE) && calls == old(calls) + [Prepare(connections[name], sql)]
      ensures name in connections && stmt != 0 ==>
        response == RunResponse(result) &&
        calls == old(calls) + [Prepare(connections[name], sql)] +
          (if values.Some? then BindCalls(stmt, values.value) else []) +
          [ExecutePrepared(stmt), DestroyPrepared(stmt)]
    {
      var conn := ConnectionOf(name);
      if conn.None? {
        return ErrorResponse(NOT_OPEN + name);
      }
      calls := calls + [Prepare(conn.value, sql)];
      if stmt == 0 {
        return ErrorResponse(FAILED_TO_PREPARE);
      }
      BindParameters(stmt, values);
      calls := calls + [ExecutePrepared(stmt)];
      response := RunResponse(result);
      calls := calls + [DestroyPrepared(stmt)];
    }
  }
}

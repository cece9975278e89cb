/** The JNI entry points of the Android bridge. A handle is a `jlong` that is
    `0` or a wrapper's address; here `null` or the wrapper. Every failure is
    reported in the returned string, prefixed with `ERROR:`. */
module AndroidJni {
  import opened Bytes
  import opened ResultSerializer
  import opened BindingStore
  import opened Engine
  import opened Handles

  /** `ERROR:` */
  const ERROR_PREFIX: Text := [69, 82, 82, 79, 82, 58]

  const INVALID_CONNECTION_HANDLE: Text := Ascii("Invalid connection handle")
  const INVALID_SQL_STRING: Text := Ascii("Invalid SQL string")
  const INVALID_STATEMENT_HANDLE: Text := Ascii("Invalid statement handle")

  /** `{"changes":` */
  const CHANGES_OPEN: Text := [123, 34, 99, 104, 97, 110, 103, 101, 115, 34, 58]

  /** `JNI_TRUE`, the one `jboolean` value `bindBoolean` reads as true. */
  const JNI_TRUE: byte := 1

  /** An error return: the prefix, then the message verbatim. */
  function ErrorText(message: Text): Text
  {
    ERROR_PREFIX + message
  }

  /** What a successful `execute` returns: `{"changes":N}` with `N` the
      result's `RowCount()` stored in an `int64_t`. */
  function ChangesText(rowCount: nat): Text
  {
    CHANGES_OPEN + DecimalText(WrapInt64(rowCount)) + [RBRACE]
  }

  /** What `query` and `executePrepared` return for the engine's answer:
      the rows as JSON, or the engine's message behind the prefix whether
      the result has an error or the call threw. */
  function QueryReply(o: Outcome<QueryResult>): Text
  {
    match o
    case Success(r) => RowsText(r.columns, Rows(r))
    case EngineError(m) => ErrorText(m)
    case Thrown(w) => ErrorText(w)
  }

  /** What `execute` returns for the engine's answer. */
  function ExecuteReply(o: Outcome<QueryResult>): Text
  {
    match o
    case Success(r) => ChangesText(|Rows(r)|)
    case EngineError(m) => ErrorText(m)
    case Thrown(w) => ErrorText(w)
  }

  /** The message an error return carries, read back by dropping the prefix. */
  function Message(o: Outcome<QueryResult>): Text
    requires !o.Success?
  {
    if o.EngineError? then o.message else o.what
  }

  /** A query reply starts with the error prefix exactly when the engine did
      not succeed, and then carries the engine's message verbatim: a JSON
      result (which opens with `[`) is never mistaken for an error. */
  lemma QueryChannel(o: Outcome<QueryResult>)
    ensures StartsWith(QueryReply(o), ERROR_PREFIX) <==> !o.Success?
    ensures !o.Success? ==> QueryReply(o)[|ERROR_PREFIX|..] == Message(o)
  {
    if o.Success? {
      var t := QueryReply(o);
      assert t[0] == LBRACKET;
      if |t| >= |ERROR_PREFIX| {
        assert t[..|ERROR_PREFIX|][0] == LBRACKET;
      }
    }
  }

  /** The same separation for `execute`, whose JSON opens with `{`. */
  lemma ExecuteChannel(o: Outcome<QueryResult>)
    ensures StartsWith(ExecuteReply(o), ERROR_PREFIX) <==> !o.Success?
    ensures !o.Success? ==> ExecuteReply(o)[|ERROR_PREFIX|..] == Message(o)
  {
    if o.Success? {
      var t := ExecuteReply(o);
      assert t[0] == LBRACE;
      assert t[..|ERROR_PREFIX|][0] == LBRACE;
    }
  }

  // ---------------------------------------------------------------------
  // Lifecycle.

  /** `openDatabase`: a null or empty path opens in memory; `opens` is
      whether the engine's constructor returned (a throw gives `0`). A
      failed spatial extension load is ignored. */
  method OpenDatabase(path: Option<Text>, opens: bool) returns (db: Database?)
    ensures db != null <==> opens
    ensures db != null ==> fresh(db) && db.live && db.location == Location(path) && !db.spatialLoaded
  {
    if !opens {
      return null;
    }
    db := new Database(Location(path));
  }

  /** `closeDatabase`: nothing for a `0` handle, otherwise the wrapper is
      deleted. */
  method CloseDatabase(db: Database?)
    requires db != null ==> db.live
    modifies db
    ensures db != null ==> !db.live && db.spatialLoaded == old(db.spatialLoaded)
  {
    if db != null {
      db.live := false;
    }
  }

  /** `connect`: `0` for a `0` handle or when the engine's `Connection`
      constructor throws (`connects` false). */
  method Connect(db: Database?, connects: bool) returns (conn: Connection?)
    requires db != null ==> db.live
    ensures conn != null <==> db != null && connects
    ensures conn != null ==> fresh(conn) && conn.db == db && conn.live
  {
    if db == null || !connects {
      return null;
    }
    conn := new Connection(db);
  }

  /** `disconnect`: nothing for a `0` handle. */
  method Disconnect(conn: Connection?)
    requires conn != null ==> conn.live
    modifies conn
    ensures conn != null ==> !conn.live
  {
    if conn != null {
      conn.live := false;
    }
  }

  // ---------------------------------------------------------------------
  // Statements. `sql` is `None` when `GetStringUTFChars` gives `nullptr`;
  // `engine` is what `Query` answers for each SQL text.

  /** `query`: the handle is checked, then the SQL string, and only then is
      the engine asked; a success is serialized by `ResultToJson` over the
      materialized rows. */
  method Query(conn: Connection?, sql: Option<Text>, engine: Text -> Outcome<QueryResult>) returns (reply: Text)
    requires conn != null ==> conn.live
    ensures conn == null ==> reply == ErrorText(INVALID_CONNECTION_HANDLE)
    ensures conn != null && sql.None? ==> reply == ErrorText(INVALID_SQL_STRING)
    ensures conn != null && sql.Some? ==> reply == QueryReply(engine(sql.value))
  {
    if conn == null {
      return ErrorText(INVALID_CONNECTION_HANDLE);
    }
    if sql.None? {
      return ErrorText(INVALID_SQL_STRING);
    }
    match engine(sql.value)
    case Success(r) =>
      reply := ResultToJson(r.columns, Rows(r));
    case EngineError(m) =>
      reply := ErrorText(m);
    case Thrown(w) =>
      reply := ErrorText(w);
  }

  /** `execute`: the same checks; a success reports the row count. */
  method Execute(conn: Connection?, sql: Option<Text>, engine: Text -> Outcome<QueryResult>) returns (reply: Text)
    requires conn != null ==> conn.live
    ensures conn == null ==> reply == ErrorText(INVALID_CONNECTION_HANDLE)
    ensures conn != null && sql.None? ==> reply == ErrorText(INVALID_SQL_STRING)
    ensures conn != null && sql.Some? ==> reply == ExecuteReply(engine(sql.value))
  {
    if conn == null {
      return ErrorText(INVALID_CONNECTION_HANDLE);
    }
    if sql.None? {
      return ErrorText(INVALID_SQL_STRING);
    }
    match engine(sql.value)
    case Success(r) =>
      var rowsChanged := WrapInt64(|Rows(r)|);
      reply := CHANGES_OPEN + DecimalText(rowsChanged) + [RBRACE];
    case EngineError(m) =>
      reply := ErrorText(m);
    case Thrown(w) =>
      reply := ErrorText(w);
  }

  /** `prepare`: `0` for a `0` handle, a null SQL string, a prepare error or
      a throw; otherwise a new statement with one null binding per
      parameter. */
  method Prepare(conn: Connection?, sql: Option<Text>, engine: Text -> Outcome<Plan>) returns (stmt: PreparedStatement?)
    requires conn != null ==> conn.live
    ensures stmt != null <==> conn != null && sql.Some? && engine(sql.value).Success?
    ensures stmt != null ==> fresh(stmt) && stmt.live && stmt.plan == engine(sql.value).value
    ensures stmt != null ==> stmt.bindings == NullSlots(stmt.plan.paramCount)
  {
    if conn == null || sql.None? {
      return null;
    }
    match engine(sql.value)
    case Success(plan) =>
      stmt := new PreparedStatement(plan);
    case EngineError(_) =>
      stmt := null;
    case Thrown(_) =>
      stmt := null;
  }

  /** `destroyPrepared`: nothing for a `0` handle. */
  method DestroyPrepared(stmt: PreparedStatement?)
    requires stmt != null ==> stmt.live
    modifies stmt
    ensures stmt != null ==> !stmt.live && stmt.bindings == old(stmt.bindings)
  {
    if stmt != null {
      stmt.live := false;
    }
  }

  /** `bindString`: a Java null string (no characters) binds null. */
  method BindString(stmt: PreparedStatement?, index: int32, value: Option<Text>) returns (ok: bool)
    requires stmt != null ==> stmt.live
    modifies stmt
    ensures ok <==> stmt != null && index >= 1
    ensures stmt != null ==> stmt.live == old(stmt.live)
    ensures stmt != null ==>
      (stmt.bindings ==
       if ok then Bound(old(stmt.bindings), index, if value.None? then PNull else PVarchar(value.value)).value
       else old(stmt.bindings))
  {
    var p := if value.None? then PNull else PVarchar(value.value);
    ok := BindSlot(stmt, index, p);
  }

  method BindLong(stmt: PreparedStatement?, index: int32, value: int64) returns (ok: bool)
    requires stmt != null ==> stmt.live
    modifies stmt
    ensures ok <==> stmt != null && index >= 1
    ensures stmt != null ==> stmt.live == old(stmt.live)
    ensures stmt != null ==> stmt.bindings == if ok then Bound(old(stmt.bindings), index, PBigint(value)).value else old(stmt.bindings)
  {
    ok := BindSlot(stmt, index, PBigint(value));
  }

  method BindDouble(stmt: PreparedStatement?, index: int32, value: Double) returns (ok: bool)
    requires stmt != null ==> stmt.live
    modifies stmt
    ensures ok <==> stmt != null && index >= 1
    ensures stmt != null ==> stmt.live == old(stmt.live)
    ensures stmt != null ==> stmt.bindings == if ok then Bound(old(stmt.bindings), index, PDouble(value)).value else old(stmt.bindings)
  {
    ok := BindSlot(stmt, index, PDouble(value));
  }

  /** `bindBoolean`: only `JNI_TRUE` binds true. */
  method BindBoolean(stmt: PreparedStatement?, index: int32, value: byte) returns (ok: bool)
    requires stmt != null ==> stmt.live
    modifies stmt
    ensures ok <==> stmt != null && index >= 1
    ensures stmt != null ==> stmt.live == old(stmt.live)
    ensures stmt != null ==> stmt.bindings == if ok then Bound(old(stmt.bindings), index, PBoolean(value == JNI_TRUE)).value else old(stmt.bindings)
  {
    ok := BindSlot(stmt, index, PBoolean(value == JNI_TRUE));
  }

  method BindNull(stmt: PreparedStatement?, index: int32) returns (ok: bool)
    requires stmt != null ==> stmt.live
    modifies stmt
    ensures ok <==> stmt != null && index >= 1
    ensures stmt != null ==> stmt.live == old(stmt.live)
    ensures stmt != null ==> stmt.bindings == if ok then Bound(old(stmt.bindings), index, PNull).value else old(stmt.bindings)
  {
    ok := BindSlot(stmt, index, PNull);
  }

  /** `executePrepared`: the engine executes the statement with exactly the
      current bindings; the result is serialized chunk by chunk. */
  method ExecutePrepared(stmt: PreparedStatement?) returns (reply: Text)
    requires stmt != null ==> stmt.live
    ensures stmt == null ==> reply == ErrorText(INVALID_STATEMENT_HANDLE)
    ensures stmt != null ==> reply == QueryReply(stmt.plan.execute(stmt.bindings))
  {
    if stmt == null {
      return ErrorText(INVALID_STATEMENT_HANDLE);
    }
    match stmt.plan.execute(stmt.bindings)
    case Success(r) =>
      reply := QueryResultToJson(r.columns, r.fetches);
    case EngineError(m) =>
      reply := ErrorText(m);
    case Thrown(w) =>
      reply := ErrorText(w);
  }

  /** `clearBindings`: every slot null, size kept. */
  method ClearBindings(stmt: PreparedStatement?) returns (ok: bool)
    requires stmt != null ==> stmt.live
    modifies stmt
    ensures ok <==> stmt != null
    ensures stmt != null ==> stmt.live == old(stmt.live) && stmt.bindings == Cleared(old(stmt.bindings))
  {
    if stmt == null {
      return false;
    }
    stmt.ClearAll();
    ok := true;
  }
}

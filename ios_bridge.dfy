/** The C entry points of the iOS bridge. A handle is `nullptr` or a
    wrapper; here `null` or the wrapper. Failures return `nullptr` / `false`
    and, when the caller passed an `error_out` slot, leave the message there. */
module IosBridge {
  import opened Bytes
  import opened ResultSerializer
  import opened ResultReader
  import opened BindingStore
  import opened Engine
  import opened Handles

  const INVALID_DATABASE_HANDLE: Text := Ascii("Invalid database handle")
  const INVALID_CONNECTION: Text := Ascii("Invalid connection")
  const INVALID_SQL: Text := Ascii("Invalid SQL")
  const INVALID_STATEMENT_HANDLE: Text := Ascii("Invalid statement handle")

  /** The `char*` an `error_out` argument points at; `None` is `nullptr`. */
  class ErrorSlot {
    var text: Option<Text>
  }

  /** The `int64_t` a `rows_changed_out` argument points at. */
  class CountSlot {
    var count: int64
  }

  /** `duplicate_string`: `strcpy` of `str.c_str()` copies the bytes up to
      the first NUL, and no further. */
  function DuplicateString(str: Text): (copy: Text)
    ensures |copy| <= |str| && copy == str[..|copy|]
    ensures forall i :: 0 <= i < |copy| ==> copy[i] != 0
    ensures |copy| < |str| ==> str[|copy|] == 0
  {
    if str == [] || str[0] == 0 then [] else [str[0]] + DuplicateString(str[1..])
  }

  /** A text without NUL bytes is copied whole. */
  lemma DuplicateWhole(str: Text)
    requires forall i :: 0 <= i < |str| ==> str[i] != 0
    ensures DuplicateString(str) == str
  {
    assert DuplicateString(str) == str[..|DuplicateString(str)|];
  }

  /** The JSON of a readable result survives `duplicate_string` unchanged:
      it holds no control byte, so no NUL cuts it short. */
  lemma JsonCopiedWhole(cols: seq<Column>, rows: seq<Row>)
    requires Readable(cols, rows)
    ensures DuplicateString(RowsText(cols, rows)) == RowsText(cols, rows)
  {
    RowsPrintable(cols, rows);
    DuplicateWhole(RowsText(cols, rows));
  }

  /** What a caller of `duckdb_ios_query` or `duckdb_ios_execute_prepared`
      reads back from the copy it receives: exactly the decoded rows. */
  lemma CopyReadsBack(r: QueryResult)
    requires Readable(r.columns, Rows(r))
    ensures ParseRows(DuplicateString(RowsText(r.columns, Rows(r)))) == Some(DecodedRows(r.columns, Rows(r)))
  {
    JsonCopiedWhole(r.columns, Rows(r));
    RowsRoundTrip(r.columns, Rows(r));
  }

  /** What a slot holds after a call that reports `failure` (if any). */
  function Reported(before: Option<Text>, failure: Option<Text>): Option<Text>
  {
    if failure.Some? then Some(DuplicateString(failure.value)) else before
  }

  /** `if (error_out) *error_out = duplicate_string(message);` */
  method Report(errorOut: ErrorSlot?, message: Text)
    modifies errorOut
    ensures errorOut != null ==> errorOut.text == Some(DuplicateString(message))
  {
    if errorOut != null {
      errorOut.text := Some(DuplicateString(message));
    }
  }

  /** The failure a connection-level call reports: a null connection first
      (whatever the SQL), then a null SQL string, then the engine's error or
      exception message; `None` when the engine succeeded. */
  function Rejection<T>(connOk: bool, sql: Option<Text>, engine: Text -> Outcome<T>): (f: Option<Text>)
    ensures !connOk ==> f == Some(INVALID_CONNECTION)
    ensures connOk && sql.None? ==> f == Some(INVALID_SQL)
    ensures f.None? <==> connOk && sql.Some? && engine(sql.value).Success?
  {
    if !connOk || sql.None? then Some(if connOk then INVALID_SQL else INVALID_CONNECTION)
    else
      match engine(sql.value)
      case Success(_) => None
      case EngineError(m) => Some(m)
      case Thrown(w) => Some(w)
  }

  /** The failure `execute_prepared` reports. */
  function StatementRejection(stmtOk: bool, o: Outcome<QueryResult>): (f: Option<Text>)
    ensures !stmtOk ==> f == Some(INVALID_STATEMENT_HANDLE)
    ensures f.None? <==> stmtOk && o.Success?
  {
    if !stmtOk then Some(INVALID_STATEMENT_HANDLE)
    else
      match o
      case Success(_) => None
      case EngineError(m) => Some(m)
      case Thrown(w) => Some(w)
  }

  // ---------------------------------------------------------------------
  // Lifecycle.

  /** `duckdb_ios_open_database`: a null or empty path opens in memory;
      `failure` is the message of a throw from the engine's constructor.
      The spatial load is tried on every opened database; a failed load
      leaves `spatial_loaded` false and the handle still live. */
  method OpenDatabase(path: Option<Text>, errorOut: ErrorSlot?, failure: Option<Text>, spatialLoads: bool)
    returns (db: Database?)
    modifies errorOut
    ensures db != null <==> failure.None?
    ensures db != null ==> fresh(db) && db.live && db.location == Location(path) && db.spatialLoaded == spatialLoads
    ensures errorOut != null ==> errorOut.text == Reported(old(errorOut.text), failure)
  {
    if failure.Some? {
      Report(errorOut, failure.value);
      return null;
    }
    db := new Database(Location(path));
    if spatialLoads {
      db.spatialLoaded := true;
    }
  }

  /** `duckdb_ios_close_database`: a no-op on `nullptr`. */
  method CloseDatabase(db: Database?)
    requires db != null ==> db.live
    modifies db
    ensures db != null ==> !db.live && db.spatialLoaded == old(db.spatialLoaded)
  {
    if db != null {
      db.live := false;
    }
  }

  /** `duckdb_ios_connect`: a null database is reported as an invalid
      handle; `failure` is the message of a throw from the engine. */
  method Connect(db: Database?, errorOut: ErrorSlot?, failure: Option<Text>) returns (conn: Connection?)
    requires db != null ==> db.live
    modifies errorOut
    ensures conn != null <==> db != null && failure.None?
    ensures conn != null ==> fresh(conn) && conn.db == db && conn.live
    ensures errorOut != null ==>
      errorOut.text == Reported(old(errorOut.text), if db == null then Some(INVALID_DATABASE_HANDLE) else failure)
  {
    if db == null {
      Report(errorOut, INVALID_DATABASE_HANDLE);
      return null;
    }
    if failure.Some? {
      Report(errorOut, failure.value);
      return null;
    }
    conn := new Connection(db);
  }

  /** `duckdb_ios_disconnect`: a no-op on `nullptr`. */
  method Disconnect(conn: Connection?)
    requires conn != null ==> conn.live
    modifies conn
    ensures conn != null ==> !conn.live
  {
    if conn != null {
      conn.live := false;
    }
  }

  /** `duckdb_ios_has_spatial_extension`: false for `nullptr`, otherwise
      whether the spatial extension loaded when the database was opened. */
  method HasSpatialExtension(db: Database?) returns (loaded: bool)
    requires db != null ==> db.live
    ensures loaded <==> db != null && db.spatialLoaded
  {
    if db == null {
      return false;
    }
    loaded := db.spatialLoaded;
  }

  // ---------------------------------------------------------------------
  // Statements. `sql` is `None` for a null `const char*`; `engine` is what
  // the engine answers for each SQL text.

  /** `duckdb_ios_query`: either a copy of the JSON of the rows, or
      `nullptr` with the failure left in `error_out`; never both. */
  method Query(conn: Connection?, sql: Option<Text>, errorOut: ErrorSlot?, engine: Text -> Outcome<QueryResult>)
    returns (json: Option<Text>)
    requires conn != null ==> conn.live
    modifies errorOut
    ensures json.None? <==> Rejection(conn != null, sql, engine).Some?
    ensures json.Some? ==> json.value == DuplicateString(RowsText(engine(sql.value).value.columns, Rows(engine(sql.value).value)))
    ensures errorOut != null ==> errorOut.text == Reported(old(errorOut.text), Rejection(conn != null, sql, engine))
  {
    if conn == null || sql.None? {
      Report(errorOut, if conn != null then INVALID_SQL else INVALID_CONNECTION);
      return None;
    }
    match engine(sql.value)
    case Success(r) =>
      var text := QueryResultToJson(r.columns, r.fetches);
      json := Some(DuplicateString(text));
    case EngineError(m) =>
      Report(errorOut, m);
      json := None;
    case Thrown(w) =>
      Report(errorOut, w);
      json := None;
  }

  /** `duckdb_ios_execute`: `*rows_changed_out` receives the result's
      `RowCount()` as an `int64_t`, on success only and only through a
      non-null pointer. */
  method Execute(conn: Connection?, sql: Option<Text>, rowsChangedOut: CountSlot?, errorOut: ErrorSlot?,
                 engine: Text -> Outcome<QueryResult>)
    returns (ok: bool)
    requires conn != null ==> conn.live
    modifies rowsChangedOut, errorOut
    ensures ok <==> Rejection(conn != null, sql, engine).None?
    ensures rowsChangedOut != null ==>
      rowsChangedOut.count == if ok then WrapInt64(|Rows(engine(sql.value).value)|) else old(rowsChangedOut.count)
    ensures errorOut != null ==> errorOut.text == Reported(old(errorOut.text), Rejection(conn != null, sql, engine))
  {
    if conn == null || sql.None? {
      Report(errorOut, if conn != null then INVALID_SQL else INVALID_CONNECTION);
      return false;
    }
    match engine(sql.value)
    case Success(r) =>
      if rowsChangedOut != null {
        rowsChangedOut.count := WrapInt64(|Rows(r)|);
      }
      ok := true;
    case EngineError(m) =>
      Report(errorOut, m);
      ok := false;
    case Thrown(w) =>
      Report(errorOut, w);
      ok := false;
  }

  /** `duckdb_ios_prepare`: a new statement with one null binding per
      parameter, or `nullptr` with the failure reported. */
  method Prepare(conn: Connection?, sql: Option<Text>, errorOut: ErrorSlot?, engine: Text -> Outcome<Plan>)
    returns (stmt: PreparedStatement?)
    requires conn != null ==> conn.live
    modifies errorOut
    ensures stmt != null <==> Rejection(conn != null, sql, engine).None?
    ensures stmt != null ==> fresh(stmt) && stmt.live && stmt.plan == engine(sql.value).value
    ensures stmt != null ==> stmt.bindings == NullSlots(stmt.plan.paramCount)
    ensures errorOut != null ==> errorOut.text == Reported(old(errorOut.text), Rejection(conn != null, sql, engine))
  {
    if conn == null || sql.None? {
      Report(errorOut, if conn != null then INVALID_SQL else INVALID_CONNECTION);
      return null;
    }
    match engine(sql.value)
    case Success(plan) =>
      stmt := new PreparedStatement(plan);
    case EngineError(m) =>
      Report(errorOut, m);
      stmt := null;
    case Thrown(w) =>
      Report(errorOut, w);
      stmt := null;
  }

  /** `duckdb_ios_destroy_prepared`: a no-op on `nullptr`. */
  method DestroyPrepared(stmt: PreparedStatement?)
    requires stmt != null ==> stmt.live
    modifies stmt
    ensures stmt != null ==> !stmt.live && stmt.bindings == old(stmt.bindings)
  {
    if stmt != null {
      stmt.live := false;
    }
  }

  /** `duckdb_ios_bind_string`: a null `value` binds null. */
  method BindString(stmt: PreparedStatement?, index: int32, value: Option<Text>) returns (ok: bool)
    requires stmt != null ==> stmt.live
    modifies stmt
    ensures ok <==> stmt != null && index >= 1
    ensures stmt != null ==> stmt.live == old(stmt.live)
    ensures stmt != null ==>
      (stmt.bindings ==
       if ok then Bound(old(stmt.bindings), index, if value.None? then PNull else PVarchar(value.value)).value
       else old(stmt.bindings))
  {
    var p := if value.None? then PNull else PVarchar(value.value);
    ok := BindSlot(stmt, index, p);
  }

  method BindInt64(stmt: PreparedStatement?, index: int32, value: int64) returns (ok: bool)
    requires stmt != null ==> stmt.live
    modifies stmt
    ensures ok <==> stmt != null && index >= 1
    ensures stmt != null ==> stmt.live == old(stmt.live)
    ensures stmt != null ==> stmt.bindings == if ok then Bound(old(stmt.bindings), index, PBigint(value)).value else old(stmt.bindings)
  {
    ok := BindSlot(stmt, index, PBigint(value));
  }

  method BindDouble(stmt: PreparedStatement?, index: int32, value: Double) returns (ok: bool)
    requires stmt != null ==> stmt.live
    modifies stmt
    ensures ok <==> stmt != null && index >= 1
    ensures stmt != null ==> stmt.live == old(stmt.live)
    ensures stmt != null ==> stmt.bindings == if ok then Bound(old(stmt.bindings), index, PDouble(value)).value else old(stmt.bindings)
  {
    ok := BindSlot(stmt, index, PDouble(value));
  }

  method BindBool(stmt: PreparedStatement?, index: int32, value: bool) returns (ok: bool)
    requires stmt != null ==> stmt.live
    modifies stmt
    ensures ok <==> stmt != null && index >= 1
    ensures stmt != null ==> stmt.live == old(stmt.live)
    ensures stmt != null ==> stmt.bindings == if ok then Bound(old(stmt.bindings), index, PBoolean(value)).value else old(stmt.bindings)
  {
    ok := BindSlot(stmt, index, PBoolean(value));
  }

  method BindNull(stmt: PreparedStatement?, index: int32) returns (ok: bool)
    requires stmt != null ==> stmt.live
    modifies stmt
    ensures ok <==> stmt != null && index >= 1
    ensures stmt != null ==> stmt.live == old(stmt.live)
    ensures stmt != null ==> stmt.bindings == if ok then Bound(old(stmt.bindings), index, PNull).value else old(stmt.bindings)
  {
    ok := BindSlot(stmt, index, PNull);
  }

  /** `duckdb_ios_clear_bindings`: a no-op on `nullptr`. */
  method ClearBindings(stmt: PreparedStatement?)
    requires stmt != null ==> stmt.live
    modifies stmt
    ensures stmt != null ==> stmt.live == old(stmt.live) && stmt.bindings == Cleared(old(stmt.bindings))
  {
    if stmt != null {
      stmt.ClearAll();
    }
  }

  /** `duckdb_ios_execute_prepared`: the engine executes the statement with
      exactly the current bindings. */
  method ExecutePrepared(stmt: PreparedStatement?, errorOut: ErrorSlot?) returns (json: Option<Text>)
    requires stmt != null ==> stmt.live
    modifies errorOut
    ensures stmt == null ==> json.None?
    ensures json.None? <==> StatementRejection(stmt != null, if stmt == null then Thrown([]) else stmt.plan.execute(stmt.bindings)).Some?
    ensures json.Some? ==>
      var r := stmt.plan.execute(stmt.bindings).value;
      json.value == DuplicateString(RowsText(r.columns, Rows(r)))
    ensures errorOut != null ==>
      errorOut.text == Reported(old(errorOut.text),
        StatementRejection(stmt != null, if stmt == null then Thrown([]) else stmt.plan.execute(stmt.bindings)))
  {
    if stmt == null {
      Report(errorOut, INVALID_STATEMENT_HANDLE);
      return None;
    }
    match stmt.plan.execute(stmt.bindings)
    case Success(r) =>
      var text := QueryResultToJson(r.columns, r.fetches);
      json := Some(DuplicateString(text));
    case EngineError(m) =>
      Report(errorOut, m);
      json := None;
    case Thrown(w) =>
      Report(errorOut, w);
      json := None;
  }
}

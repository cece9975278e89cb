/** What the bridges see of the DuckDB engine. The engine is not modelled:
    the answer of each engine call (`Query`, `Prepare`, `Execute`, the
    `DuckDB` and `Connection` constructors) is an input of the operation
    that makes the call. */
module Engine {
  import opened Bytes
  import opened ResultSerializer
  import opened BindingStore

  /** How an engine call ends: with a result, with a result whose
      `HasError()` holds (its `GetError()` text), or by throwing a
      `std::exception` (its `what()` text). */
  datatype Outcome<+T> = Success(value: T) | EngineError(message: Text) | Thrown(what: Text)

  /** A query result: its columns (`names`, `types`) and what successive
      `Fetch()` calls hand out. */
  datatype ResultSet = ResultSet(columns: seq<Column>, fetches: seq<Option<Chunk>>)

  /** The engine's own guarantee: every chunk has one cell per column. */
  type QueryResult = r: ResultSet | ChunksFit(r.columns, r.fetches) witness ResultSet([], [])

  /** The rows of a result: those its chunks deliver before the first null
      or empty one. For a materialized result this is its row collection,
      which `RowCount()` counts and `GetValue(col, row)` indexes. */
  function Rows(r: QueryResult): (rows: seq<Row>)
    ensures Fits(r.columns, rows)
  {
    StreamFits(r.columns, r.fetches);
    StreamRows(r.fetches)
  }

  /** A prepared statement of the engine: how many parameters its
      `named_param_map` names, and what `Execute(bindings)` answers for a
      given bindings vector. */
  datatype Plan = Plan(paramCount: nat, execute: seq<Param> -> Outcome<QueryResult>)
}

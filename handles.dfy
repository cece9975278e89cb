/** The wrapper objects behind the handles both bridges hand out. A handle is
    a nullable reference: `null` is the `0` / `nullptr` handle. Deleting a
    wrapper ends its `live` period; using a handle after that is undefined
    behaviour in both bridges, so every operation asks for a live object. */
module Handles {
  import opened Bytes
  import opened BindingStore
  import opened Engine

  /** Where the engine keeps a database: a null or empty path opens an
      in-memory database (`nullptr` is passed to the `DuckDB` constructor). */
  function Location(path: Option<Text>): (loc: Option<Text>)
    ensures loc.None? <==> path.None? || path.value == []
    ensures loc.Some? ==> loc == path
  {
    if path.None? || path.value == [] then None else path
  }

  /** `DatabaseWrapper`: one engine instance. `spatialLoaded` is the iOS
      wrapper's `spatial_loaded` flag, false until the spatial extension has
      loaded; the Android wrapper has no such flag and never sets it. */
  class Database {
    const location: Option<Text>
    var spatialLoaded: bool
    ghost var live: bool

    constructor (location: Option<Text>)
      ensures this.location == location && !spatialLoaded && live
    {
      this.location := location;
      spatialLoaded := false;
      live := true;
    }
  }

  /** A connection to a database (`duckdb::Connection` on Android,
      `ConnectionWrapper` on iOS, which keeps a non-owning `db_wrapper`). */
  class Connection {
    const db: Database
    ghost var live: bool

    constructor (db: Database)
      ensures this.db == db && live
    {
      this.db := db;
      live := true;
    }
  }

  /** A prepared statement and its bindings vector
      (`PreparedStatementWrapper` / `PreparedWrapper`). */
  class PreparedStatement {
    const plan: Plan
    var bindings: seq<Param>
    ghost var live: bool

    /** A fresh statement has one null slot per parameter its
        `named_param_map` names. */
    constructor (plan: Plan)
      ensures this.plan == plan && bindings == NullSlots(plan.paramCount) && live
    {
      this.plan := plan;
      bindings := NullSlots(plan.paramCount);
      live := true;
    }

    /** The body shared by every `bind*`: convert the 1-based index, reject it
        below 1, grow the vector to fit, overwrite one slot. */
    method Bind(index: int32, p: Param) returns (ok: bool)
      requires live
      modifies this`bindings
      ensures ok <==> index >= 1
      ensures bindings == if ok then Bound(old(bindings), index, p).value else old(bindings)
    {
      var idx := index - 1;
      if idx < 0 {
        return false;
      }
      if idx >= |bindings| {
        bindings := Resized(bindings, idx + 1);
      }
      bindings := bindings[idx := p];
      ok := true;
    }

    /** Overwrites every slot with null, in order. */
    method ClearAll()
      requires live
      modifies this`bindings
      ensures bindings == Cleared(old(bindings))
    {
      var n := |bindings|;
      for i := 0 to n
        invariant |bindings| == n
        invariant forall j :: 0 <= j < i ==> bindings[j] == PNull
      {
        bindings := bindings[i := PNull];
      }
      SlotsEqual(bindings, Cleared(old(bindings)));
    }
  }

  /** A bind entry point: no action and `false` on a null handle, otherwise
      the shared bind body. */
  method BindSlot(stmt: PreparedStatement?, index: int32, p: Param) returns (ok: bool)
    requires stmt != null ==> stmt.live
    modifies stmt
    ensures ok <==> stmt != null && index >= 1
    ensures stmt != null ==> stmt.bindings == if ok then Bound(old(stmt.bindings), index, p).value else old(stmt.bindings)
    ensures stmt != null ==> stmt.live == old(stmt.live)
  {
    if stmt == null {
      return false;
    }
    ok := stmt.Bind(index, p);
  }
}

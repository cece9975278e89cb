/** The bindings vector of a prepared statement (`duckdb::vector<Value>`):
    1-based binding that grows the vector to fit, and clearing to null. */
module BindingStore {
  import opened Bytes

  /** A `double`, carried as its IEEE 754 bit pattern; the bridge does no
      arithmetic on it. */
  datatype Double = Double(bits: uint64)

  /** A `duckdb::Value` as the bind functions construct it. */
  datatype Param =
    | PNull               // duckdb::Value()
    | PVarchar(s: Text)   // duckdb::Value(std::string)
    | PBigint(i: int64)   // Value::BIGINT
    | PDouble(d: Double)  // Value::DOUBLE
    | PBoolean(b: bool)   // Value::BOOLEAN

  function Max(a: int, b: int): int
  {
    if a < b then b else a
  }

  /** `n` default-constructed (null) values. */
  function NullSlots(n: nat): (r: seq<Param>)
    ensures |r| == n
    ensures forall i :: 0 <= i < n ==> r[i] == PNull
  {
    seq(n, _ => PNull)
  }

  /** `bindings.resize(n)` for a size `n` not below the current one. */
  function Resized(b: seq<Param>, n: nat): seq<Param>
    requires n >= |b|
  {
    b + NullSlots(n - |b|)
  }

  /** The bindings after binding `p` at the 1-based `index`, or `None` when
      the index is rejected: an index below 1 leaves the vector alone;
      otherwise the vector is grown to `index` slots if shorter, the new
      slots null, slot `index - 1` holds `p` and every other slot keeps its
      value. */
  function Bound(b: seq<Param>, index: int, p: Param): (r: Option<seq<Param>>)
    ensures r.None? <==> index < 1
    ensures r.Some? ==> |r.value| == Max(|b|, index)
    ensures r.Some? ==> r.value[index - 1] == p
    ensures r.Some? ==> forall j :: 0 <= j < |r.value| && j != index - 1 ==> r.value[j] == (if j < |b| then b[j] else PNull)
  {
    if index < 1 then None
    else
      var idx := index - 1;
      var grown := if idx >= |b| then Resized(b, idx + 1) else b;
      Some(grown[idx := p])
  }

  /** The bindings after `clearBindings`: every slot null, size kept. */
  function Cleared(b: seq<Param>): seq<Param>
  {
    NullSlots(|b|)
  }

  /** Two vectors of the same size that agree slot by slot are equal. */
  lemma SlotsEqual(a: seq<Param>, b: seq<Param>)
    requires |a| == |b|
    requires forall j :: 0 <= j < |a| ==> a[j] == b[j]
    ensures a == b
  {
  }

  /** Binding the same index twice keeps only the second value. */
  lemma LastBindWins(b: seq<Param>, index: int, p: Param, q: Param)
    requires index >= 1
    ensures Bound(Bound(b, index, p).value, index, q) == Bound(b, index, q)
  {
    var once := Bound(b, index, p).value;
    var twice := Bound(once, index, q).value;
    var direct := Bound(b, index, q).value;
    SlotsEqual(twice, direct);
  }

  /** Binds at two different indexes do not interfere: either order gives
      the same vector. */
  lemma BindsCommute(b: seq<Param>, i: int, j: int, p: Param, q: Param)
    requires i >= 1 && j >= 1 && i != j
    ensures Bound(Bound(b, i, p).value, j, q) == Bound(Bound(b, j, q).value, i, p)
  {
    var x := Bound(Bound(b, i, p).value, j, q).value;
    var y := Bound(Bound(b, j, q).value, i, p).value;
    forall k | 0 <= k < |x|
      ensures x[k] == y[k]
    {
      if k != i - 1 && k != j - 1 {
        assert x[k] == (if k < |b| then b[k] else PNull);
      }
    }
    SlotsEqual(x, y);
  }

  /** Clearing after a bind forgets the value but keeps the grown size. */
  lemma ClearAfterBind(b: seq<Param>, index: int, p: Param)
    requires index >= 1
    ensures Cleared(Bound(b, index, p).value) == NullSlots(Max(|b|, index))
  {
  }
}

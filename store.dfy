/**
 * The type-keyed data store `ReactorControl` of nuclear/main.cpp.
 *
 * The C++ store maps a `std::type_index` to an untyped pointer to the latest
 * emitted payload of that type. Here a type is a `TypeKey` and a slot holds
 * `Some(v)` for a pointer to `v` and `None` for a null pointer.
 */
module Store {
  import opened Wrappers

  /** Stands for the `std::type_index` of one payload class. */
  type TypeKey = nat

  /** The contents of `m_data`. */
  type Slots<V> = map<TypeKey, Option<V>>

  /** The slots after `emit`: the entry for `k` is replaced, nothing else changes. */
  function Emitted<V>(m: Slots<V>, k: TypeKey, p: Option<V>): (r: Slots<V>)
    ensures r.Keys == m.Keys + {k}
    ensures r[k] == p
    ensures forall j :: j in m && j != k ==> r[j] == m[j]
  {
    m[k := p]
  }

  /**
   * What `get` returns and the slots afterwards. `operator[]` inserts a null
   * slot for a type that was never emitted, so `get` may grow the map, but it
   * never changes an existing entry.
   */
  function Fetched<V>(m: Slots<V>, k: TypeKey): (r: (Option<V>, Slots<V>))
    ensures r.1.Keys == m.Keys + {k}
    ensures r.1[k] == r.0
    ensures forall j :: j in m ==> r.1[j] == m[j]
    ensures k !in m ==> r.0 == None
  {
    if k in m then (m[k], m) else (None, m[k := None])
  }

  /** `get` after `emit(v)` yields `v` and leaves the store as it is. */
  lemma GetAfterEmit<V>(m: Slots<V>, k: TypeKey, v: V)
    ensures Fetched(Emitted(m, k, Some(v)), k) == (Some(v), Emitted(m, k, Some(v)))
  {
  }

  /** A second `emit` for the same type replaces the first: no history is kept. */
  lemma EmitReplaces<V>(m: Slots<V>, k: TypeKey, v1: V, v2: V)
    ensures Emitted(Emitted(m, k, Some(v1)), k, Some(v2)) == Emitted(m, k, Some(v2))
    ensures Fetched(Emitted(Emitted(m, k, Some(v1)), k, Some(v2)), k).0 == Some(v2)
  {
  }

  /** `emit` for one type leaves what `get` yields for every other type unchanged. */
  lemma EmitLeavesOthers<V>(m: Slots<V>, k: TypeKey, j: TypeKey, p: Option<V>)
    requires j != k
    ensures Fetched(Emitted(m, k, p), j).0 == Fetched(m, j).0
  {
  }

  /** The store object; `emit` and `get` update `data` in place. */
  class ReactorControl<V> {
    var data: Slots<V>

    constructor ()
      ensures data == map[]
    {
      data := map[];
    }

    /** `get<T>()`: reads the slot for `k`, default-inserting a null one. */
    method Get(k: TypeKey) returns (p: Option<V>)
      modifies this
      ensures (p, data) == Fetched(old(data), k)
    {
      if k !in data {
        data := data[k := None];
      }
      p := data[k];
    }

    /** `emit<T>(data)`: overwrites the slot for `k`. */
    method Emit(k: TypeKey, p: Option<V>)
      modifies this
      ensures data == Emitted(old(data), k, p)
    {
      data := data[k := p];
    }
  }
}

/** Storage backends of the DP cache (aoc-solutions/src/utils/dp_cache/backend.rs).

    A slot is a `OnceCell`: `None` is an empty cell, `Some(v)` a cell written once with `v`.
    Both backends offer the slot API of the `Backend` trait (`get` returns the slot of an
    ensured index, `ensure_index` creates an empty slot if absent) and the value API the
    engine and the tests use (`get` returns the stored value or `None`, `get_or_insert`
    ensures the index and then fills the slot if it is still empty). */
module DpBackend {
  import opened Wrappers
  import opened GrowableVec

  /** `OnceCell::get_or_init`: an empty slot takes `v`, a filled slot keeps its value. */
  function FillSlot<V>(slot: Option<V>, v: V): (r: Option<V>)
    ensures r.Some?
    ensures slot.Some? ==> r == slot
    ensures slot.None? ==> r == Some(v)
  {
    if slot.Some? then slot else Some(v)
  }

  // ---------------------------------------------------------------------------
  // VecBackend: a growable vector of slots indexed by usize
  // ---------------------------------------------------------------------------

  /** The stored value at `index` of a slot vector; `None` when the slot is empty or the
      index lies beyond the end. */
  function VecLookup<V>(data: seq<Option<V>>, index: nat): Option<V>
  {
    if index < |data| then data[index] else None
  }

  /** The slot vector after `get_or_insert(index, f)` with `f()` = `v`: it is ensure_index
      followed by set-if-empty. The index is in range and filled afterwards, a value already
      stored there wins over `v`, and every other index reads as before. */
  function VecInsert<V>(data: seq<Option<V>>, index: nat, v: V): (r: seq<Option<V>>)
    ensures index < |r| && |data| <= |r|
    ensures VecLookup(r, index) == Some(if VecLookup(data, index).Some? then VecLookup(data, index).value else v)
    ensures forall j :: j != index ==> VecLookup(r, j) == VecLookup(data, j)
  {
    var grown := EnsureLen(data, index);
    grown[index := FillSlot(grown[index], v)]
  }

  /** Filling an index leaves every slot that was already filled with the value it had. */
  lemma VecInsertKeepsFilled<V>(data: seq<Option<V>>, index: nat, v: V, j: nat)
    requires VecLookup(data, j).Some?
    ensures VecLookup(VecInsert(data, index, v), j) == VecLookup(data, j)
  {
    if j != index {
    } else {
      assert VecLookup(VecInsert(data, index, v), index) == VecLookup(data, index);
    }
  }

  class VecBackend<V> {
    var data: seq<Option<V>>

    /** `VecBackend::new`: no slots. */
    constructor ()
      ensures data == []
    {
      data := [];
    }

    /** `VecBackend::with_capacity`: capacity is an allocation hint; still no slots. */
    constructor WithCapacity(capacity: nat)
      ensures data == []
    {
      data := [];
    }

    /** `Backend::get`: the slot of an ensured index; an index past the end panics. */
    method Slot(index: nat) returns (slot: Option<V>)
      requires index < |data|
      ensures slot == data[index]
    {
      slot := data[index];
    }

    /** The `get -> Option` of the tests: the value stored at `index`, if any. */
    function Lookup(index: nat): (r: Option<V>)
      reads this
      ensures r.Some? <==> index < |data| && data[index].Some?
    {
      VecLookup(data, index)
    }

    /** `Backend::ensure_index`: grows the vector with empty slots up to `index`. */
    method EnsureIndex(index: nat)
      modifies this
      ensures data == EnsureLen(old(data), index)
    {
      if index >= |data| {
        data := data + seq(index + 1 - |data|, _ => None);
      }
    }

    /** `OnceCell::set` on an ensured slot: fails with the rejected value when the slot is
        already filled, which then keeps its first value. */
    method SetSlot(index: nat, value: V) returns (r: Result<(), V>)
      requires index < |data|
      modifies this
      ensures old(data[index]).None? ==> r == Ok(()) && data == old(data)[index := Some(value)]
      ensures old(data[index]).Some? ==> r == Err(value) && data == old(data)
    {
      if data[index].None? {
        data := data[index := Some(value)];
        r := Ok(());
      } else {
        r := Err(value);
      }
    }

    /** `get_or_insert(index, f)`: ensure_index, then run `f` only if the slot is still
        empty. `ran` records whether `f` was run. The vector backend never reports an
        out-of-range error. */
    method GetOrInsert(index: nat, f: () -> V) returns (r: Result<V, nat>, ghost ran: bool)
      modifies this
      ensures ran <==> old(Lookup(index)).None?
      ensures r == Ok(if ran then f() else old(Lookup(index)).value)
      ensures data == VecInsert(old(data), index, f())
    {
      EnsureIndex(index);
      var slot := Slot(index);
      if slot.Some? {
        r, ran := Ok(slot.value), false;
      } else {
        var v := f();
        var _ := SetSlot(index, v);
        r, ran := Ok(v), true;
      }
    }
  }

  // ---------------------------------------------------------------------------
  // HashMapBackend: a hash map of slots for arbitrary hashable keys
  // ---------------------------------------------------------------------------

  /** The stored value for `key`; `None` when the slot is empty or the key was never ensured. */
  function MapLookup<K, V>(data: map<K, Option<V>>, key: K): Option<V>
  {
    if key in data then data[key] else None
  }

  /** The map after `entry(key).or_insert_with(OnceCell::new)`: an empty slot is inserted
      only when the key is absent; every existing slot keeps its contents. */
  function MapEnsure<K, V>(data: map<K, Option<V>>, key: K): (r: map<K, Option<V>>)
    ensures r.Keys == data.Keys + {key}
    ensures forall k :: k in data ==> r[k] == data[k]
    ensures key !in data ==> r[key] == None
  {
    if key in data then data else data[key := None]
  }

  /** The map after `get_or_insert(key, f)` with `f()` = `v`: the key is filled afterwards,
      a value already stored wins over `v`, and every other key reads as before. */
  function MapInsert<K, V>(data: map<K, Option<V>>, key: K, v: V): (r: map<K, Option<V>>)
    ensures r.Keys == data.Keys + {key}
    ensures MapLookup(r, key) == Some(if MapLookup(data, key).Some? then MapLookup(data, key).value else v)
    ensures forall k :: k != key && k in data ==> r[k] == data[k]
  {
    var ensured := MapEnsure(data, key);
    ensured[key := FillSlot(ensured[key], v)]
  }

  class HashMapBackend<K(==), V> {
    var data: map<K, Option<V>>

    /** `HashMapBackend::new`: no slots. */
    constructor ()
      ensures data == map[]
    {
      data := map[];
    }

    /** `Backend::get`: the slot of an ensured key; an absent key panics ("index not ensured"). */
    method Slot(key: K) returns (slot: Option<V>)
      requires key in data
      ensures slot == data[key]
    {
      slot := data[key];
    }

    /** The `get -> Option` of the engine and the tests: the value stored for `key`, if any. */
    function Lookup(key: K): (r: Option<V>)
      reads this
      ensures r.Some? <==> key in data && data[key].Some?
    {
      MapLookup(data, key)
    }

    /** `Backend::ensure_index`: inserts an empty slot only when the key is absent. */
    method EnsureIndex(key: K)
      modifies this
      ensures data == MapEnsure(old(data), key)
    {
      if key !in data {
        data := data[key := None];
      }
    }

    /** `OnceCell::set` on an ensured slot: fails with the rejected value when the slot is
        already filled, which then keeps its first value. */
    method SetSlot(key: K, value: V) returns (r: Result<(), V>)
      requires key in data
      modifies this
      ensures old(data[key]).None? ==> r == Ok(()) && data == old(data)[key := Some(value)]
      ensures old(data[key]).Some? ==> r == Err(value) && data == old(data)
    {
      if data[key].None? {
        data := data[key := Some(value)];
        r := Ok(());
      } else {
        r := Err(value);
      }
    }

    /** `get_or_insert(key, f)`: ensure_index, then run `f` only if the slot is still empty.
        `ran` records whether `f` was run. The map backend never reports an error. */
    method GetOrInsert(key: K, f: () -> V) returns (r: Result<V, K>, ghost ran: bool)
      modifies this
      ensures ran <==> old(Lookup(key)).None?
      ensures r == Ok(if ran then f() else old(Lookup(key)).value)
      ensures data == MapInsert(old(data), key, f())
    {
      EnsureIndex(key);
      var slot := Slot(key);
      if slot.Some? {
        r, ran := Ok(slot.value), false;
      } else {
        var v := f();
        var _ := SetSlot(key, v);
        r, ran := Ok(v), true;
      }
    }
  }

  // ---------------------------------------------------------------------------
  // The two backends agree on usize indices
  // ---------------------------------------------------------------------------

  /** A slot vector and a map keyed by index store the same value at every index. */
  ghost predicate SameLookups<V>(data: seq<Option<V>>, m: map<nat, Option<V>>)
  {
    forall i: nat :: VecLookup(data, i) == MapLookup(m, i)
  }

  /** Both backends start empty, so they agree; a get-or-insert at the same index with the same
      value returns the same stored value from both and keeps them agreeing. So a run of
      the engine over a `VecBackend` makes the same lookups, and returns the same values,
      as the same run over a `HashMapBackend` keyed by `usize`. */
  lemma VecMapInsertAgree<V>(data: seq<Option<V>>, m: map<nat, Option<V>>, index: nat, v: V)
    requires SameLookups(data, m)
    ensures VecLookup(VecInsert(data, index, v), index) == MapLookup(MapInsert(m, index, v), index)
    ensures SameLookups(VecInsert(data, index, v), MapInsert(m, index, v))
  {
    var d', m' := VecInsert(data, index, v), MapInsert(m, index, v);
    forall i: nat
      ensures VecLookup(d', i) == MapLookup(m', i)
    {
      if i != index {
        assert VecLookup(d', i) == VecLookup(data, i);
        if i in m {
          assert m'[i] == m[i];
        } else {
          assert i !in m';
        }
      } else {
        assert VecLookup(data, index) == MapLookup(m, index);
      }
    }
  }

  /** tests.rs `test_vec_backend_get_or_insert`: the second insert at 5 returns the first
      value, index 10 reads empty until filled, and filling 10 leaves 5 as it was. */
  method VecBackendFirstWriteWins() returns (first: Result<int, nat>, second: Result<int, nat>,
                                             missing: Option<int>, larger: Result<int, nat>,
                                             kept: Option<int>)
    ensures first == Ok(42) && second == Ok(42)
    ensures missing == None
    ensures larger == Ok(100) && kept == Some(42)
  {
    var backend := new VecBackend<int>();
    ghost var ran;
    first, ran := backend.GetOrInsert(5, () => 42);
    second, ran := backend.GetOrInsert(5, () => 999);
    missing := backend.Lookup(10);
    larger, ran := backend.GetOrInsert(10, () => 100);
    kept := backend.Lookup(5);
  }

  /** tests.rs `test_hashmap_backend_get_or_insert`: the same scenario with string keys. */
  method HashMapBackendFirstWriteWins() returns (first: Result<int, string>, second: Result<int, string>,
                                                 missing: Option<int>, other: Result<int, string>,
                                                 kept: Option<int>)
    ensures first == Ok(42) && second == Ok(42)
    ensures missing == None
    ensures other == Ok(100) && kept == Some(42)
  {
    var backend := new HashMapBackend<string, int>();
    ghost var ran;
    first, ran := backend.GetOrInsert("key1", () => 42);
    second, ran := backend.GetOrInsert("key1", () => 999);
    missing := backend.Lookup("key2");
    other, ran := backend.GetOrInsert("key2", () => 100);
    kept := backend.Lookup("key1");
  }
}

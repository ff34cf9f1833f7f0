/** The single-threaded DP cache (aoc-solutions/src/utils/dp_cache/cache.rs).

    `DpCache::get` answers from the backend when the key is stored; otherwise it resolves
    the dependencies recursively in order, stops at the first error, and stores
    `compute(k, values)` in the key's write-once slot. The model runs the engine over a
    `HashMapBackend`. The `Err(index)` channel of fixed-capacity backends is kept through
    `admits`: a key the backend cannot store fails with `Err(key)` at the store step.

    The ghost map `calls` counts how often `compute` ran for each key. */
module DpCache {
  import opened Wrappers
  import opened DpBackend
  import opened DpProblem

  /** `DpCacheBuilder`: the backend and the problem, each optional until set. */
  datatype Builder<!K(==), !V> = Builder(backend: Option<HashMapBackend<K, V>>, problem: Option<Problem<K, V>>)
  {
    /** `DpCacheBuilder::backend`: sets the backend and keeps the problem. */
    function WithBackend(b: HashMapBackend<K, V>): (r: Builder<K, V>)
      ensures r.backend == Some(b) && r.problem == problem
    {
      this.(backend := Some(b))
    }

    /** `DpCacheBuilder::problem`: sets the problem and keeps the backend. */
    function WithProblem(p: Problem<K, V>): (r: Builder<K, V>)
      ensures r.problem == Some(p) && r.backend == backend
    {
      this.(problem := Some(p))
    }
  }

  /** `DpCache::builder()`: nothing set yet. */
  function NewBuilder<K(==), V>(): (r: Builder<K, V>)
    ensures r.backend.None? && r.problem.None?
  {
    Builder(None, None)
  }

  /** Every value stored in `data0` is still stored, unchanged, in `data`. */
  ghost predicate Keeps<K(!new), V>(data: map<K, Option<V>>, data0: map<K, Option<V>>)
  {
    forall j :: MapLookup(data0, j).Some? ==> MapLookup(data, j) == MapLookup(data0, j)
  }

  /** The keys stored in `data` that were not stored in `data0`. */
  ghost function Added<K(!new), V>(data: map<K, Option<V>>, data0: map<K, Option<V>>): set<K>
  {
    set j | j in data && data[j].Some? && MapLookup(data0, j).None?
  }

  /** Every stored value is the resolved value of its key, and its key is admitted. */
  ghost predicate Sound<K(!new), V>(p: Problem<K, V>, rank: K -> nat, admits: K -> bool, data: map<K, Option<V>>)
    requires RankedBy(p, rank)
  {
    forall k :: MapLookup(data, k).Some? ==> admits(k) && Resolve(p, rank, admits, k) == Ok(MapLookup(data, k).value)
  }

  /** Every dependency of `k` is stored. */
  ghost predicate DepsStored<K, V>(p: Problem<K, V>, data: map<K, Option<V>>, k: K)
  {
    forall i :: 0 <= i < |p.deps(k)| ==> MapLookup(data, p.deps(k)[i]).Some?
  }

  /** The dependencies of every stored key are stored. */
  ghost predicate Closed<K(!new), V>(p: Problem<K, V>, data: map<K, Option<V>>)
  {
    forall k :: MapLookup(data, k).Some? ==> DepsStored(p, data, k)
  }

  /** `compute` ran exactly once for each stored key and never for another one. */
  ghost predicate Counted<K(!new), V>(calls: map<K, nat>, data: map<K, Option<V>>)
  {
    (forall k :: k in calls <==> MapLookup(data, k).Some?) &&
    (forall k :: k in calls ==> calls[k] == 1)
  }

  lemma KeepsTrans<K(!new), V>(d2: map<K, Option<V>>, d1: map<K, Option<V>>, d0: map<K, Option<V>>)
    requires Keeps(d2, d1) && Keeps(d1, d0)
    ensures Keeps(d2, d0)
    ensures Added(d2, d0) <= Added(d2, d1) + Added(d1, d0)
  {
  }

  class DpCache<K(==,!new), !V> {
    const problem: Problem<K, V>
    ghost const rank: K -> nat
    const admits: K -> bool
    const backend: HashMapBackend<K, V>
    ghost var calls: map<K, nat>

    /** The backend holds a value for `k`. */
    ghost predicate Filled(k: K)
      reads backend
    {
      MapLookup(backend.data, k).Some?
    }

    /** How many times `compute` ran for `k`. */
    ghost function Calls(k: K): nat
      reads this
    {
      if k in calls then calls[k] else 0
    }

    /** The dependencies are ranked (a DAG), every stored value is the resolved value of
        its key, a stored key's dependencies are stored too, and `compute` ran exactly once
        for each stored key and never for any other. */
    ghost predicate Valid()
      reads this, backend
    {
      RankedBy(problem, rank) &&
      Sound(problem, rank, admits, backend.data) &&
      Closed(problem, backend.data) &&
      Counted(calls, backend.data)
    }

    /** `DpCache::new_const`: a cache over an empty backend. `rank` witnesses that the
        dependencies of `problem` form a DAG, which the engine requires and does not check. */
    constructor NewConst(backend: HashMapBackend<K, V>, problem: Problem<K, V>, ghost rank: K -> nat, admits: K -> bool)
      requires RankedBy(problem, rank)
      requires forall k :: k in backend.data ==> backend.data[k].None?
      ensures this.backend == backend && this.problem == problem && this.rank == rank && this.admits == admits
      ensures Valid()
      ensures calls == map[]
    {
      this.backend, this.problem, this.rank, this.admits := backend, problem, rank, admits;
      calls := map[];
    }

    /** `DpCacheBuilder::build`: both parts must have been set (it panics otherwise). */
    constructor Build(builder: Builder<K, V>, ghost rank: K -> nat, admits: K -> bool)
      requires builder.backend.Some? && builder.problem.Some?
      requires RankedBy(builder.problem.value, rank)
      requires forall k :: k in builder.backend.value.data ==> builder.backend.value.data[k].None?
      ensures backend == builder.backend.value && problem == builder.problem.value
      ensures this.rank == rank && this.admits == admits
      ensures Valid()
      ensures calls == map[]
    {
      backend, problem := builder.backend.value, builder.problem.value;
      this.rank, this.admits := rank, admits;
      calls := map[];
    }

    /** `DpCache::get`: the resolved value of `k` (the recurrence value, or the first key
        that could not be stored). Stored values never change, a failed `get` leaves `k`
        unstored, only keys reachable from `k` become stored, and `compute` runs only for
        keys that were not stored before (Valid keeps the count at one per stored key). */
    method Get(k: K) returns (r: Result<V, K>)
      requires Valid()
      modifies this, backend
      decreases rank(k), 1
      ensures Valid()
      ensures r == Resolve(problem, rank, admits, k)
      ensures r.Ok? ==> Filled(k)
      ensures r.Err? ==> !Filled(k)
      ensures Keeps(backend.data, old(backend.data))
      ensures Added(backend.data, old(backend.data)) <= Reach(problem, rank, k)
      ensures old(Filled(k)) ==> backend.data == old(backend.data) && calls == old(calls)
    {
      var cached := backend.Lookup(k);
      if cached.Some? {
        return Ok(cached.value);
      }
      var deps := ResolveDeps(k);
      if deps.Err? {
        return Err(deps.error);
      }
      if !admits(k) {
        return Err(k);
      }
      ghost var data1, calls1 := backend.data, calls;
      var p, vs := problem, deps.value;
      ghost var ran;
      r, ran := backend.GetOrInsert(k, () => p.compute(k, vs));
      if ran {
        calls := calls[k := Calls(k) + 1];
      }
      StoreKeepsValid(k, vs, data1, calls1);
      KeepsTrans(backend.data, data1, old(backend.data));
    }

    /** The `deps.into_iter().map(|dep| self.get(&dep)).collect()` step of `get`: the
        dependencies of `k` are fetched in order, stopping at the first error. */
    method ResolveDeps(k: K) returns (r: Result<seq<V>, K>)
      requires Valid()
      modifies this, backend
      decreases rank(k), 0
      ensures Valid()
      ensures r == ResolveAll(problem, rank, admits, problem.deps(k), rank(k))
      ensures r.Ok? ==> DepsStored(problem, backend.data, k)
      ensures Keeps(backend.data, old(backend.data))
      ensures Added(backend.data, old(backend.data)) <= Reach(problem, rank, k)
    {
      var ds := problem.deps(k);
      var vals: seq<V> := [];
      var i := 0;
      while i < |ds|
        invariant 0 <= i <= |ds|
        invariant Valid()
        invariant ResolveAll(problem, rank, admits, ds[..i], rank(k)) == Ok(vals)
        invariant forall j :: 0 <= j < i ==> Filled(ds[j])
        invariant Keeps(backend.data, old(backend.data))
        invariant Added(backend.data, old(backend.data)) <= Reach(problem, rank, k)
      {
        ghost var mid := backend.data;
        var v := Get(ds[i]);
        KeepsTrans(backend.data, mid, old(backend.data));
        ReachOfDep(problem, rank, k, i);
        ResolveAllSnoc(problem, rank, admits, ds, i, rank(k));
        if v.Err? {
          ResolveAllStopsAtError(problem, rank, admits, ds, i + 1, rank(k));
          return Err(v.error);
        }
        forall j | 0 <= j < i + 1
          ensures Filled(ds[j])
        {
          if j < i {
            assert MapLookup(mid, ds[j]).Some?;
          }
        }
        vals := vals + [v.value];
        i := i + 1;
      }
      assert ds[..|ds|] == ds;
      r := Ok(vals);
    }

    /** Storing the resolved value of an admitted key whose dependencies are stored, and
        counting one `compute` when the slot was empty, keeps the cache valid. */
    lemma StoreKeepsValid(k: K, vals: seq<V>, data0: map<K, Option<V>>, calls0: map<K, nat>)
      requires RankedBy(problem, rank)
      requires admits(k)
      requires ResolveAll(problem, rank, admits, problem.deps(k), rank(k)) == Ok(vals)
      requires DepsStored(problem, data0, k)
      requires Sound(problem, rank, admits, data0) && Closed(problem, data0) && Counted(calls0, data0)
      requires backend.data == MapInsert(data0, k, problem.compute(k, vals))
      requires calls == if MapLookup(data0, k).None? then calls0[k := 0 + 1] else calls0
      ensures Valid()
      ensures Keeps(backend.data, data0)
      ensures Added(backend.data, data0) <= {k}
    {
      assert Resolve(problem, rank, admits, k) == Ok(problem.compute(k, vals));
      forall j | j != k
        ensures MapLookup(backend.data, j) == MapLookup(data0, j)
      {
      }
    }

    /** A stored key has all the keys it reaches stored as well. */
    lemma {:induction false} ReachStored(k: K)
      requires Valid()
      requires Filled(k)
      ensures forall j :: j in Reach(problem, rank, k) ==> Filled(j)
      decreases rank(k)
    {
      var ds := problem.deps(k);
      assert DepsStored(problem, backend.data, k);
      forall i | 0 <= i < |ds|
        ensures forall j :: j in Reach(problem, rank, ds[i]) ==> Filled(j)
      {
        ReachStored(ds[i]);
      }
    }
  }

  /** A failing resolution stops the collection: the first error is the final result. */
  lemma {:induction false} ResolveAllStopsAtError<K(!new), V>(p: Problem<K, V>, rank: K -> nat, admits: K -> bool,
                                                              ds: seq<K>, n: nat, bound: nat)
    requires RankedBy(p, rank)
    requires n <= |ds|
    requires forall j :: 0 <= j < |ds| ==> rank(ds[j]) < bound
    requires ResolveAll(p, rank, admits, ds[..n], bound).Err?
    ensures ResolveAll(p, rank, admits, ds, bound) == ResolveAll(p, rank, admits, ds[..n], bound)
    decreases |ds| - n
  {
    if n < |ds| {
      ResolveAllSnoc(p, rank, admits, ds, n, bound);
      ResolveAllStopsAtError(p, rank, admits, ds, n + 1, bound);
    } else {
      assert ds[..n] == ds;
    }
  }

  function AdmitAll(n: nat): bool { true }

  /** tests.rs `test_diamond_dependency_computed_once`: A = 50, the four keys are computed
      once each and nothing else, and a second `get(A)` is served from the backend. */
  method DiamondComputedOnce() returns (first: Result<int, nat>, second: Result<int, nat>, ghost computed: map<nat, nat>)
    ensures first == Ok(50) && second == Ok(50)
    ensures computed.Keys == {0, 1, 2, 3} && forall k :: k in computed ==> computed[k] == 1
  {
    var cache := NewDiamondCache();
    first := cache.Get(0);
    DiamondStoredKeys(cache);
    ghost var calls1 := cache.calls;
    second := cache.Get(0);
    computed := cache.calls;
    CountedKeys(calls1, cache.backend.data);
  }

  /** The builder-built cache of the diamond test, before any `get`. */
  method NewDiamondCache() returns (cache: DpCache<nat, int>)
    ensures fresh(cache) && fresh(cache.backend) && cache.Valid() && cache.backend.data == map[]
    ensures cache.problem == Diamond() && cache.rank == DiamondRank && cache.admits == AdmitAll
    ensures Resolve(Diamond(), DiamondRank, AdmitAll, 0) == Ok(50)
    ensures Reach(Diamond(), DiamondRank, 0) == {0, 1, 2, 3}
  {
    DiamondFacts();
    ResolveIsSpec(Diamond(), DiamondRank, AdmitAll, 0);
    var backend := new HashMapBackend<nat, int>();
    cache := new DpCache.Build(NewBuilder().WithBackend(backend).WithProblem(Diamond()), DiamondRank, AdmitAll);
  }

  /** After `get(A)` succeeded on the diamond, exactly A, B, C and D are stored. */
  lemma DiamondStoredKeys(cache: DpCache<nat, int>)
    requires cache.Valid() && cache.problem == Diamond() && cache.rank == DiamondRank
    requires Reach(Diamond(), DiamondRank, 0) == {0, 1, 2, 3}
    requires cache.Filled(0)
    requires Added(cache.backend.data, map[]) <= {0, 1, 2, 3}
    ensures Added(cache.backend.data, map[]) == {0, 1, 2, 3}
  {
    cache.ReachStored(0);
    assert cache.Filled(0) && cache.Filled(1) && cache.Filled(2) && cache.Filled(3);
  }

  lemma CountedKeys<K(!new), V>(calls: map<K, nat>, data: map<K, Option<V>>)
    requires Counted(calls, data)
    ensures calls.Keys == Added(data, map[])
    ensures forall k :: k in calls ==> calls[k] == 1
  {
  }

  /** tests.rs `test_fibonacci_linear_dependency_chain` through the engine. */
  method FibonacciThroughCache() returns (fib10: Result<int, nat>, fib20: Result<int, nat>)
    ensures fib10 == Ok(55) && fib20 == Ok(6765)
  {
    FibonacciSpec(0);
    FibonacciValues();
    ResolveIsSpec(Fibonacci(), Identity, AdmitAll, 10);
    ResolveIsSpec(Fibonacci(), Identity, AdmitAll, 20);
    var backend := new HashMapBackend<nat, int>();
    var cache := new DpCache.NewConst(backend, Fibonacci(), Identity, AdmitAll);
    fib10 := cache.Get(10);
    fib20 := cache.Get(20);
  }

  function Fact(n: nat): nat
  {
    if n == 0 then 1 else n * Fact(n - 1)
  }

  function Below(capacity: nat): nat -> bool
  {
    k => k < capacity
  }

  /** Factorial over a backend that stores only keys below `capacity` (the `ArrayBackend<_, N>`
      of the examples): keys below the capacity resolve to n!, and every larger key fails with
      `Err(capacity)`, the first key on its dependency chain that cannot be stored. */
  lemma {:induction false} FactorialBounded(capacity: nat, n: nat)
    ensures RankedBy(Factorial(), Identity)
    ensures Resolve(Factorial(), Identity, Below(capacity), n) == if n < capacity then Ok(Fact(n)) else Err(capacity)
  {
    var p, admits := Factorial(), Below(capacity);
    assert RankedBy(p, Identity);
    if n > 0 {
      FactorialBounded(capacity, n - 1);
      var ds := p.deps(n);
      assert ds == [n - 1] && ds[..0] == [];
      assert ResolveAll(p, Identity, admits, ds[..0], n) == Ok([]);
      match Resolve(p, Identity, admits, n - 1)
      case Err(e) =>
      case Ok(v) => assert [] + [v] == [v];
    }
  }
}

/** The `DpProblem` trait (aoc-solutions/src/utils/dp_cache/problem.rs) and the values the
    DP cache must produce for it.

    A problem is its two callbacks: `deps` gives the keys a key depends on, `compute` builds
    the key's value from the values of those dependencies, in the same order. The engine
    does not detect cycles, so every statement here assumes a `rank` on keys that strictly
    decreases along each dependency edge, which is what "the dependencies form a DAG"
    means for the keys that are actually queried. */
module DpProblem {
  import opened Wrappers

  datatype Problem<!K, !V> = Problem(deps: K -> seq<K>, compute: (K, seq<V>) -> V)

  /** Every dependency of every key has a strictly smaller rank: the dependency graph is
      acyclic and every chain of dependencies is finite. */
  ghost predicate RankedBy<K(!new), V>(p: Problem<K, V>, rank: K -> nat)
  {
    forall k, i :: 0 <= i < |p.deps(k)| ==> rank(p.deps(k)[i]) < rank(k)
  }

  /** The recurrence: Spec(k) = compute(k, [Spec(d) for d in deps(k)]). */
  ghost function Spec<K(!new), V>(p: Problem<K, V>, rank: K -> nat, k: K): V
    requires RankedBy(p, rank)
    decreases rank(k)
  {
    var ds := p.deps(k);
    p.compute(k, seq(|ds|, i requires 0 <= i < |ds| => Spec(p, rank, ds[i])))
  }

  /** What `DpCache::get(k)` returns when the backend can store exactly the keys that
      `admits` accepts: the dependencies are resolved in order and the first one that
      fails decides the error; if all succeed, a key the backend cannot store fails with
      `Err(k)`, and any other key gets compute's value. */
  ghost function Resolve<K(!new), V>(p: Problem<K, V>, rank: K -> nat, admits: K -> bool, k: K): Result<V, K>
    requires RankedBy(p, rank)
    decreases rank(k), 1
  {
    match ResolveAll(p, rank, admits, p.deps(k), rank(k))
    case Err(e) => Err(e)
    case Ok(vals) => if admits(k) then Ok(p.compute(k, vals)) else Err(k)
  }

  /** The `collect::<Result<Vec<_>, _>>()` over the resolved dependencies `ds`: all their
      values in order, or the error of the first one that fails (ResolveAllOk, ResolveAllErr). */
  ghost function ResolveAll<K(!new), V>(p: Problem<K, V>, rank: K -> nat, admits: K -> bool,
                                       ds: seq<K>, bound: nat): (r: Result<seq<V>, K>)
    requires RankedBy(p, rank)
    requires forall j :: 0 <= j < |ds| ==> rank(ds[j]) < bound
    decreases bound, 0, |ds|
  {
    if ds == [] then Ok([])
    else
      var n := |ds| - 1;
      match ResolveAll(p, rank, admits, ds[..n], bound)
      case Err(e) => Err(e)
      case Ok(vs) =>
        match Resolve(p, rank, admits, ds[n])
        case Err(e) => Err(e)
        case Ok(v) => Ok(vs + [v])
  }

  /** The collection succeeds exactly when every dependency resolves, and then holds their
      values in order. */
  lemma {:induction false} ResolveAllOk<K(!new), V>(p: Problem<K, V>, rank: K -> nat, admits: K -> bool,
                                                    ds: seq<K>, bound: nat)
    requires RankedBy(p, rank)
    requires forall j :: 0 <= j < |ds| ==> rank(ds[j]) < bound
    ensures ResolveAll(p, rank, admits, ds, bound).Ok? <==>
            forall j :: 0 <= j < |ds| ==> Resolve(p, rank, admits, ds[j]).Ok?
    ensures ResolveAll(p, rank, admits, ds, bound).Ok? ==>
            var vs := ResolveAll(p, rank, admits, ds, bound).value;
            |vs| == |ds| && forall j :: 0 <= j < |ds| ==> Resolve(p, rank, admits, ds[j]) == Ok(vs[j])
  {
    if ds != [] {
      var n := |ds| - 1;
      ResolveAllOk(p, rank, admits, ds[..n], bound);
      assert forall j :: 0 <= j < n ==> ds[..n][j] == ds[j];
    }
  }

  /** When the collection fails, its error is that of the first dependency that fails. */
  lemma {:induction false} ResolveAllErr<K(!new), V>(p: Problem<K, V>, rank: K -> nat, admits: K -> bool,
                                                     ds: seq<K>, bound: nat)
    requires RankedBy(p, rank)
    requires forall j :: 0 <= j < |ds| ==> rank(ds[j]) < bound
    requires ResolveAll(p, rank, admits, ds, bound).Err?
    ensures exists j :: 0 <= j < |ds| && Resolve(p, rank, admits, ds[j]) == Err(ResolveAll(p, rank, admits, ds, bound).error) &&
                        forall i :: 0 <= i < j ==> Resolve(p, rank, admits, ds[i]).Ok?
  {
    var n := |ds| - 1;
    var e := ResolveAll(p, rank, admits, ds, bound).error;
    assert forall j :: 0 <= j < n ==> ds[..n][j] == ds[j];
    if ResolveAll(p, rank, admits, ds[..n], bound).Err? {
      ResolveAllErr(p, rank, admits, ds[..n], bound);
      var j :| 0 <= j < n && Resolve(p, rank, admits, ds[..n][j]) == Err(e) &&
               forall i :: 0 <= i < j ==> Resolve(p, rank, admits, ds[..n][i]).Ok?;
      assert Resolve(p, rank, admits, ds[j]) == Err(e);
    } else {
      ResolveAllOk(p, rank, admits, ds[..n], bound);
      assert Resolve(p, rank, admits, ds[n]) == Err(e);
    }
  }

  /** Resolving one more dependency at the end extends the collected values or stops at
      the first error; this is the step of the engine's resolution loop. */
  lemma ResolveAllSnoc<K(!new), V>(p: Problem<K, V>, rank: K -> nat, admits: K -> bool,
                                   ds: seq<K>, n: nat, bound: nat)
    requires RankedBy(p, rank)
    requires n < |ds|
    requires forall j :: 0 <= j < |ds| ==> rank(ds[j]) < bound
    ensures ResolveAll(p, rank, admits, ds[..n + 1], bound) ==
            match ResolveAll(p, rank, admits, ds[..n], bound)
            case Err(e) => Err(e)
            case Ok(vs) => (match Resolve(p, rank, admits, ds[n])
                            case Err(e) => Err(e)
                            case Ok(v) => Ok(vs + [v]))
  {
    assert ds[..n + 1][..n] == ds[..n];
  }

  /** When the backend can store every key (VecBackend, HashMapBackend), resolution never
      fails and yields the recurrence value. */
  lemma {:induction false} ResolveIsSpec<K(!new), V>(p: Problem<K, V>, rank: K -> nat, admits: K -> bool, k: K)
    requires RankedBy(p, rank)
    requires forall key :: admits(key)
    ensures Resolve(p, rank, admits, k) == Ok(Spec(p, rank, k))
    decreases rank(k)
  {
    var ds := p.deps(k);
    forall j | 0 <= j < |ds|
      ensures Resolve(p, rank, admits, ds[j]) == Ok(Spec(p, rank, ds[j]))
    {
      ResolveIsSpec(p, rank, admits, ds[j]);
    }
    ResolveAllOk(p, rank, admits, ds, rank(k));
    var all := ResolveAll(p, rank, admits, ds, rank(k));
    assert all.Ok?;
    assert all.value == seq(|ds|, i requires 0 <= i < |ds| => Spec(p, rank, ds[i]));
  }

  /** The keys `get(k)` may visit: `k` and, transitively, its dependencies. */
  ghost function Reach<K(!new), V>(p: Problem<K, V>, rank: K -> nat, k: K): set<K>
    requires RankedBy(p, rank)
    decreases rank(k)
  {
    var ds := p.deps(k);
    {k} + (set i, d | 0 <= i < |ds| && d in Reach(p, rank, ds[i]) :: d)
  }

  /** Everything a dependency reaches is reached from the key itself. */
  lemma ReachOfDep<K(!new), V>(p: Problem<K, V>, rank: K -> nat, k: K, i: nat)
    requires RankedBy(p, rank)
    requires i < |p.deps(k)|
    ensures Reach(p, rank, p.deps(k)[i]) <= Reach(p, rank, k)
  {
  }

  // ---------------------------------------------------------------------------
  // Problems from the tests (aoc-solutions/src/utils/dp_cache/tests.rs)
  // ---------------------------------------------------------------------------

  function Fib(n: nat): nat
  {
    if n <= 1 then n else Fib(n - 1) + Fib(n - 2)
  }

  /** Fibonacci as a DpProblem. `compute` reads `deps[0] + deps[1]`; the engine always passes
      two values for n >= 2, and the guard on the length stands for Rust's index panic. */
  function Fibonacci(): Problem<nat, int>
  {
    Problem(
      n => if n <= 1 then [] else [n - 1, n - 2],
      (n, deps: seq<int>) => if n <= 1 then n else if |deps| < 2 then 0 else deps[0] + deps[1])
  }

  function Identity(n: nat): nat { n }

  /** The cached Fibonacci problem computes the Fibonacci numbers. */
  lemma {:induction false} FibonacciSpec(n: nat)
    ensures RankedBy(Fibonacci(), Identity)
    ensures Spec(Fibonacci(), Identity, n) == Fib(n)
  {
    if n >= 2 {
      FibonacciSpec(n - 1);
      FibonacciSpec(n - 2);
      var ds := Fibonacci().deps(n);
      var vals := seq(|ds|, i requires 0 <= i < |ds| => Spec(Fibonacci(), Identity, ds[i]));
      assert vals == [Fib(n - 1), Fib(n - 2)];
    }
  }

  lemma FibTable()
    ensures Fib(10) == 55 && Fib(20) == 6765
  {
    assert Fib(2) == 1 && Fib(3) == 2 && Fib(4) == 3 && Fib(5) == 5;
    assert Fib(6) == 8 && Fib(7) == 13 && Fib(8) == 21 && Fib(9) == 34;
    assert Fib(10) == 55 && Fib(11) == 89 && Fib(12) == 144 && Fib(13) == 233;
    assert Fib(14) == 377 && Fib(15) == 610 && Fib(16) == 987 && Fib(17) == 1597;
    assert Fib(18) == 2584 && Fib(19) == 4181;
  }

  /** tests.rs `test_fibonacci_linear_dependency_chain`: fib(10) = 55 and fib(20) = 6765. */
  lemma FibonacciValues()
    ensures Spec(Fibonacci(), Identity, 10) == 55
    ensures Spec(Fibonacci(), Identity, 20) == 6765
  {
    FibonacciSpec(10);
    FibonacciSpec(20);
    FibTable();
  }

  /** Factorial as a DpProblem (the example of cache.rs and tests.rs). */
  function Factorial(): Problem<nat, int>
  {
    Problem(
      n => if n == 0 then [] else [n - 1],
      (n, deps: seq<int>) => if n == 0 then 1 else if |deps| < 1 then 0 else n * deps[0])
  }

  /** tests.rs `test_trait_based_factorial`: factorial(5) = 120. */
  lemma FactorialValue()
    ensures RankedBy(Factorial(), Identity)
    ensures Spec(Factorial(), Identity, 5) == 120
  {
    assert RankedBy(Factorial(), Identity);
    assert Spec(Factorial(), Identity, 0) == 1;
    assert Spec(Factorial(), Identity, 1) == 1;
    assert Spec(Factorial(), Identity, 2) == 2;
    assert Spec(Factorial(), Identity, 3) == 6;
    assert Spec(Factorial(), Identity, 4) == 24;
  }

  /** The diamond of tests.rs: A(0) depends on B(1) and C(2), both depend on D(3). */
  function Diamond(): Problem<nat, int>
  {
    Problem(
      n => if n == 0 then [1, 2] else if n == 1 || n == 2 then [3] else [],
      (n, deps: seq<int>) =>
        if n == 3 then 10
        else if n > 3 || |deps| < 1 then 0
        else if n == 1 then deps[0] * 2
        else if n == 2 then deps[0] * 3
        else if |deps| < 2 then 0 else deps[0] + deps[1])
  }

  function DiamondRank(n: nat): nat
  {
    if n == 0 then 2 else if n == 1 || n == 2 then 1 else 0
  }

  /** The diamond is acyclic, A = B + C = 2*D + 3*D = 50, and `get(A)` reaches exactly
      the four keys A, B, C, D. */
  lemma DiamondFacts()
    ensures RankedBy(Diamond(), DiamondRank)
    ensures Spec(Diamond(), DiamondRank, 0) == 50
    ensures Reach(Diamond(), DiamondRank, 0) == {0, 1, 2, 3}
  {
    var p, r := Diamond(), DiamondRank;
    assert RankedBy(p, r);
    assert Spec(p, r, 3) == 10;
    assert Spec(p, r, 1) == 20;
    assert Spec(p, r, 2) == 30;
    assert p.deps(0) == [1, 2];
    assert Reach(p, r, 3) == {3};
    assert Reach(p, r, 1) == {1, 3};
    assert Reach(p, r, 2) == {2, 3};
  }
}

/** The result aggregator of the command-line runner (aoc-cli/src/aggregator.rs): results of
    parallel solvers arrive in any order and are released in ascending (year, day, part)
    order, each as soon as every key before it has been released. The two min-heaps of the
    source are modelled as sequences kept in ascending key order: peeking is looking at the
    head, popping is dropping it, pushing is an ordered insertion. */
module Aggregator {
  import opened MachineInts
  import opened Executor

  /** `ResultKey`, ordered lexicographically by year, then day, then part (the derived `Ord`). */
  datatype ResultKey = ResultKey(year: u16, day: u8, part: u8)

  predicate KeyLe(a: ResultKey, b: ResultKey)
    ensures a == b ==> KeyLe(a, b)
    ensures KeyLe(a, b) ==> a.year <= b.year
  {
    a.year < b.year || (a.year == b.year && (a.day < b.day || (a.day == b.day && a.part <= b.part)))
  }

  /** `From<&SolverResult> for ResultKey`. */
  function KeyOf(r: SolverResult): (k: ResultKey)
    ensures k.year == r.year && k.day == r.day && k.part == r.part
  {
    ResultKey(r.year, r.day, r.part)
  }

  /** The derived order is a total order: reflexive, antisymmetric, transitive and total. */
  lemma KeyLeTotalOrder(a: ResultKey, b: ResultKey, c: ResultKey)
    ensures KeyLe(a, a)
    ensures KeyLe(a, b) && KeyLe(b, a) ==> a == b
    ensures KeyLe(a, b) && KeyLe(b, c) ==> KeyLe(a, c)
    ensures KeyLe(a, b) || KeyLe(b, a)
  {
  }

  function KeyId(k: ResultKey): ResultKey
  {
    k
  }

  /** The keys of a list of results, in order. */
  function Keys(rs: seq<SolverResult>): (r: seq<ResultKey>)
    ensures |r| == |rs|
  {
    if rs == [] then [] else [KeyOf(rs[0])] + Keys(rs[1..])
  }

  lemma {:induction false} KeysAppend(a: seq<SolverResult>, b: seq<SolverResult>)
    ensures Keys(a + b) == Keys(a) + Keys(b)
  {
    if a == [] {
      assert a + b == b;
    } else {
      assert (a + b)[1..] == a[1..] + b;
      KeysAppend(a[1..], b);
    }
  }

  /** Ascending order under a key. */
  ghost predicate SortedBy<T>(s: seq<T>, key: T -> ResultKey)
  {
    forall i, j :: 0 <= i < j < |s| ==> KeyLe(key(s[i]), key(s[j]))
  }

  /** A heap push, as an ordered insertion behind every element whose key is not greater. */
  function InsertBy<T>(s: seq<T>, x: T, key: T -> ResultKey): (r: seq<T>)
    ensures |r| == |s| + 1
    ensures multiset(r) == multiset(s) + multiset{x}
    ensures SortedBy(s, key) ==> SortedBy(r, key)
  {
    if s == [] then [x]
    else if !KeyLe(key(s[0]), key(x)) then
      HeadIsLeast(s, key);
      [x] + s
    else
      var rest := InsertBy(s[1..], x, key);
      assert s == [s[0]] + s[1..];
      ConsSorted(s, x, rest, key);
      [s[0]] + rest
  }

  lemma HeadIsLeast<T>(s: seq<T>, key: T -> ResultKey)
    requires s != []
    ensures SortedBy(s, key) ==> forall i :: 0 <= i < |s| ==> KeyLe(key(s[0]), key(s[i]))
  {
  }

  /** Putting the head back in front of the tail with `x` inserted keeps the order. */
  lemma ConsSorted<T>(s: seq<T>, x: T, rest: seq<T>, key: T -> ResultKey)
    requires s != [] && KeyLe(key(s[0]), key(x))
    requires multiset(rest) == multiset(s[1..]) + multiset{x}
    requires SortedBy(s[1..], key) ==> SortedBy(rest, key)
    ensures SortedBy(s, key) ==> SortedBy([s[0]] + rest, key)
  {
    if SortedBy(s, key) {
      forall j | 0 <= j < |rest|
        ensures KeyLe(key(s[0]), key(rest[j]))
      {
        var y := rest[j];
        assert y in multiset(rest);
        if y != x {
          assert y in multiset(s[1..]);
          var k :| 0 <= k < |s[1..]| && s[1..][k] == y;
          assert s[k + 1] == y;
        }
      }
      assert SortedBy(s[1..], key);
    }
  }

  /** Ascending key order, for the two element types the heaps hold. */
  ghost predicate SortedKeys(ks: seq<ResultKey>)
  {
    forall i, j :: 0 <= i < j < |ks| ==> KeyLe(ks[i], ks[j])
  }

  ghost predicate SortedResults(rs: seq<SolverResult>)
  {
    forall i, j :: 0 <= i < j < |rs| ==> KeyLe(KeyOf(rs[i]), KeyOf(rs[j]))
  }

  lemma SortedByKeyOf(rs: seq<SolverResult>)
    ensures SortedBy(rs, KeyOf) <==> SortedResults(rs)
  {
  }

  lemma SortedByKeyId(ks: seq<ResultKey>)
    ensures SortedBy(ks, KeyId) <==> SortedKeys(ks)
  {
  }

  /** Pushing an element no smaller than any other puts it last. */
  lemma {:induction false} InsertLast<T>(s: seq<T>, x: T, key: T -> ResultKey)
    requires forall i :: 0 <= i < |s| ==> KeyLe(key(s[i]), key(x))
    ensures InsertBy(s, x, key) == s + [x]
  {
    if s != [] {
      InsertLast(s[1..], x, key);
      assert s == [s[0]] + s[1..];
    }
  }

  /** Both heaps are in ascending order, the released keys are in ascending order and no
      greater than any expected key, and released and expected keys together are the keys
      given at creation. */
  ghost predicate Consistent(released: seq<ResultKey>, expected: seq<ResultKey>, pending: seq<SolverResult>,
                             all: multiset<ResultKey>)
  {
    && SortedResults(pending)
    && SortedKeys(released) && SortedKeys(expected)
    && (released != [] && expected != [] ==> KeyLe(released[|released| - 1], expected[0]))
    && multiset(released) + multiset(expected) == all
  }

  /** `ResultAggregator`. The ghost fields record every key given at creation and the keys
      of the results released so far. */
  class ResultAggregator {
    var expected: seq<ResultKey>
    var pending: seq<SolverResult>
    ghost var released: seq<ResultKey>
    ghost const all: multiset<ResultKey>

    ghost predicate Valid()
      reads this
    {
      Consistent(released, expected, pending, all)
    }

    /** `ResultAggregator::new`: every key expected in ascending order, nothing pending.
        Keys given in ascending order stay in that order. */
    constructor (expectedKeys: seq<ResultKey>)
      ensures Valid()
      ensures multiset(expected) == multiset(expectedKeys) == all && SortedKeys(expected)
      ensures SortedKeys(expectedKeys) ==> expected == expectedKeys
      ensures pending == [] && released == []
    {
      var keys: seq<ResultKey> := [];
      for i := 0 to |expectedKeys|
        invariant SortedBy(keys, KeyId)
        invariant multiset(keys) == multiset(expectedKeys[..i])
        invariant SortedBy(expectedKeys, KeyId) ==> keys == expectedKeys[..i]
      {
        assert expectedKeys[..i + 1] == expectedKeys[..i] + [expectedKeys[i]];
        if SortedBy(expectedKeys, KeyId) {
          InsertLast(keys, expectedKeys[i], KeyId);
        }
        keys := InsertBy(keys, expectedKeys[i], KeyId);
      }
      assert expectedKeys[..|expectedKeys|] == expectedKeys;
      SortedByKeyId(keys);
      SortedByKeyId(expectedKeys);
      expected := keys;
      pending := [];
      released := [];
      all := multiset(expectedKeys);
    }

    /** `add`: the result is pushed, then the release loop runs. The released keys stay in
        ascending order across calls. */
    method Add(result: SolverResult) returns (ready: seq<SolverResult>)
      requires Valid()
      modifies this
      ensures Valid()
      ensures ready + pending == InsertBy(old(pending), result, KeyOf)
      ensures Keys(ready) + expected == old(expected)
      ensures expected == [] || pending == [] || KeyOf(pending[0]) != expected[0]
      ensures (ready, expected, pending) == Emit(old(expected), InsertBy(old(pending), result, KeyOf))
      ensures released == old(released) + Keys(ready)
    {
      var pushed := InsertBy(pending, result, KeyOf);
      SortedByKeyOf(pending);
      SortedByKeyOf(pushed);
      ghost var rel;
      ready, expected, pending, rel := ReleaseReady(released, expected, pushed, all);
      released := rel;
    }

    /** `drain`: every pending result, in ascending key order; nothing stays pending. */
    method Drain() returns (results: seq<SolverResult>)
      requires Valid()
      modifies this
      ensures Valid()
      ensures results == old(pending) && SortedResults(results)
      ensures pending == [] && expected == old(expected) && released == old(released)
    {
      results := pending;
      pending := [];
    }

    /** `is_complete`: no key is expected any more, that is, a result was released for every
        key given at creation. */
    predicate IsComplete()
      requires Valid()
      reads this
      ensures IsComplete() <==> multiset(released) == all
    {
      expected == []
    }
  }

  /** The outcome of the release loop of `add`: the released results, then what is left
      expected and pending. The released results are the longest common prefix of the
      pending results and the expected keys. */
  function Emit(expected: seq<ResultKey>, pending: seq<SolverResult>): (r: (seq<SolverResult>, seq<ResultKey>, seq<SolverResult>))
    ensures r.0 + r.2 == pending
    ensures Keys(r.0) + r.1 == expected
    ensures r.1 == [] || r.2 == [] || KeyOf(r.2[0]) != r.1[0]
  {
    if expected != [] && pending != [] && KeyOf(pending[0]) == expected[0] then
      var (ready, e, p) := Emit(expected[1..], pending[1..]);
      assert ([pending[0]] + ready)[1..] == ready;
      ([pending[0]] + ready, e, p)
    else
      ([], expected, pending)
  }

  /** Only one split of the pending results and of the expected keys has a common prefix
      that cannot be extended. */
  lemma {:induction false} EmitUnique(expected: seq<ResultKey>, pending: seq<SolverResult>, ready: seq<SolverResult>,
                                      expected': seq<ResultKey>, pending': seq<SolverResult>)
    requires ready + pending' == pending && Keys(ready) + expected' == expected
    requires expected' == [] || pending' == [] || KeyOf(pending'[0]) != expected'[0]
    ensures Emit(expected, pending) == (ready, expected', pending')
  {
    if ready == [] {
      assert pending' == pending && expected' == expected;
    } else {
      assert pending[0] == ready[0] && expected[0] == KeyOf(ready[0]);
      assert ready[1..] + pending' == pending[1..];
      assert Keys(ready[1..]) + expected' == expected[1..];
      EmitUnique(expected[1..], pending[1..], ready[1..], expected', pending');
      assert ready == [ready[0]] + ready[1..];
    }
  }

  /** The release loop of `add`: while the smallest pending result carries the smallest
      expected key, both are popped and the result is released. The released results are
      the longest common prefix of the pending results and the expected keys, and their
      keys move from the expected ones to the released ones. */
  method ReleaseReady(ghost released: seq<ResultKey>, expected: seq<ResultKey>, pending: seq<SolverResult>,
                      ghost all: multiset<ResultKey>)
    returns (ready: seq<SolverResult>, expected': seq<ResultKey>, pending': seq<SolverResult>, ghost released': seq<ResultKey>)
    requires Consistent(released, expected, pending, all)
    ensures (ready, expected', pending') == Emit(expected, pending)
    ensures released' == released + Keys(ready)
    ensures Consistent(released', expected', pending', all)
  {
    ready, expected', pending', released' := [], expected, pending, released;
    assert [] + pending == pending && [] + expected == expected && released + [] == released;
    while expected' != [] && pending' != [] && KeyOf(pending'[0]) == expected'[0]
      invariant Consistent(released', expected', pending', all)
      invariant ready + pending' == pending
      invariant Keys(ready) + expected' == expected
      invariant released' == released + Keys(ready)
      decreases |pending'|
    {
      var next := pending'[0];
      ReleaseKeeps(released, expected, pending, all, ready, expected', pending', released');
      expected', pending' := expected'[1..], pending'[1..];
      ready := ready + [next];
      released' := released' + [KeyOf(next)];
    }
    EmitUnique(expected, pending, ready, expected', pending');
  }

  /** One round of the release loop keeps every loop invariant. */
  lemma ReleaseKeeps(released: seq<ResultKey>, expected: seq<ResultKey>, pending: seq<SolverResult>,
                     all: multiset<ResultKey>, ready: seq<SolverResult>, expected': seq<ResultKey>,
                     pending': seq<SolverResult>, released': seq<ResultKey>)
    requires Consistent(released', expected', pending', all)
    requires ready + pending' == pending && Keys(ready) + expected' == expected
    requires released' == released + Keys(ready)
    requires expected' != [] && pending' != [] && KeyOf(pending'[0]) == expected'[0]
    ensures Consistent(released' + [KeyOf(pending'[0])], expected'[1..], pending'[1..], all)
    ensures (ready + [pending'[0]]) + pending'[1..] == pending
    ensures Keys(ready + [pending'[0]]) + expected'[1..] == expected
    ensures released' + [KeyOf(pending'[0])] == released + Keys(ready + [pending'[0]])
  {
    PopKeepsOrder(released', expected', all);
    ReleaseStep(ready, pending'[0], pending', expected');
    ReleasedStep(released, ready, pending'[0], released');
  }

  /** Moving the smallest expected key to the released ones keeps both in order, the
      released ones no greater than the expected ones, and their joint multiset. */
  lemma PopKeepsOrder(released: seq<ResultKey>, expected: seq<ResultKey>, all: multiset<ResultKey>)
    requires expected != [] && SortedKeys(released) && SortedKeys(expected)
    requires released != [] ==> KeyLe(released[|released| - 1], expected[0])
    requires multiset(released) + multiset(expected) == all
    ensures SortedKeys(released + [expected[0]]) && SortedKeys(expected[1..])
    ensures expected[1..] != [] ==> KeyLe(expected[0], expected[1..][0])
    ensures multiset(released + [expected[0]]) + multiset(expected[1..]) == all
  {
    assert expected == [expected[0]] + expected[1..];
  }

  /** Releasing the head of the pending results, whose key is the head of the expected keys,
      moves it from one side of each split to the other. */
  lemma ReleaseStep(ready: seq<SolverResult>, next: SolverResult, pending: seq<SolverResult>, expected: seq<ResultKey>)
    requires pending != [] && expected != [] && next == pending[0] && KeyOf(next) == expected[0]
    requires SortedResults(pending)
    ensures (ready + [next]) + pending[1..] == ready + pending
    ensures Keys(ready + [next]) + expected[1..] == Keys(ready) + expected
    ensures SortedResults(pending[1..])
  {
    KeysAppend(ready, [next]);
    assert Keys([next]) == [KeyOf(next)];
    assert expected == [expected[0]] + expected[1..];
  }

  lemma ReleasedStep(before: seq<ResultKey>, ready: seq<SolverResult>, next: SolverResult, released: seq<ResultKey>)
    requires released == before + Keys(ready)
    ensures released + [KeyOf(next)] == before + Keys(ready + [next])
  {
    KeysAppend(ready, [next]);
    assert Keys([next]) == [KeyOf(next)];
  }

  function R(year: u16, day: u8, part: u8): SolverResult
  {
    SolverResult(year, day, part, Wrappers.Ok([]))
  }

  /** Two parts of one day, added in order, are released one at a time. */
  lemma InOrderResults()
    ensures var k1, k2 := ResultKey(2015, 1, 1), ResultKey(2015, 1, 2);
            && Emit([k1, k2], InsertBy([], R(2015, 1, 1), KeyOf)) == ([R(2015, 1, 1)], [k2], [])
            && Emit([k2], InsertBy([], R(2015, 1, 2), KeyOf)) == ([R(2015, 1, 2)], [], [])
  {
    var k1, k2 := ResultKey(2015, 1, 1), ResultKey(2015, 1, 2);
    var r1, r2 := R(2015, 1, 1), R(2015, 1, 2);
    assert Emit([k2], []) == ([], [k2], []);
    assert Emit([k1, k2], [r1]) == ([r1], [k2], []) by {
      assert [k1, k2][1..] == [k2] && [r1][1..] == [] && [r1] + [] == [r1];
    }
    assert Emit([], []) == ([], [], []);
    assert Emit([k2], [r2]) == ([r2], [], []) by {
      assert [k2][1..] == [] && [r2][1..] == [] && [r2] + [] == [r2];
    }
  }

  function Keys2015(): seq<ResultKey>
  {
    [ResultKey(2015, 1, 1), ResultKey(2015, 1, 2), ResultKey(2015, 2, 1)]
  }

  /** Part 2 of day 1 and part 1 of day 2 wait for part 1 of day 1. */
  lemma OutOfOrderWaits()
    ensures Emit(Keys2015(), InsertBy([], R(2015, 1, 2), KeyOf)) == ([], Keys2015(), [R(2015, 1, 2)])
    ensures Emit(Keys2015(), InsertBy([R(2015, 1, 2)], R(2015, 2, 1), KeyOf)) == ([], Keys2015(), [R(2015, 1, 2), R(2015, 2, 1)])
  {
    var r12, r21 := R(2015, 1, 2), R(2015, 2, 1);
    PushGreater();
    EmitWaits(Keys2015(), [r12]);
    EmitWaits(Keys2015(), [r12, r21]);
  }

  lemma PushGreater()
    ensures InsertBy([R(2015, 1, 2)], R(2015, 2, 1), KeyOf) == [R(2015, 1, 2), R(2015, 2, 1)]
  {
    assert InsertBy([R(2015, 1, 2)][1..], R(2015, 2, 1), KeyOf) == [R(2015, 2, 1)];
  }

  /** When the heads differ, the release loop releases nothing. */
  lemma EmitWaits(expected: seq<ResultKey>, pending: seq<SolverResult>)
    requires expected != [] && pending != [] && KeyOf(pending[0]) != expected[0]
    ensures Emit(expected, pending) == ([], expected, pending)
  {
  }

  /** A pending result whose key lies below the next expected key (a key never expected,
      or one already released) stays at the head of the pending heap whatever is pushed
      after it, so the release loop releases nothing. */
  lemma PendingBelowBlocks(expected: seq<ResultKey>, pending: seq<SolverResult>, x: SolverResult)
    requires expected != [] && pending != []
    requires KeyLe(KeyOf(pending[0]), expected[0]) && KeyOf(pending[0]) != expected[0]
    ensures var p := InsertBy(pending, x, KeyOf);
            KeyLe(KeyOf(p[0]), expected[0]) && KeyOf(p[0]) != expected[0]
            && Emit(expected, p) == ([], expected, p)
  {
    var p := InsertBy(pending, x, KeyOf);
    assert p[0] == pending[0] || (p[0] == x && !KeyLe(KeyOf(pending[0]), KeyOf(x)));
    EmitWaits(expected, p);
  }

  /** The pending heap after pushing each of `xs` in turn. */
  function PushAll(pending: seq<SolverResult>, xs: seq<SolverResult>): (r: seq<SolverResult>)
    ensures |r| == |pending| + |xs|
    ensures multiset(r) == multiset(pending) + multiset(xs)
    decreases xs
  {
    if xs == [] then pending
    else
      assert xs == [xs[0]] + xs[1..];
      PushAll(InsertBy(pending, xs[0], KeyOf), xs[1..])
  }

  /** Once such a result is pending, no later arrival releases anything: the head of the
      line is blocked for good. */
  lemma {:induction false} BlockedForever(expected: seq<ResultKey>, pending: seq<SolverResult>, xs: seq<SolverResult>)
    requires expected != [] && pending != []
    requires KeyLe(KeyOf(pending[0]), expected[0]) && KeyOf(pending[0]) != expected[0]
    ensures var p := PushAll(pending, xs);
            KeyLe(KeyOf(p[0]), expected[0]) && KeyOf(p[0]) != expected[0]
            && Emit(expected, p) == ([], expected, p)
    decreases xs
  {
    if xs == [] {
      EmitWaits(expected, pending);
    } else {
      PendingBelowBlocks(expected, pending, xs[0]);
      BlockedForever(expected, InsertBy(pending, xs[0], KeyOf), xs[1..]);
    }
  }

  /** Once part 1 of day 1 arrives, all three are released in key order. */
  lemma OutOfOrderReleases()
    ensures var r11, r12, r21 := R(2015, 1, 1), R(2015, 1, 2), R(2015, 2, 1);
            Emit(Keys2015(), InsertBy([r12, r21], r11, KeyOf)) == ([r11, r12, r21], [], [])
  {
    var k11, k12, k21 := ResultKey(2015, 1, 1), ResultKey(2015, 1, 2), ResultKey(2015, 2, 1);
    var r11, r12, r21 := R(2015, 1, 1), R(2015, 1, 2), R(2015, 2, 1);
    PushSmallest();
    EmitHead(Keys2015(), [r11, r12, r21]);
    assert Keys2015()[1..] == [k12, k21] && [r11, r12, r21][1..] == [r12, r21];
    ReleasesRest();
    assert [r11] + [r12, r21] == [r11, r12, r21];
  }

  /** When the heads match, the release loop releases the head and goes on with the rest. */
  lemma EmitHead(expected: seq<ResultKey>, pending: seq<SolverResult>)
    requires expected != [] && pending != [] && KeyOf(pending[0]) == expected[0]
    ensures var (ready, e, p) := Emit(expected[1..], pending[1..]);
            Emit(expected, pending) == ([pending[0]] + ready, e, p)
  {
  }

  lemma PushSmallest()
    ensures InsertBy([R(2015, 1, 2), R(2015, 2, 1)], R(2015, 1, 1), KeyOf) == [R(2015, 1, 1), R(2015, 1, 2), R(2015, 2, 1)]
  {
  }

  lemma ReleasesRest()
    ensures Emit([ResultKey(2015, 1, 2), ResultKey(2015, 2, 1)], [R(2015, 1, 2), R(2015, 2, 1)]) ==
            ([R(2015, 1, 2), R(2015, 2, 1)], [], [])
  {
    var k12, k21 := ResultKey(2015, 1, 2), ResultKey(2015, 2, 1);
    var r12, r21 := R(2015, 1, 2), R(2015, 2, 1);
    assert Emit([], []) == ([], [], []);
    assert Emit([k21], [r21]) == ([r21], [], []) by {
      assert [k21][1..] == [] && [r21][1..] == [] && [r21] + [] == [r21];
    }
    assert [k12, k21][1..] == [k21] && [r12, r21][1..] == [r21] && [r12] + [r21] == [r12, r21];
  }

  /** Part 2 alone waits for part 1, and is what `drain` then hands back. */
  lemma DrainRemaining()
    ensures Emit([ResultKey(2015, 1, 1), ResultKey(2015, 1, 2)], InsertBy([], R(2015, 1, 2), KeyOf)).2 == [R(2015, 1, 2)]
  {
  }
}

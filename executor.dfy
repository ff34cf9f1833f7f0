/** The sequential logic of the executor (aoc-cli/src/executor.rs): which parts of which
    solvers run, how the errors of parallel work are reduced, and the two-slot buffer that
    releases part results in part order. Threads, channels and submission are not modelled:
    the arrival order of part results is an input and the emitted results are an output. */
module Executor {
  import opened Wrappers
  import opened MachineInts
  import opened SolverErrors
  import opened Registry
  import opened CliError

  /** `RangeInclusive<u8>` as its two bounds; it is empty when `start > end`. */
  datatype PartRange = PartRange(start: u8, end: u8)
  {
    predicate IsEmpty()
    {
      start > end
    }

    predicate Has(p: int)
    {
      start <= p <= end
    }
  }

  /** `filter_parts`: the requested part alone when the solver has it, nothing when it does
      not, and every part 1..=max when no part is requested. */
  function FilterParts(partFilter: Option<u8>, maxParts: u8): (r: PartRange)
    ensures partFilter.Some? && partFilter.value <= maxParts ==> forall p :: r.Has(p) <==> p == partFilter.value
    ensures partFilter.Some? && partFilter.value > maxParts ==> r.IsEmpty() && forall p :: !r.Has(p)
    ensures partFilter.None? ==> forall p :: r.Has(p) <==> 1 <= p <= maxParts
  {
    match partFilter
    case Some(p) => if p <= maxParts then PartRange(p, p) else PartRange(1, 0)
    case None => PartRange(1, maxParts)
  }

  /** `WorkItem`: one solver and the parts of it to run. */
  datatype WorkItem = WorkItem(year: u16, day: u8, parts: PartRange)

  /** The year and day filters of the configuration; an unset filter lets everything through. */
  predicate Selected(info: FactoryInfo, yearFilter: Option<u16>, dayFilter: Option<u8>)
  {
    (yearFilter.None? || info.year == yearFilter.value) && (dayFilter.None? || info.day == dayFilter.value)
  }

  function WorkFor(info: FactoryInfo, partFilter: Option<u8>): WorkItem
  {
    WorkItem(info.year, info.day, FilterParts(partFilter, info.parts))
  }

  /** `collect_work_items` over the registry's `iter_info`: the work item of each selected
      solver that has parts to run, in listing order. Every item comes from a selected
      solver and has parts, and no selected solver with parts is missing. */
  function CollectWorkItems(infos: seq<FactoryInfo>, yearFilter: Option<u16>, dayFilter: Option<u8>,
                            partFilter: Option<u8>): (r: seq<WorkItem>)
    ensures |r| <= |infos|
    ensures forall w :: w in r ==>
              (!w.parts.IsEmpty() &&
               exists info :: info in infos && Selected(info, yearFilter, dayFilter) && w == WorkFor(info, partFilter))
    ensures forall info ::
              (info in infos && Selected(info, yearFilter, dayFilter) && !WorkFor(info, partFilter).parts.IsEmpty()) ==>
              WorkFor(info, partFilter) in r
  {
    if infos == [] then []
    else
      var w := WorkFor(infos[0], partFilter);
      var rest := CollectWorkItems(infos[1..], yearFilter, dayFilter, partFilter);
      if Selected(infos[0], yearFilter, dayFilter) && !w.parts.IsEmpty() then [w] + rest else rest
  }

  /** `a` comes before `b` in (year, day) order. */
  predicate ItemBefore(a: WorkItem, b: WorkItem)
  {
    a.year < b.year || (a.year == b.year && a.day < b.day)
  }

  /** Strictly increasing (year, day) order. */
  predicate StrictlyOrdered(items: seq<WorkItem>)
  {
    forall j, k :: 0 <= j < k < |items| ==> ItemBefore(items[j], items[k])
  }

  /** Work items keep the (year, day) order of the listing they come from, so the items built
      from `iter_info` are in strictly increasing (year, day) order. */
  lemma {:induction false} WorkItemsOrdered(infos: seq<FactoryInfo>, yearFilter: Option<u16>, dayFilter: Option<u8>,
                                            partFilter: Option<u8>)
    requires forall j, k :: 0 <= j < k < |infos| ==> Before(infos[j], infos[k])
    ensures StrictlyOrdered(CollectWorkItems(infos, yearFilter, dayFilter, partFilter))
  {
    if infos != [] {
      var rest := CollectWorkItems(infos[1..], yearFilter, dayFilter, partFilter);
      WorkItemsOrdered(infos[1..], yearFilter, dayFilter, partFilter);
      var w := WorkFor(infos[0], partFilter);
      if CollectWorkItems(infos, yearFilter, dayFilter, partFilter) != rest {
        forall v | v in rest
          ensures ItemBefore(w, v)
        {
          var info :| info in infos[1..] && Selected(info, yearFilter, dayFilter) && v == WorkFor(info, partFilter);
          var k :| 0 <= k < |infos[1..]| && infos[1..][k] == info;
          assert Before(infos[0], infos[k + 1]);
        }
        PrependOrdered(w, rest);
      }
    }
  }

  lemma PrependOrdered(w: WorkItem, rest: seq<WorkItem>)
    requires StrictlyOrdered(rest) && forall v :: v in rest ==> ItemBefore(w, v)
    ensures StrictlyOrdered([w] + rest)
  {
    var r := [w] + rest;
    forall j, k | 0 <= j < k < |r|
      ensures ItemBefore(r[j], r[k])
    {
      assert r[k] == rest[k - 1] && rest[k - 1] in rest;
      if j > 0 {
        assert r[j] == rest[j - 1];
      }
    }
  }

  // ---------------------------------------------------------------------------
  // Reducing the errors of parallel work
  // ---------------------------------------------------------------------------

  /** The `reduce_with` closure as written: `err1.map(|e1| combine_opt(err2, e1))`. A `None`
      on the left yields `None` whatever the right side holds. */
  function ReduceErrors(err1: Option<ExecutorError>, err2: Option<ExecutorError>): (r: Option<ExecutorError>)
    ensures err1.None? ==> r.None?
    ensures err1.Some? ==> r.Some? && Flat(r.value) == FlatOpt(err2) + Flat(err1.value)
  {
    match err1
    case Some(e1) => Some(CombineOpt(err2, e1))
    case None => None
  }

  /** Two work items, the first succeeding and the second failing: the reduction reports
      success, and `execute` returns `Ok(())` although a solver failed. */
  lemma ReduceErrorsDropsRightError(e: ExecutorError)
    ensures ReduceErrors(None, Some(e)) == None
    ensures ReduceKeepingErrors(None, Some(e)) == Some(e)
  {
  }

  /** The reduction as evidently intended: a `None` on the left passes the right side on,
      so no error is lost. */
  function ReduceKeepingErrors(err1: Option<ExecutorError>, err2: Option<ExecutorError>): (r: Option<ExecutorError>)
    ensures r.Some? <==> err1.Some? || err2.Some?
    ensures multiset(FlatOpt(r)) == multiset(FlatOpt(err1)) + multiset(FlatOpt(err2))
  {
    match err1
    case Some(e1) => Some(CombineOpt(err2, e1))
    case None => err2
  }

  /** A reduction tree over the per-item outcomes: rayon's `reduce_with` combines adjacent
      results in a shape that depends on work splitting. */
  datatype Reduction = Leaf(outcome: Option<ExecutorError>) | Node(left: Reduction, right: Reduction)

  function Leaves(t: Reduction): seq<Option<ExecutorError>>
  {
    match t
    case Leaf(o) => [o]
    case Node(l, r) => Leaves(l) + Leaves(r)
  }

  /** rayon's `reduce_with` with the intended closure: whatever the shape of the reduction,
      the result is an error exactly when some work item failed, and it holds every error
      of every failing item. */
  function Reduce(t: Reduction): (r: Option<ExecutorError>)
    ensures r.Some? <==> AnyFailed(Leaves(t))
    ensures multiset(FlatOpt(r)) == multiset(AllErrors(Leaves(t)))
  {
    match t
    case Leaf(o) =>
      assert AllErrors([o]) == AllErrors([]) + FlatOpt(o);
      assert o.Some? ==> [o][0].Some?;
      o
    case Node(left, right) =>
      AllErrorsAppend(Leaves(left), Leaves(right));
      AnyFailedAppend(Leaves(left), Leaves(right));
      ReduceKeepingErrors(Reduce(left), Reduce(right))
  }

  /** Some work item in the list failed. */
  predicate AnyFailed(outcomes: seq<Option<ExecutorError>>)
  {
    exists i :: 0 <= i < |outcomes| && outcomes[i].Some?
  }

  lemma AnyFailedAppend(xs: seq<Option<ExecutorError>>, ys: seq<Option<ExecutorError>>)
    ensures AnyFailed(xs + ys) <==> AnyFailed(xs) || AnyFailed(ys)
  {
    if AnyFailed(xs + ys) {
      var i :| 0 <= i < |xs + ys| && (xs + ys)[i].Some?;
      if i < |xs| {
        assert xs[i].Some?;
      } else {
        assert ys[i - |xs|].Some?;
      }
    }
    if AnyFailed(xs) {
      var i :| 0 <= i < |xs| && xs[i].Some?;
      assert (xs + ys)[i].Some?;
    }
    if AnyFailed(ys) {
      var i :| 0 <= i < |ys| && ys[i].Some?;
      assert (xs + ys)[|xs| + i].Some?;
    }
  }

  lemma {:induction false} AllErrorsAppend(xs: seq<Option<ExecutorError>>, ys: seq<Option<ExecutorError>>)
    ensures AllErrors(xs + ys) == AllErrors(xs) + AllErrors(ys)
    decreases |ys|
  {
    if ys == [] {
      assert xs + ys == xs;
    } else {
      var n := |ys| - 1;
      var last := FlatOpt(ys[n]);
      AllErrorsAppend(xs, ys[..n]);
      assert (xs + ys)[..|xs + ys| - 1] == xs + ys[..n];
      assert (xs + ys)[|xs + ys| - 1] == ys[n];
      assert AllErrors(xs + ys) == AllErrors(xs + ys[..n]) + last;
      assert AllErrors(ys) == AllErrors(ys[..n]) + last;
    }
  }

  // ---------------------------------------------------------------------------
  // Part-order reorder buffer
  // ---------------------------------------------------------------------------

  /** `SolverResult`, reduced to what ordering and reporting look at. Durations and
      submission details are not modelled. */
  datatype SolverResult = SolverResult(year: u16, day: u8, part: u8, answer: Result<string, SolverError>)

  /** Some result for part `p` arrived. */
  predicate Arrived(arrivals: seq<SolverResult>, p: int)
  {
    exists i :: 0 <= i < |arrivals| && arrivals[i].part == p
  }

  /** How many parts the buffer releases: the first part once it arrived, and the second
      one too once that has also arrived. Parts from `start + 2` on are never released. */
  function Released(arrivals: seq<SolverResult>, start: int): nat
  {
    if !Arrived(arrivals, start) then 0
    else if !Arrived(arrivals, start + 1) then 1
    else 2
  }

  /** What the reorder buffer holds after the results in `seen` arrived and `emitted` went
      out: the emitted results are the first parts in order, each buffered result waits in
      the slot of its part behind them, and every arrived part not yet emitted is buffered. */
  ghost predicate Buffered(buf: seq<Option<SolverResult>>, emitted: seq<SolverResult>, seen: seq<SolverResult>, start: int)
  {
    && |buf| == 2 && |emitted| <= 2
    && (forall i :: 0 <= i < |emitted| ==> emitted[i].part == start + i && emitted[i] in seen)
    && (forall s :: 0 <= s < 2 && buf[s].Some? ==> buf[s].value in seen && buf[s].value.part == start + s && s >= |emitted|)
    && (forall s :: |emitted| <= s < 2 && Arrived(seen, start + s) ==> buf[s].Some?)
  }

  /** The buffering loop of `run_solver_parts_parallel`: each arriving result is stored in
      slot `part - start_part` when that is 0 or 1 and dropped otherwise, then the buffered
      results are released while the slot of `next_part` is filled. The `u8` subtractions
      require every part to be at least `start_part`, and each part is solved and sent once.
      `next_part` is a `u8` incremented once per released part, so it must not pass 255. */
  method ReorderParts(arrivals: seq<SolverResult>, start: u8) returns (emitted: seq<SolverResult>)
    requires forall i :: 0 <= i < |arrivals| ==> arrivals[i].part >= start
    requires forall i, j :: 0 <= i < j < |arrivals| ==> arrivals[i].part != arrivals[j].part
    requires start + Released(arrivals, start) <= 255
    ensures |emitted| == Released(arrivals, start)
    ensures forall i :: 0 <= i < |emitted| ==> emitted[i].part == start + i && emitted[i] in arrivals
  {
    var buffer := new Option<SolverResult>[2](_ => None);
    var next: int := start;
    emitted := [];
    var n := 0;
    while n < |arrivals|
      invariant 0 <= n <= |arrivals|
      invariant next == start + |emitted|
      invariant Buffered(buffer[..], emitted, arrivals[..n], start)
      invariant |emitted| == Released(arrivals[..n], start)
    {
      var result := arrivals[n];
      forall x | x in arrivals[..n]
        ensures x.part != result.part
      {
        var i :| 0 <= i < n && arrivals[i] == x;
      }
      StoreKeepsBuffered(buffer[..], emitted, arrivals[..n], start, result);
      var idx := result.part - start;
      if idx < buffer.Length {
        buffer[idx] := Some(result);
      }
      assert arrivals[..n + 1] == arrivals[..n] + [result];
      while next - start < buffer.Length && buffer[next - start].Some?
        invariant next == start + |emitted|
        invariant Buffered(buffer[..], emitted, arrivals[..n + 1], start)
        decreases 2 - |emitted|
      {
        var slot := next - start;
        EmitKeepsBuffered(buffer[..], emitted, arrivals[..n + 1], start);
        emitted := emitted + [buffer[slot].value];
        buffer[slot] := None;
        next := next + 1;
      }
      ReleasedAtRest(buffer[..], emitted, arrivals[..n + 1], start);
      n := n + 1;
    }
    assert arrivals[..n] == arrivals;
  }

  /** Storing a newly arrived result whose part was not seen before keeps the buffer
      consistent. */
  lemma StoreKeepsBuffered(buf: seq<Option<SolverResult>>, emitted: seq<SolverResult>, seen: seq<SolverResult>,
                           start: int, result: SolverResult)
    requires Buffered(buf, emitted, seen, start) && result.part >= start
    requires forall x :: x in seen ==> x.part != result.part
    ensures var idx := result.part - start;
            Buffered(if idx < 2 then buf[idx := Some(result)] else buf, emitted, seen + [result], start)
  {
    var idx := result.part - start;
    var seen' := seen + [result];
    var buf' := if idx < 2 then buf[idx := Some(result)] else buf;
    NotYetEmitted(emitted, seen, start, result);
    forall p
      ensures Arrived(seen', p) <==> Arrived(seen, p) || result.part == p
    {
      ArrivedSnoc(seen, result, p);
    }
    assert forall i :: 0 <= i < |emitted| ==> emitted[i].part == start + i && emitted[i] in seen';
    forall s | 0 <= s < 2 && buf'[s].Some?
      ensures buf'[s].value in seen' && buf'[s].value.part == start + s && s >= |emitted|
    {
      if idx < 2 && s == idx {
        assert buf'[s].value == result == seen'[|seen|];
      } else {
        assert buf'[s] == buf[s];
        assert buf[s].value in seen;
      }
    }
    assert forall s :: |emitted| <= s < 2 && Arrived(seen', start + s) ==> buf'[s].Some?;
  }

  /** A part that arrives now was not among the parts already emitted. */
  lemma NotYetEmitted(emitted: seq<SolverResult>, seen: seq<SolverResult>, start: int, result: SolverResult)
    requires forall i :: 0 <= i < |emitted| ==> emitted[i].part == start + i && emitted[i] in seen
    requires forall x :: x in seen ==> x.part != result.part
    requires result.part >= start
    ensures result.part - start >= |emitted|
  {
    forall i | 0 <= i < |emitted|
      ensures PartAt(emitted, i) != result.part
    {
      assert emitted[i] in seen;
    }
    var idx := result.part - start;
    assert PartAt(emitted, idx) == if idx < |emitted| then result.part else -1;
  }

  function PartAt(emitted: seq<SolverResult>, i: int): int
  {
    if 0 <= i < |emitted| then emitted[i].part else -1
  }

  /** Releasing the result in the slot of the next part keeps the buffer consistent. */
  lemma EmitKeepsBuffered(buf: seq<Option<SolverResult>>, emitted: seq<SolverResult>, seen: seq<SolverResult>, start: int)
    requires Buffered(buf, emitted, seen, start) && |emitted| < 2 && buf[|emitted|].Some?
    ensures Buffered(buf[|emitted| := None], emitted + [buf[|emitted|].value], seen, start)
  {
  }

  /** When the slot of the next part is empty, or both parts went out, the buffer has
      released exactly what `Released` counts. */
  lemma ReleasedAtRest(buf: seq<Option<SolverResult>>, emitted: seq<SolverResult>, seen: seq<SolverResult>, start: int)
    requires Buffered(buf, emitted, seen, start)
    requires |emitted| < 2 ==> buf[|emitted|].None?
    ensures |emitted| == Released(seen, start)
  {
    if |emitted| > 0 {
      var k :| 0 <= k < |seen| && seen[k] == emitted[0];
      assert seen[k].part == start;
    }
    if |emitted| > 1 {
      var k :| 0 <= k < |seen| && seen[k] == emitted[1];
      assert seen[k].part == start + 1;
    }
    if |emitted| == 0 {
      assert buf[0].None? && !Arrived(seen, start + 0);
    } else if |emitted| == 1 {
      assert buf[1].None? && !Arrived(seen, start + 1);
    }
  }

  lemma ArrivedSnoc(arrivals: seq<SolverResult>, result: SolverResult, p: int)
    ensures Arrived(arrivals + [result], p) <==> Arrived(arrivals, p) || result.part == p
  {
    if Arrived(arrivals, p) {
      var i :| 0 <= i < |arrivals| && arrivals[i].part == p;
      assert (arrivals + [result])[i].part == p;
    }
    if result.part == p {
      assert (arrivals + [result])[|arrivals|].part == p;
    }
    if Arrived(arrivals + [result], p) {
      var i :| 0 <= i < |arrivals + [result]| && (arrivals + [result])[i].part == p;
      if i < |arrivals| {
        assert arrivals[i].part == p;
      }
    }
  }

  /** Parts 1 and 2 arriving in reverse order are released as part 1, then part 2; a
      third part is dropped. */
  method ReorderTwoParts(p1: SolverResult, p2: SolverResult, p3: SolverResult) returns (emitted: seq<SolverResult>)
    requires p1.part == 1 && p2.part == 2 && p3.part == 3
    ensures emitted == [p1, p2]
  {
    emitted := ReorderParts([p3, p2, p1], 1);
    assert Arrived([p3, p2, p1], 1) && Arrived([p3, p2, p1], 2) by {
      assert [p3, p2, p1][2].part == 1 && [p3, p2, p1][1].part == 2;
    }
    assert emitted[0] in [p3, p2, p1] && emitted[1] in [p3, p2, p1];
  }
}

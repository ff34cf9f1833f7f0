/** Executor errors of the command-line runner (aoc-cli/src/error.rs) and the way they are
    merged: `combine` always builds a `Multiple`, splicing in the lists of operands that
    already are `Multiple`, so the flattened list of errors is the concatenation of the
    operands' lists. */
module CliError {
  import opened Wrappers
  import opened MachineInts
  import opened SolverErrors

  /** `ExecutorError` (behind its `Arc` wrapper). Error sources are kept as messages. */
  datatype ExecutorError =
    | InputFetch(year: u16, day: u8, source: string)
    | Solver(error: SolverError)
    | ChannelSend
    | ThreadPool(message: string)
    | CacheWrite(year: u16, day: u8, message: string)
    | Multiple(errors: seq<ExecutorError>)

  /** The errors an error stands for: the list of a `Multiple`, or the error itself. */
  function Flat(e: ExecutorError): seq<ExecutorError>
  {
    if e.Multiple? then e.errors else [e]
  }

  function FlatOpt(e: Option<ExecutorError>): seq<ExecutorError>
  {
    if e.Some? then Flat(e.value) else []
  }

  /** `ArcExecutorError::combine`: always a `Multiple`, listing the errors of `first`
      followed by those of `second`. */
  function Combine(first: ExecutorError, second: ExecutorError): (r: ExecutorError)
    ensures r.Multiple?
    ensures Flat(r) == Flat(first) + Flat(second)
  {
    match (first, second)
    case (Multiple(v1), Multiple(v2)) => Multiple(v1 + v2)
    case (_, Multiple(v)) => Multiple([first] + v)
    case (Multiple(v), _) => Multiple(v + [second])
    case _ => Multiple([first, second])
  }

  /** The four cases of `combine`, spelled out: concatenation, prepend, append, pair. */
  lemma CombineCases(a: ExecutorError, b: ExecutorError)
    ensures a.Multiple? && b.Multiple? ==> Combine(a, b) == Multiple(a.errors + b.errors)
    ensures !a.Multiple? && b.Multiple? ==> Combine(a, b) == Multiple([a] + b.errors)
    ensures a.Multiple? && !b.Multiple? ==> Combine(a, b) == Multiple(a.errors + [b])
    ensures !a.Multiple? && !b.Multiple? ==> Combine(a, b) == Multiple([a, b])
  {
  }

  /** Combining is associative on the errors it lists. */
  lemma CombineAssociative(a: ExecutorError, b: ExecutorError, c: ExecutorError)
    ensures Flat(Combine(Combine(a, b), c)) == Flat(Combine(a, Combine(b, c)))
  {
    assert (Flat(a) + Flat(b)) + Flat(c) == Flat(a) + (Flat(b) + Flat(c));
  }

  /** `ArcExecutorError::combine_opt`: with no earlier error the next one is kept as is;
      otherwise the errors of the earlier one come first. */
  function CombineOpt(existing: Option<ExecutorError>, next: ExecutorError): (r: ExecutorError)
    ensures existing.None? ==> r == next
    ensures existing.Some? ==> r.Multiple?
    ensures Flat(r) == FlatOpt(existing) + Flat(next)
  {
    match existing
    case Some(e) => Combine(e, next)
    case None => next
  }

  /** The sequential executor's accumulation: every failing work item's error is merged
      into the collected error with `combine_opt`, in order. */
  function Collect(acc: Option<ExecutorError>, outcomes: seq<Option<ExecutorError>>): (r: Option<ExecutorError>)
    ensures acc.Some? ==> r.Some?
    ensures FlatOpt(acc) <= FlatOpt(r)
    decreases |outcomes|
  {
    if outcomes == [] then acc
    else
      var last := outcomes[|outcomes| - 1];
      var before := Collect(acc, outcomes[..|outcomes| - 1]);
      if last.Some? then Some(CombineOpt(before, last.value)) else before
  }

  /** The errors of the flattened outcomes, in order. */
  function AllErrors(outcomes: seq<Option<ExecutorError>>): seq<ExecutorError>
  {
    if outcomes == [] then []
    else AllErrors(outcomes[..|outcomes| - 1]) + FlatOpt(outcomes[|outcomes| - 1])
  }

  /** Sequential collection fails exactly when some work item failed, and lists every error
      of every failing item, in order. */
  lemma CollectKeepsAll(outcomes: seq<Option<ExecutorError>>)
    ensures Collect(None, outcomes).Some? <==> exists i :: 0 <= i < |outcomes| && outcomes[i].Some?
    ensures FlatOpt(Collect(None, outcomes)) == AllErrors(outcomes)
  {
    CollectFails(outcomes);
    CollectFlat(outcomes);
  }

  /** Sequential collection fails exactly when some work item failed. */
  lemma {:induction false} CollectFails(outcomes: seq<Option<ExecutorError>>)
    ensures Collect(None, outcomes).Some? <==> exists i :: 0 <= i < |outcomes| && outcomes[i].Some?
  {
    if outcomes != [] {
      var n := |outcomes| - 1;
      var init := outcomes[..n];
      CollectFails(init);
      assert forall i :: 0 <= i < n ==> init[i] == outcomes[i];
      assert Collect(None, outcomes).Some? <==> Collect(None, init).Some? || outcomes[n].Some?;
    }
  }

  /** Sequential collection lists every error of every failing item, in order. */
  lemma {:induction false} CollectFlat(outcomes: seq<Option<ExecutorError>>)
    ensures FlatOpt(Collect(None, outcomes)) == AllErrors(outcomes)
  {
    if outcomes != [] {
      CollectFlat(outcomes[..|outcomes| - 1]);
    }
  }
}

/** `SolverInstance` (aoc-solver/src/instance.rs): a solver bound to its parsed input, which
    solves parts on demand, caches every answer by part number and hands each part's partial
    result to the part after it. The solver's own `solve_part` is a function parameter. */
module Instance {
  import opened Wrappers
  import opened MachineInts
  import opened SolverErrors
  import opened GrowableVec

  /** What a solver's `solve_part` returns on success: the answer and an optional partial
      result for the next part. */
  datatype PartResult<R> = PartResult(answer: string, partial: Option<R>)

  /** The partial result handed to `part`: the one stored for the part before it, if any. */
  function PreviousPartial<R>(partials: seq<Option<R>>, part: nat): (r: Option<R>)
    ensures part <= 1 || part - 2 >= |partials| ==> r == None
    ensures part > 1 && part - 2 < |partials| ==> r == partials[part - 2]
  {
    if part > 1 && part - 2 < |partials| then partials[part - 2] else None
  }

  /** Storing `value` for the part at `index`: the vector grows with empty slots as needed
      and only that slot changes. */
  function StoreAt<T>(v: seq<Option<T>>, index: nat, value: Option<T>): (r: seq<Option<T>>)
    ensures |r| == if index < |v| then |v| else index + 1
    ensures r[index] == value
    ensures forall j :: 0 <= j < |v| && j != index ==> r[j] == v[j]
    ensures forall j :: |v| <= j < |r| && j != index ==> r[j] == None
  {
    EnsureLen(v, index)[index := value]
  }

  /** What part 1 stores is exactly what part 2 is handed next. */
  lemma HandOff<R>(partials: seq<Option<R>>, part: nat, partial: Option<R>)
    requires part >= 1
    ensures PreviousPartial(StoreAt(partials, part - 1, partial), part + 1) == partial
  {
  }

  /** Solving a part leaves every other part's cached answer where it was. */
  lemma StoreKeepsOthers<T>(v: seq<Option<T>>, index: nat, value: Option<T>, j: nat)
    requires j != index
    ensures (if j < |StoreAt(v, index, value)| then StoreAt(v, index, value)[j] else None) ==
            (if j < |v| then v[j] else None)
  {
  }

  class SolverInstance<P, R> {
    const year: u32
    const day: u32
    const parsed: P
    /** `S::solve_part`. */
    const solvePart: (P, nat, Option<R>) -> Result<PartResult<R>, SolveError>
    var results: seq<Option<string>>
    var partialResults: seq<Option<R>>

    /** `SolverInstance::new`: nothing solved yet. */
    constructor (year: u32, day: u32, parsed: P, solvePart: (P, nat, Option<R>) -> Result<PartResult<R>, SolveError>)
      ensures this.year == year && this.day == day && this.parsed == parsed && this.solvePart == solvePart
      ensures results == [] && partialResults == []
    {
      this.year := year;
      this.day := day;
      this.parsed := parsed;
      this.solvePart := solvePart;
      results := [];
      partialResults := [];
    }

    /** `solve`: the part is solved again, with the partial result the part before it left.
        A failure is returned as is and changes nothing; an answer is cached in slot
        `part - 1` together with its partial result. A part 0 that the solver accepts would
        underflow `part - 1`, so the solver must reject it. */
    method Solve(part: nat) returns (r: Result<string, SolveError>)
      requires part >= 1 || solvePart(parsed, part, None).Err?
      modifies this
      ensures var out := solvePart(parsed, part, PreviousPartial(old(partialResults), part));
              && (out.Err? ==> r == Err(out.error) && results == old(results) && partialResults == old(partialResults))
              && (out.Ok? ==> r == Ok(out.value.answer)
                              && results == StoreAt(old(results), part - 1, Some(out.value.answer))
                              && partialResults == StoreAt(old(partialResults), part - 1, out.value.partial))
    {
      var previous := PreviousPartial(partialResults, part);
      var result := solvePart(parsed, part, previous);
      if result.Err? {
        return Err(result.error);
      }
      var index := part - 1;
      if index >= |results| {
        results := EnsureLen(results, index);
      }
      if index >= |partialResults| {
        partialResults := EnsureLen(partialResults, index);
      }
      results := results[index := Some(result.value.answer)];
      partialResults := partialResults[index := result.value.partial];
      r := Ok(result.value.answer);
    }
  }

  /** A two-part solver: part 1 counts the input and passes the count on, part 2 doubles
      the count it is handed and fails without it. */
  function CountThenDouble(input: seq<int>, part: nat, previous: Option<int>): Result<PartResult<int>, SolveError>
  {
    if part == 1 then Ok(PartResult("one", Some(|input|)))
    else if part == 2 then
      (if previous.Some? then Ok(PartResult(if previous.value * 2 == 6 then "six" else "other", None))
       else Err(SolveFailed("part 1 first")))
    else Err(PartOutOfRange(if part < 256 then part else 255))
  }

  /** Part 2 before part 1 fails for want of a partial result and caches nothing; once
      part 1 has run, part 2 sees its partial result, and both answers stay cached. */
  method SolveBothParts() returns (early: Result<string, SolveError>, one: Result<string, SolveError>,
                                   two: Result<string, SolveError>, results: seq<Option<string>>)
    ensures early == Err(SolveFailed("part 1 first"))
    ensures one == Ok("one") && two == Ok("six")
    ensures results == [Some("one"), Some("six")]
  {
    var instance := new SolverInstance(2023, 1, [1, 2, 3], CountThenDouble);
    early := instance.Solve(2);
    assert instance.results == [];
    one := instance.Solve(1);
    assert instance.partialResults == [Some(3)];
    two := instance.Solve(2);
    results := instance.results;
  }
}

# my-aoc-kit core, modelled in Dafny

This project models the core of an Advent of Code toolkit written in Rust. The toolkit has several parts.

- **A dynamic-programming cache.** A `Problem` names, for each key, the keys it depends on and how to compute its value from theirs. `DpCache::get` resolves the dependencies depth-first and computes every key at most once. It stores each value in a backend: a growable vector indexed by `usize` or a hash map. A backend can refuse a key, and that error reaches the caller of `get`.
- **The solver registry.** Solver factories live in a flat table of 20 years × 25 days, starting in 2015. A year/day pair maps to one slot and back, registering the same pair twice is refused, and iteration visits the entries in year/day order. The older map-based `RegistryBuilder`/`SolverRegistry` pair is modelled too.
- **`SolverInstance`.** It solves one part at a time, hands each part the partial result of the part before it, and caches answers and partial results in vectors that grow on demand.
- **The CLI's executor helpers.** These cover:
  - choosing work items from the registry with the year/day/part filters;
  - combining `ExecutorError`s into one `Multiple` error;
  - the parallel error reduction;
  - the reorder buffer that puts one solver's part results back in order.
- **The CLI's `ResultAggregator`.** It buffers results that arrive out of order in a min-heap and releases them in ascending (year, day, part) order, and only once all earlier expected keys have been released.
- **2025 day 1.**
  - A safe dial with positions 0..99 starts at 50.
  - Each input line `L<n>` or `R<n>` turns it left or right.
  - Part 1 counts the rotations that end on 0.
  - Part 2 counts every click that lands on 0.
  - Parsing follows Rust's `str::trim`, `str::lines` and `i16::from_str`, including their error messages.
- **The HTTP response parser.** It extracts the anonymous user id from a settings page. It also classifies the `<main>` text of an answer-submission response as incorrect, already completed, throttled (with an optional wait time) or correct, in that priority order.

Each file holds one module:

- `wrappers.dfy`: `Option` and `Result`.
- `machine_ints.dfy`: the Rust integer widths the source uses.
- `growable_vec.dfy`: `Vec::resize_with(_, || None)`.
- `solver_errors.dfy`: the solver crate's error enums.
- `dp_problem.dfy`: problems, their specification, and the resolution order with errors.
- `dp_backend.dfy` and `dp_cache.dfy`: the cache itself.
- `registry.dfy`: both registries.
- `instance.dfy`: `SolverInstance`.
- `cli_error.dfy`, `executor.dfy` and `aggregator.dfy`: the CLI pieces.
- `rust_text.dfy`: the Rust standard-library string functions.
- `day1.dfy`: 2025 day 1.
- `response_parser.dfy`: the HTTP response parser.

Objects that the source mutates are modelled as classes:

- the backends;
- `DpCache`;
- the registry builders;
- `SolverInstance`;
- `ResultAggregator`;
- day 1's `SharedData`.

Loops become methods with invariants, proved against functions that specify them. Pure code becomes functions and lemmas.

Two things are passed in as parameters:

- the user's closures: a problem's `deps` and `compute`, a solver's `solve_part`, a factory's `invoke`;
- humantime's `parse_duration`.

A backend's refusal is modelled as a predicate `admits` over keys. `DpCache.DpCache.Get` is proved against a recursive ghost specification `DpProblem.Resolve`. That specification agrees with the plain recursive definition `DpProblem.Spec` whenever every key is admitted.

## Model

| member | source | states |
|---|---|---|
| GrowableVec.EnsureLen | aoc-solver/src/instance.rs:116-122 | growing to cover an index keeps the old prefix, pads with `None`, and never shrinks |
| GrowableVec.EnsureLenIdempotent | aoc-solver/src/instance.rs:116-122 | growing twice to the same index is the same as growing once |
| DpBackend.FillSlot | aoc-solutions/src/utils/dp_cache/backend.rs:18-31 | a filled slot keeps its value; an empty one takes the computed value |
| DpBackend.VecInsert | aoc-solutions/src/utils/dp_cache/backend.rs:64-72 | after get-or-insert the index is covered and holds the old value if there was one, else the new one; every other index reads as before |
| DpBackend.VecInsertKeepsFilled | aoc-solutions/src/utils/dp_cache/backend.rs:18-31 | a get-or-insert never overwrites a filled slot |
| DpBackend.VecBackend.constructor | aoc-solutions/src/utils/dp_cache/backend.rs:43-47 | a new vector backend is empty |
| DpBackend.VecBackend.WithCapacity | aoc-solutions/src/utils/dp_cache/backend.rs:49-55 | a pre-allocated vector backend is still empty |
| DpBackend.VecBackend.Slot | aoc-solutions/src/utils/dp_cache/backend.rs:64-66 | reading a covered index returns that slot |
| DpBackend.VecBackend.Lookup | aoc-solutions/src/utils/dp_cache/cache.rs:110 | a value is present iff the index is covered and its slot is filled |
| DpBackend.VecBackend.EnsureIndex | aoc-solutions/src/utils/dp_cache/backend.rs:68-72 | the vector is resized with `None` to cover the index, keeping its contents |
| DpBackend.VecBackend.SetSlot | aoc-solutions/src/utils/dp_cache/tests.rs:104-125 | writing an empty slot succeeds; writing a filled slot is refused with the value handed back and nothing changes |
| DpBackend.VecBackend.GetOrInsert | aoc-solutions/src/utils/dp_cache/cache.rs:120-122 | the closure runs iff the slot was empty; the result is the stored value; the new contents are `VecInsert` of the old |
| DpBackend.MapEnsure | aoc-solutions/src/utils/dp_cache/backend.rs:105-107 | the key is added with `None` if missing; the existing entries are unchanged |
| DpBackend.MapInsert | aoc-solutions/src/utils/dp_cache/backend.rs:101-107 | the key holds the old value if there was one, else the new one; other keys are unchanged |
| DpBackend.HashMapBackend.constructor | aoc-solutions/src/utils/dp_cache/backend.rs:85-92 | a new map backend is empty |
| DpBackend.HashMapBackend.Slot | aoc-solutions/src/utils/dp_cache/backend.rs:101-103 | reading a present key returns its slot |
| DpBackend.HashMapBackend.Lookup | aoc-solutions/src/utils/dp_cache/cache.rs:110 | a value is present iff the key is in the map with a filled slot |
| DpBackend.HashMapBackend.EnsureIndex | aoc-solutions/src/utils/dp_cache/backend.rs:105-107 | `entry(key).or_insert(None)` |
| DpBackend.HashMapBackend.SetSlot | aoc-solutions/src/utils/dp_cache/tests.rs:128-149 | first write wins; a second write is refused and changes nothing |
| DpBackend.HashMapBackend.GetOrInsert | aoc-solutions/src/utils/dp_cache/cache.rs:120-122 | the closure runs iff the key had no value; the result is the stored value |
| DpBackend.VecMapInsertAgree | aoc-solutions/src/utils/dp_cache/backend.rs:63-107 | a vector and a map that agree on every index still agree after the same get-or-insert, so the two backends store the same values |
| DpBackend.VecBackendFirstWriteWins | aoc-solutions/src/utils/dp_cache/tests.rs:104-125 | the vector backend keeps 42 against a later 100, reports a missing index as `None`, and grows for a larger index |
| DpBackend.HashMapBackendFirstWriteWins | aoc-solutions/src/utils/dp_cache/tests.rs:128-149 | the map backend keeps the first value written, and other keys are independent |
| DpProblem.ResolveAllOk | aoc-solutions/src/utils/dp_cache/cache.rs:108-124 | resolving a dependency list succeeds iff every dependency resolves, and the values come in dependency order |
| DpProblem.ResolveAllErr | aoc-solutions/src/utils/dp_cache/cache.rs:102-103 | a failed list reports the error of the first dependency that fails; all earlier ones succeed |
| DpProblem.ResolveAllSnoc | aoc-solutions/src/utils/dp_cache/cache.rs:108-124 | dependencies are resolved left to right, stopping at the first error |
| DpProblem.ResolveIsSpec | aoc-solutions/src/utils/dp_cache/problem.rs:36-47 | when the backend admits every key, memoised resolution equals the plain recursive definition |
| DpProblem.ReachOfDep | aoc-solutions/src/utils/dp_cache/cache.rs:22-26 | a dependency's reachable keys are among its parent's |
| DpProblem.FibonacciSpec | aoc-solutions/src/utils/dp_cache/tests.rs:37-52 | the cached Fibonacci problem is well founded and computes the Fibonacci numbers |
| DpProblem.FibTable | aoc-solutions/src/utils/dp_cache/tests.rs:37-52 | fib(10) = 55 and fib(20) = 6765 |
| DpProblem.FibonacciValues | aoc-solutions/src/utils/dp_cache/tests.rs:37-52 | the cached problem gives 55 and 6765 |
| DpProblem.FactorialValue | aoc-solutions/src/utils/dp_cache/tests.rs:375-385 | the factorial problem gives 120 for 5 |
| DpProblem.DiamondFacts | aoc-solutions/src/utils/dp_cache/tests.rs:55-101 | the diamond problem gives A = 50 and reaches exactly the keys A, B, C, D |
| DpCache.Builder.WithBackend | aoc-solutions/src/utils/dp_cache/cache.rs:201-204 | sets the backend and keeps the problem |
| DpCache.Builder.WithProblem | aoc-solutions/src/utils/dp_cache/cache.rs:207-210 | sets the problem and keeps the backend |
| DpCache.NewBuilder | aoc-solutions/src/utils/dp_cache/cache.rs:177-181 | a new builder has neither backend nor problem |
| DpCache.KeepsTrans | aoc-solutions/src/utils/dp_cache/cache.rs:108-124 | "values are never overwritten" composes across calls, and the added keys accumulate |
| DpCache.DpCache.NewConst | aoc-solutions/src/utils/dp_cache/cache.rs:254-260 | a cache over an empty backend satisfies the cache invariant and has computed nothing |
| DpCache.DpCache.Build | aoc-solutions/src/utils/dp_cache/cache.rs:217-223 | building from a builder that has both parts gives the same cache as `new` |
| DpCache.DpCache.Get | aoc-solutions/src/utils/dp_cache/cache.rs:108-124 | the result is the specified resolution; a success leaves the key stored; stored values never change; only keys reachable from the requested one are added; each key is computed at most once; a stored key is returned without any computation |
| DpCache.DpCache.ResolveDeps | aoc-solutions/src/utils/dp_cache/cache.rs:108-124 | all dependencies are resolved in order and stored on success, with the same frame guarantees as `Get` |
| DpCache.DpCache.StoreKeepsValid | aoc-solutions/src/utils/dp_cache/cache.rs:118-123 | storing the computed value keeps the cache sound, closed under dependencies, and counting each key once |
| DpCache.DpCache.ReachStored | aoc-solutions/src/utils/dp_cache/cache.rs:22-26 | once a key is stored, every key it transitively depends on is stored too |
| DpCache.ResolveAllStopsAtError | aoc-solutions/src/utils/dp_cache/cache.rs:108-124 | after the first failed dependency, the rest are never resolved |
| DpCache.DiamondComputedOnce | aoc-solutions/src/utils/dp_cache/tests.rs:55-101 | in the diamond, A = 50; each of A, B, C, D is computed exactly once; the second `get(A)` returns 50 again |
| DpCache.NewDiamondCache | aoc-solutions/src/utils/dp_cache/tests.rs:55-101 | a fresh cache over the diamond problem |
| DpCache.DiamondStoredKeys | aoc-solutions/src/utils/dp_cache/tests.rs:55-101 | after `get(A)` exactly the four diamond keys are stored |
| DpCache.CountedKeys | aoc-solutions/src/utils/dp_cache/cache.rs:108-124 | the keys that were computed are exactly the keys that were added, each once |
| DpCache.FibonacciThroughCache | aoc-solutions/src/utils/dp_cache/tests.rs:37-52 | `get(10)` = 55 and `get(20)` = 6765 through the cache |
| DpCache.FactorialBounded | aoc-solutions/src/utils/dp_cache/cache.rs:102-103 | with a backend of fixed capacity, factorial succeeds below the capacity and otherwise reports the capacity as the refused key |
| Registry.CalcIndex | aoc-solver/src/registry.rs:22-32 | out of range iff the year is outside 2015..2034 or the day is outside 1..25; otherwise the slot is below capacity and maps back to the same year/day |
| Registry.DivModSlot | aoc-solver/src/registry.rs:36-40 | the slot arithmetic splits back into year offset and day offset |
| Registry.FromIndex | aoc-solver/src/registry.rs:36-40 | the day of any slot is 1..25 |
| Registry.IndexRoundTrip | aoc-solver/src/registry.rs:22-40 | every slot maps to a year/day that maps back to it |
| Registry.CalcIndexInjective | aoc-solver/src/registry.rs:22-32 | two valid year/day pairs share a slot only if they are equal |
| Registry.InfoAtOrdered | aoc-solver/src/registry.rs:486-497 | a lower slot comes earlier in year/day order |
| Registry.Count | aoc-solver/src/registry.rs:533-535 | the number of registered entries is at most the table size, and zero iff no slot is filled |
| Registry.CountFill | aoc-solver/src/registry.rs:559-583 | filling an empty slot adds one to the count |
| Registry.InfosLength | aoc-solver/src/registry.rs:486-497 | iteration yields one item per registered entry |
| Registry.SlotOfInfoAt | aoc-solver/src/registry.rs:22-40 | an item's year/day gives back its slot |
| Registry.InfosSound | aoc-solver/src/registry.rs:486-497 | every item iterated comes from a filled slot and describes that slot |
| Registry.InfosOrdered | aoc-solver/src/registry.rs:486-497 | iteration is strictly ascending by (year, day) |
| Registry.InfosComplete | aoc-solver/src/registry.rs:486-497 | every filled slot is iterated |
| Registry.Storage.GetInfo | aoc-solver/src/registry.rs:500-508 | metadata is returned iff the year/day is valid and registered, with that year, day and part count |
| Registry.Storage.Contains | aoc-solver/src/registry.rs:511-513 | true iff the year/day is valid and registered |
| Registry.Storage.Len | aoc-solver/src/registry.rs:533-535 | the entry count is bounded by the table |
| Registry.Storage.IsEmpty | aoc-solver/src/registry.rs:538-540 | empty iff the length is zero |
| Registry.Storage.IterInfo | aoc-solver/src/registry.rs:486-497 | `iter_info` yields `len()` items in strictly ascending year/day order |
| Registry.Storage.IterInfoSound | aoc-solver/src/registry.rs:486-497 | every iterated item is what `get_info` returns for its year/day |
| Registry.Storage.IterInfoComplete | aoc-solver/src/registry.rs:486-497 | everything `get_info` returns is iterated |
| Registry.SolverFactoryRegistry.CreateSolver | aoc-solver/src/registry.rs:659-675 | an invalid year/day iff `InvalidYearDay`; a valid but unregistered one iff `NotFound`; otherwise the factory's result, with a parse failure wrapped as `Parse` |
| Registry.FactoryRegistryBuilder.constructor | aoc-solver/src/registry.rs:550-554 | all 500 slots are empty |
| Registry.FactoryRegistryBuilder.RegisterFactory | aoc-solver/src/registry.rs:559-583 | an invalid year/day or an occupied slot is refused with its error and nothing changes; otherwise exactly that slot is filled; the builder is consumed iff the call fails, since the source drops it with the error |
| Registry.FactoryRegistryBuilder.Build | aoc-solver/src/registry.rs:632-638 | the registry holds the builder's table, and the builder is consumed |
| Registry.RegisterThenGetInfo | aoc-solver/src/registry.rs:559-583 | after registering, `get_info` and `contains` see the entry, `len` grows by one, and every other year/day reads as before |
| Registry.RegisterFactoryScenario | aoc-solver/src/registry.rs:559-583 | registering 2023/1 succeeds and builds a registry of one entry; on a fresh builder, repeating it is `DuplicateFactory` and consumes the builder; 2014/1 and 2023/26 are `InvalidYearDay` |
| Registry.SolverRegistry.CreateSolver | aoc-solver/src/registry.rs:236-248 | `NotFound` iff nothing is registered for the year/day; otherwise the factory's result with parse errors wrapped |
| Registry.RegistryBuilder.constructor | aoc-solver/src/registry.rs:94-98 | the builder starts empty |
| Registry.RegistryBuilder.Register | aoc-solver/src/registry.rs:112-121 | a duplicate is refused with the map unchanged and the builder consumed; otherwise exactly that pair is added |
| Registry.RegistryBuilder.Build | aoc-solver/src/registry.rs:195-199 | the registry holds the builder's map, and the builder is consumed |
| Instance.PreviousPartial | aoc-solver/src/instance.rs:104-110 | part 1 gets nothing; part n > 1 gets the partial stored for part n − 1, if any |
| Instance.StoreAt | aoc-solver/src/instance.rs:116-126 | the vector grows with `None` to cover the index, holds the value there, and is unchanged elsewhere |
| Instance.HandOff | aoc-solver/src/instance.rs:104-126 | the partial that part n stores is exactly what part n + 1 receives |
| Instance.StoreKeepsOthers | aoc-solver/src/instance.rs:116-126 | storing one part's result never changes another part's |
| Instance.SolverInstance.constructor | aoc-solver/src/instance.rs:27-35 | a new instance has no cached answers or partials |
| Instance.SolveBothParts | aoc-solver/src/instance.rs:102-129 | solving part 2 first fails, then part 1 and part 2 answer in turn, part 2 seeing part 1's partial, and both answers are cached |
| Instance.SolverInstance.Solve | aoc-solver/src/instance.rs:102-129 | on error the caches are unchanged and the error is returned; on success the answer is returned and cached at index part − 1, with its partial beside it |
| CliError.Combine | aoc-cli/src/error.rs:82-106 | the result is always `Multiple`, and its flattened errors are the first's followed by the second's |
| CliError.CombineCases | aoc-cli/src/error.rs:82-106 | the four cases of `combine`: nested `Multiple`s are spliced, not nested |
| CliError.CombineAssociative | aoc-cli/src/error.rs:82-106 | combining is associative up to flattening |
| CliError.CombineOpt | aoc-cli/src/error.rs:109-117 | with nothing accumulated the new error stands alone; otherwise it is appended to a `Multiple` |
| CliError.Collect | aoc-cli/src/executor.rs:134-140 | the sequential loop's accumulator: once an error is collected it stays, and every error collected so far is kept |
| CliError.CollectKeepsAll | aoc-cli/src/executor.rs:186-195 | the fold over work items reports an error iff some item failed, and keeps every error in order |
| CliError.CollectFails | aoc-cli/src/executor.rs:186-195 | the fold over work items reports an error iff some item failed |
| CliError.CollectFlat | aoc-cli/src/executor.rs:186-195 | the reported error lists every error of every failing item, in order |
| Executor.FilterParts | aoc-cli/src/executor.rs:119-125 | a filter within range selects exactly that part, one beyond it selects nothing, and no filter selects 1..=max |
| Executor.CollectWorkItems | aoc-cli/src/executor.rs:101-115 | every item comes from registry metadata matching the year/day filters and has some part; every such entry with a non-empty part range appears |
| Executor.WorkItemsOrdered | aoc-cli/src/executor.rs:101-115 | work items inherit the registry's strict year/day order |
| Executor.ReduceErrors | aoc-cli/src/executor.rs:170-172 | as written: a missing left error yields no error; a present one is combined after the right |
| Executor.ReduceErrorsDropsRightError | aoc-cli/src/executor.rs:170-172 | the as-written reduction loses a right-hand error that the corrected one keeps |
| Executor.ReduceKeepingErrors | aoc-cli/src/executor.rs:170-172 | there is an error iff either side has one, and no error is lost or duplicated |
| Executor.Reduce | aoc-cli/src/executor.rs:167-172 | over any reduction tree, the corrected reduction fails iff some work item failed and keeps exactly all their errors |
| Executor.AnyFailedAppend | aoc-cli/src/executor.rs:167-172 | a concatenation fails iff either half does |
| Executor.AllErrorsAppend | aoc-cli/src/executor.rs:134-140 | the errors of a concatenation are the errors of the halves, in order |
| Executor.ReorderParts | aoc-cli/src/executor.rs:302-320 | the emitted results are consecutive parts starting at the first part, all taken from the arrivals; their number is `Released`: as many as arrived without a gap, but at most two, since the buffer has two slots; the `u8` part counter must not pass 255 |
| Executor.StoreKeepsBuffered | aoc-cli/src/executor.rs:302-320 | buffering an arrival keeps the reorder invariant |
| Executor.NotYetEmitted | aoc-cli/src/executor.rs:302-320 | an arriving part was not already emitted |
| Executor.EmitKeepsBuffered | aoc-cli/src/executor.rs:302-320 | emitting the next buffered part keeps the invariant |
| Executor.ReleasedAtRest | aoc-cli/src/executor.rs:302-320 | when the next slot is empty, everything that can be released has been |
| Executor.ArrivedSnoc | aoc-cli/src/executor.rs:302-320 | a part has arrived iff it did before or is the new arrival |
| Executor.ReorderTwoParts | aoc-cli/src/executor.rs:302-320 | parts 1 and 2 are emitted in order, and an unexpected part 3 is dropped |
| Aggregator.KeyLe | aoc-cli/src/aggregator.rs:10-16 | the derived order on (year, day, part): reflexive and led by the year |
| Aggregator.KeyLeTotalOrder | aoc-cli/src/aggregator.rs:10-16 | the derived key order is reflexive, antisymmetric, transitive and total |
| Aggregator.KeyOf | aoc-cli/src/aggregator.rs:18-26 | a result's key carries its year, day and part |
| Aggregator.Keys | aoc-cli/src/aggregator.rs:19-27 | one key per result |
| Aggregator.KeysAppend | aoc-cli/src/aggregator.rs:19-27 | keys distribute over concatenation |
| Aggregator.InsertBy | aoc-cli/src/aggregator.rs:71-87 | pushing onto the heap adds exactly that element and keeps the order |
| Aggregator.SortedByKeyOf | aoc-cli/src/aggregator.rs:12-17 | sorted by key is sorted by (year, day, part) |
| Aggregator.SortedByKeyId | aoc-cli/src/aggregator.rs:12-17 | the same for bare keys |
| Aggregator.InsertLast | aoc-cli/src/aggregator.rs:71-87 | an element no smaller than all others goes last |
| Aggregator.ResultAggregator.constructor | aoc-cli/src/aggregator.rs:63-68 | the expected keys are the given ones, sorted; nothing is pending or released |
| Aggregator.ResultAggregator.Add | aoc-cli/src/aggregator.rs:71-87 | the released results are a prefix of the heap whose keys are the next expected keys; emission stops at the first mismatch; the rest stay pending |
| Aggregator.ResultAggregator.Drain | aoc-cli/src/aggregator.rs:90-94 | returns all pending results in sorted order and empties the heap |
| Aggregator.ResultAggregator.IsComplete | aoc-cli/src/aggregator.rs:97-99 | complete iff every expected key has been released |
| Aggregator.Emit | aoc-cli/src/aggregator.rs:76-84 | splits the heap into a released prefix matching the expected keys, then stops at the first mismatch |
| Aggregator.EmitUnique | aoc-cli/src/aggregator.rs:76-84 | that split is the only one with those properties |
| Aggregator.ReleaseReady | aoc-cli/src/aggregator.rs:76-84 | the release loop computes `Emit` and keeps the aggregator consistent |
| Aggregator.PopKeepsOrder | aoc-cli/src/aggregator.rs:76-84 | moving the next expected key to the released list keeps both sorted |
| Aggregator.ReleaseStep | aoc-cli/src/aggregator.rs:76-84 | one loop step keeps the split |
| Aggregator.ReleasedStep | aoc-cli/src/aggregator.rs:76-84 | one loop step extends the released keys |
| Aggregator.ReleaseKeeps | aoc-cli/src/aggregator.rs:76-84 | one round of the release loop keeps consistency, the split of the heap and the released keys |
| Aggregator.EmitHead | aoc-cli/src/aggregator.rs:76-84 | when the heap's top is the next expected key, it is released and the loop goes on with the rest |
| Aggregator.EmitWaits | aoc-cli/src/aggregator.rs:76-84 | when the heap's top is not the next expected key, nothing is released |
| Aggregator.PendingBelowBlocks | aoc-cli/src/aggregator.rs:76-84 | a pending result whose key lies below the next expected key sits at the top of the heap and blocks every release, whatever else arrives |
| Aggregator.PushAll | aoc-cli/src/aggregator.rs:71-72 | pushing a run of results adds exactly those results to the heap |
| Aggregator.BlockedForever | aoc-cli/src/aggregator.rs:76-84 | once such a result is pending, no sequence of later arrivals releases anything |
| Aggregator.InOrderResults | aoc-cli/src/aggregator.rs:121-147 | in-order arrivals are released one by one |
| Aggregator.OutOfOrderWaits | aoc-cli/src/aggregator.rs:149-186 | later keys wait while an earlier key is missing |
| Aggregator.OutOfOrderReleases | aoc-cli/src/aggregator.rs:149-186 | the missing key's arrival releases everything in order |
| Aggregator.PushSmallest | aoc-cli/src/aggregator.rs:149-186 | the smallest key goes to the front of the heap |
| Aggregator.ReleasesRest | aoc-cli/src/aggregator.rs:149-186 | a run of consecutive expected keys is released together |
| Aggregator.DrainRemaining | aoc-cli/src/aggregator.rs:188-211 | a result held back by a missing key is left for `drain` |
| RustText.IsWhitespace | aoc-solutions/src/my_solutions/year_2025/day_1.rs:27 | the ASCII whitespace characters are whitespace; digits, signs and the direction letters are not |
| RustText.TrimStart | aoc-solutions/src/my_solutions/year_2025/day_1.rs:27 | drops exactly the leading Unicode whitespace |
| RustText.TrimEnd | aoc-solutions/src/my_solutions/year_2025/day_1.rs:27 | drops exactly the trailing Unicode whitespace |
| RustText.Trim | aoc-solutions/src/my_solutions/year_2025/day_1.rs:27 | both ends are non-whitespace, and the result is empty iff the input is all whitespace |
| RustText.FindNewline | aoc-solutions/src/my_solutions/year_2025/day_1.rs:28 | the first line feed, or none |
| RustText.StripCarriageReturn | aoc-solutions/src/my_solutions/year_2025/day_1.rs:28 | removes at most one final '\r' |
| RustText.Lines | aoc-solutions/src/my_solutions/year_2025/day_1.rs:28 | no line contains a line feed, and there are no lines iff the text is empty |
| RustText.LinesOfJoined | aoc-solutions/src/my_solutions/year_2025/day_1.rs:28 | splitting newline-terminated lines gives those lines back |
| RustText.DigitValue | aoc-solutions/src/my_solutions/year_2025/day_1.rs:36 | a digit's value is below ten |
| RustText.DigitChar | aoc-solutions/src/my_solutions/year_2025/day_1.rs:36 | the digit character of a value reads back as that value |
| RustText.Decimal | aoc-solutions/src/my_solutions/year_2025/day_1.rs:48 | `to_string` gives at least one digit and no leading zero except for 0 |
| RustText.DecimalValue | aoc-solutions/src/my_solutions/year_2025/day_1.rs:48 | reading the decimal digits back gives the number |
| RustText.AccumulateDigits | aoc-solutions/src/my_solutions/year_2025/day_1.rs:36 | succeeds iff all digits and the signed value fits i16, with that value; all digits but out of range is the overflow in the sign's direction; otherwise an invalid digit |
| RustText.IntErrorMessage | aoc-solutions/src/my_solutions/year_2025/day_1.rs:36 | every `IntErrorKind` has a non-empty message |
| RustText.IntErrorMessageDistinct | aoc-solutions/src/my_solutions/year_2025/day_1.rs:36 | different kinds have different messages |
| RustText.ParseI16 | aoc-solutions/src/my_solutions/year_2025/day_1.rs:36 | empty input gives the empty-string error; a success starts with a sign or a digit |
| RustText.ParseI16Unsigned | aoc-solutions/src/my_solutions/year_2025/day_1.rs:36 | bare digits parse to their value up to 32767 and are the too-large error above |
| RustText.ParseI16Plus | aoc-solutions/src/my_solutions/year_2025/day_1.rs:36 | a leading '+' before digits changes nothing |
| RustText.ParseI16Minus | aoc-solutions/src/my_solutions/year_2025/day_1.rs:36 | digits after '-' parse to their negated value down to −32768 and are the too-small error below |
| RustText.AccumulateNegated | aoc-solutions/src/my_solutions/year_2025/day_1.rs:36 | the digit loop after '-' gives the negated value down to −32768, and the negative overflow below |
| RustText.ParseI16Decimal | aoc-solutions/src/my_solutions/year_2025/day_1.rs:36 | the decimal digits of every magnitude parse back, bare or after '+', up to 32767, after '-' down to −32768, and overflow beyond, in the sign's direction |
| RustText.ParseI16Overflow | aoc-solutions/src/my_solutions/year_2025/day_1.rs:36 | 32768 is too large, −32768 fits, −32769 is too small |
| Day1.ParseRotation | aoc-solutions/src/my_solutions/year_2025/day_1.rs:30-46 | a line not starting with 'L' or 'R' is that error, and only it is; a success lies in ±32767, negative only for 'L' and positive only for 'R' |
| Day1.FormatThenParse | aoc-solutions/src/my_solutions/year_2025/day_1.rs:30-46 | every rotation in ±32767 written as `L<n>`/`R<n>` parses back |
| Day1.ParseRotationErrors | aoc-solutions/src/my_solutions/year_2025/day_1.rs:30-46 | "L-5" is the negative-rotation error, "X5" and "" the direction error, and "R" the empty-integer error |
| Day1.TryFoldLinesOk | aoc-solutions/src/my_solutions/year_2025/day_1.rs:47-54 | for any line parser, the numbered fold succeeds iff every line parses, with the lines' values in order |
| Day1.TryFoldLinesFirstError | aoc-solutions/src/my_solutions/year_2025/day_1.rs:47-54 | for any line parser, a failure carries the 1-based number and the message of the first line that fails |
| Day1.ParseLinesOk | aoc-solutions/src/my_solutions/year_2025/day_1.rs:47-54 | parsing succeeds iff every line parses, giving their values in order |
| Day1.ParseLinesFirstError | aoc-solutions/src/my_solutions/year_2025/day_1.rs:47-54 | the error names the 1-based number of the first bad line and its message |
| Day1.ParseInput | aoc-solutions/src/my_solutions/year_2025/day_1.rs:26-60 | trimming, splitting and parsing the input agrees with the specification |
| Day1.ParseAllLines | aoc-solutions/src/my_solutions/year_2025/day_1.rs:47-54 | the loop with early exit computes the line-by-line specification |
| Day1.ParseLinesPrefixError | aoc-solutions/src/my_solutions/year_2025/day_1.rs:47-54 | once a prefix fails, the whole input fails with the same error |
| Day1.Parse | aoc-solutions/src/my_solutions/year_2025/day_1.rs:26-60 | fails iff the specification fails, with its error; otherwise a fresh shared state holding the parsed rotations and no cached result |
| Day1.TruncDiv | aoc-solutions/src/my_solutions/year_2025/day_1.rs:84 | Rust's integer division, rounding toward zero |
| Day1.TruncRem | aoc-solutions/src/my_solutions/year_2025/day_1.rs:85 | Rust's `%`: the remainder lies strictly between −100 and 100 |
| Day1.TruncDivRem | aoc-solutions/src/my_solutions/year_2025/day_1.rs:84-85 | the truncated quotient and remainder rebuild the sum, and the remainder has the sum's sign |
| Day1.ClicksRight | aoc-solutions/src/my_solutions/year_2025/day_1.rs:81-84 | turning right from 0..99 points at 0 once per hundred reached |
| Day1.ClicksLeft | aoc-solutions/src/my_solutions/year_2025/day_1.rs:81-84 | turning left from 0..99 points at 0 on reaching 0 (unless starting there) and once per further hundred |
| Day1.Settle | aoc-solutions/src/my_solutions/year_2025/day_1.rs:85-91 | the settled dial is in 0..99, neither counter decreases, and the part 1 counter grows by one iff the dial ends at 0 |
| Day1.SettleDial | aoc-solutions/src/my_solutions/year_2025/day_1.rs:85-88 | the settled dial is the pre-settlement sum mod 100, whatever its sign |
| Day1.Step | aoc-solutions/src/my_solutions/year_2025/day_1.rs:80-91 | after each rotation the dial is (dial + rotation) mod 100 |
| Day1.Fold | aoc-solutions/src/my_solutions/year_2025/day_1.rs:78-93 | the dial stays in 0..99 over the whole input |
| Day1.FoldDial | aoc-solutions/src/my_solutions/year_2025/day_1.rs:78-93 | the final dial is (50 + sum of rotations) mod 100, in 0..99 |
| Day1.ModAdd | aoc-solutions/src/my_solutions/year_2025/day_1.rs:85-88 | reducing mod 100 before adding changes nothing |
| Day1.FoldZeroCounts | aoc-solutions/src/my_solutions/year_2025/day_1.rs:89-91 | part 1 counts exactly the rotations that end at 0 |
| Day1.DivStep | aoc-solutions/src/my_solutions/year_2025/day_1.rs:84 | one more click crosses a hundred exactly when it lands on a multiple of 100 |
| Day1.ModNeg | aoc-solutions/src/my_solutions/year_2025/day_1.rs:85-88 | negating keeps divisibility by 100 |
| Day1.StepCountsClicks | aoc-solutions/src/my_solutions/year_2025/day_1.rs:81-84 | the crossing test plus \|sum / 100\| is exactly the number of clicks that land on 0 during the rotation |
| Day1.FoldPassZeroCounts | aoc-solutions/src/my_solutions/year_2025/day_1.rs:78-93 | part 2 counts every click that lands on 0 over the whole input |
| Day1.FoldMonotone | aoc-solutions/src/my_solutions/year_2025/day_1.rs:78-93 | both counters only grow along the input |
| Day1.FoldAppend | aoc-solutions/src/my_solutions/year_2025/day_1.rs:78-93 | the fold processes rotations left to right |
| Day1.ExampleFirstThree | aoc-solutions/src/my_solutions/year_2025/day_1.rs:78-93 | on the puzzle's example: after L68 L30 R48 the dial is 0, with counts 1 and 2 |
| Day1.ExampleMiddle | aoc-solutions/src/my_solutions/year_2025/day_1.rs:78-93 | on the example: L5 R60 L55 from 0 brings the counts to 2 and 4 |
| Day1.ExampleEnd | aoc-solutions/src/my_solutions/year_2025/day_1.rs:78-93 | on the example: L1 L99 R14 L82 ends at 32, with counts 3 and 6 |
| Day1.Example | aoc-solutions/src/my_solutions/year_2025/day_1.rs:78-93 | the puzzle's example gives 3 for part 1 and 6 for part 2 |
| Day1.StepAsWritten | aoc-solutions/src/my_solutions/year_2025/day_1.rs:80 | the dial as written is the i16-wrapped sum mod 100 |
| Day1.StepAsWrittenAgrees | aoc-solutions/src/my_solutions/year_2025/day_1.rs:80 | the i16 sum as written agrees with the unbounded one whenever it does not overflow |
| Day1.LargeRotationOverflows | aoc-solutions/src/my_solutions/year_2025/day_1.rs:80 | "R32767" parses, but 50 + 32767 overflows i16; a wrapping sum gives dial 81 where the intended dial is 17 |
| Day1.SharedData.constructor | aoc-solutions/src/my_solutions/year_2025/day_1.rs:26-60 | the shared state holds the parsed rotations and no cached result |
| Day1.SharedData.SolveOnceForBoth | aoc-solutions/src/my_solutions/year_2025/day_1.rs:75-100 | the counters computed by the loop are those of the fold; they are cached, and a cached result is never recomputed |
| Day1.SharedData.SolvePart1 | aoc-solutions/src/my_solutions/year_2025/day_1.rs:63-73 | the answer is the decimal count of rotations ending at 0 |
| Day1.SharedData.SolvePart2 | aoc-solutions/src/my_solutions/year_2025/day_1.rs:63-73 | the answer is the decimal count of clicks landing on 0 |
| Day1.SolveExample | aoc-solutions/src/my_solutions/year_2025/day_1.rs:63-100 | solving the example through the shared state answers "3" and "6" |
| ResponseParser.FindFrom | aoc-http-client/src/parser.rs:75-96 | the first occurrence of a pattern at or after a position, or none |
| ResponseParser.Contains | aoc-http-client/src/parser.rs:75-96 | `str::contains`: true iff the pattern occurs somewhere |
| ResponseParser.ContainsSpliced | aoc-http-client/src/parser.rs:75-96 | a text built around a pattern contains it |
| ResponseParser.EmptyContainsNothing | aoc-http-client/src/parser.rs:146-152 | empty text contains no non-empty phrase |
| ResponseParser.DigitRun | aoc-http-client/src/parser.rs:30 | the greedy `\d+` run: all digits, ending at a non-digit or the end |
| ResponseParser.FirstUserIdAt | aoc-http-client/src/parser.rs:46-51 | the leftmost match of the user-id pattern |
| ResponseParser.ExtractUserId | aoc-http-client/src/parser.rs:46-51 | an id is only found where the opening "(anonymous user #" occurs |
| ResponseParser.DigitRunOf | aoc-http-client/src/parser.rs:30 | a digit run followed by a non-digit has exactly its length |
| ResponseParser.UserIdMatch | aoc-http-client/src/parser.rs:30 | "(anonymous user #" + digits + ")" is a match, whose digits are exactly those |
| ResponseParser.UserIdFound | aoc-http-client/src/parser.rs:466-496 | when no '(' precedes it, a page carrying " (anonymous user #n) " yields n when it fits u64, and nothing otherwise; with an earlier match the leftmost one wins (ResponseParser.ExtractAt) |
| ResponseParser.FirstUserIdIs | aoc-http-client/src/parser.rs:46-51 | a match with none before it is the leftmost |
| ResponseParser.U64Of | aoc-http-client/src/parser.rs:50 | `parse::<u64>` of digits succeeds iff their value is below 2^64, with that value |
| ResponseParser.ExtractAt | aoc-http-client/src/parser.rs:46-51 | the leftmost match's digits, parsed as u64, are the result |
| ResponseParser.UserIdAbsent | aoc-http-client/src/parser.rs:504-522 | a page without the opening yields no id |
| ResponseParser.LazyCapture | aoc-http-client/src/parser.rs:36 | a capture of at least one character ends where " left to wait." begins, no earlier such position exists, and the capture holds no line feed; there is none only when every later phrase is preceded by a line feed |
| ResponseParser.FirstWaitMatch | aoc-http-client/src/parser.rs:67-72 | the leftmost match lies within the text |
| ResponseParser.NoPhraseNoMatch | aoc-http-client/src/parser.rs:67-72 | without "You have " there is no match |
| ResponseParser.NoWaitWithoutPhrase | aoc-http-client/src/parser.rs:120-130 | a throttle message without the wait phrase has no duration |
| ResponseParser.CaptureEndsAtPhrase | aoc-http-client/src/parser.rs:36 | the lazy capture stops at the first " left to wait." |
| ResponseParser.NoMatchBefore | aoc-http-client/src/parser.rs:67-72 | the first "You have " that matches gives the leftmost match |
| ResponseParser.WaitTimeCaptured | aoc-http-client/src/parser.rs:390-460 | "You have d left to wait." yields the parsed d when d is non-empty, holds no line feed and no 'l', does not end in a space, and no "You have " comes earlier; a d with a line feed is not matched there, and one holding " left to wait." is cut short (ResponseParser.LazyCapture) |
| ResponseParser.ExtractThrottleDuration | aoc-http-client/src/parser.rs:67-72 | no duration when the pattern does not match; otherwise the duration parser's result on the leftmost match's capture |
| ResponseParser.DurationOfMatch | aoc-http-client/src/parser.rs:67-72 | the captured text is handed to the duration parser |
| ResponseParser.ExtractMainText | aoc-http-client/src/parser.rs:54-64 | an error iff there is no `<main>`; otherwise its text |
| ResponseParser.ParseSubmissionResponse | aoc-http-client/src/parser.rs:75-96 | no `<main>` iff the HTML-parse error; otherwise, in priority order: incorrect iff the text contains "not the right answer"; already completed iff not that and "already complete it"; throttled iff neither and "gave an answer too recently", carrying the extracted wait time; correct iff none of them |
| ResponseParser.IncorrectWhateverElse | aoc-http-client/src/parser.rs:75-96 | "not the right answer" wins over every other phrase |
| ResponseParser.AlreadyCompletedDetected | aoc-http-client/src/parser.rs:75-96 | the already-completed phrase is recognised |
| ResponseParser.ThrottledDetected | aoc-http-client/src/parser.rs:75-96 | the throttle phrase is recognised, with its wait time |
| ResponseParser.ThrottledWithoutWaitTime | aoc-http-client/src/parser.rs:120-130 | throttled without a wait phrase carries no duration |
| ResponseParser.EmptyMainIsCorrect | aoc-http-client/src/parser.rs:146-152 | an empty `<main>` is correct; no `<main>` is the HTML-parse error |

## Left out

- `aoc-solutions/src/utils/dp_cache/parallel.rs`, and the concurrent backends. Concurrency is not modelled.
- The fixed-capacity backends are not modelled as data structures. Only their refusal of a key is modelled, as the `admits` predicate, and it reaches the caller of `get` as an error.
- DpBackend.VecBackend.Lookup, DpBackend.VecBackend.GetOrInsert, DpBackend.HashMapBackend.Lookup and DpBackend.HashMapBackend.GetOrInsert: `backend.rs` declares only the slot accessor `get` and `ensure_index`. The value-level `get` and `get_or_insert` that the cache calls (cache.rs:110 and 120-122) and the tests use (tests.rs:104-149) are not among these files, so their behaviour is taken from those callers.
- DpBackend.VecBackend.SetSlot and DpBackend.HashMapBackend.SetSlot: modelled on the first-write-wins behaviour the tests (tests.rs:104-149) expect of a write.
- DpCache.DpCache.NewConst and DpCache.DpCache.Build: the cache engine is modelled over the map backend only. DpBackend.VecMapInsertAgree shows that the vector backend stores the same values under the same calls.
- DpCache.DpCache.Build requires the builder to hold both a backend and a problem. The source panics when either is missing (cache.rs:217-223).
- DpProblem.FibonacciSpec, DpProblem.FactorialValue, DpCache.FibonacciThroughCache and DpCache.FactorialBounded compute in unbounded integers. The tests use u64, where 21! would overflow; their inputs stay below that.
- DpBackend.VecBackend.Slot and DpBackend.HashMapBackend.Slot: the panic of indexing an uncovered slot is a precondition.
- HTML parsing is not modelled. The text of `<main>` and of the settings page are inputs.
- ResponseParser.DigitRun: the `\d` class is modelled as the ASCII digits. Rust's regex `\d` also matches other Unicode decimal digits.
- humantime's `parse_duration` is a parameter. The regex caches held in `OnceCell`s are not modelled.
- ResponseParser.UserIdFound assumes no '(' before the match, so that it is the leftmost one. Pages with several matches are covered by ResponseParser.ExtractAt and ResponseParser.FirstUserIdIs.
- ResponseParser.WaitTimeCaptured assumes a d without 'l', so that d cannot hold the end phrase. It is stated for that family only. A general d is covered by ResponseParser.LazyCapture, which gives the shortest capture and excludes line feeds.
- ResponseParser.FirstWaitMatch states only that the match lies within the text. Its exact shape is proved by the lemmas beside it: CaptureEndsAtPhrase, NoMatchBefore, WaitTimeCaptured.
- `AocError`'s other variants, and the HTTP client (`client.rs`), are not part of this model.
- The executor's runtime is not modelled: the thread pool, the channels, `run_solver_parallel`, answer submission and retries. Its error folding, work-item selection and reorder buffer are modelled.
- The CLI's cache, config, main, cli and output modules are not modelled. Nor are the macro crate, the benchmarks and `stress_test.rs`.
- Aggregator.InsertBy: `BinaryHeap` does not promise an order among equal keys. The model places a new element after the equal ones.
- Instance: the `results`, `year` and `day` getters only return fields and have no rows.
- `register_all_plugins`, `register_solver_plugins` (link-time `inventory`) and `iter_factories` are not modelled.
- Day1.SharedData.SolveOnceForBoth: both counters are u16 in the source. The model requires the counts to fit in u16 (`CountersFit`) instead of modelling overflow. The loop's dial is an unbounded integer and moves by the corrected step (Day1.Step), not by the source's i16 `dial_value += rotate_val` (see Findings).
- RustText.Lines: a lone trailing '\r' is kept, as the current standard library does. Older Rust versions stripped it.
- The problem's `deps` closure must be well founded (a rank that decreases along dependencies). The source documents this requirement without checking it: with a cycle it overflows the stack or never ends.

## Findings

| source | as written | input that shows it | evidently intended | confidence | as-written member | corrected member |
|---|---|---|---|---|---|---|
| aoc-cli/src/executor.rs:170-172 (and 198-200) | `reduce_with(\|err1, err2\| err1.map(\|err1\| combine_opt(err2, err1)))` returns `None` whenever the left side has no error, discarding the right side's error | two work items, the first succeeds and the second fails: the reduction reports success | the reduction fails iff any item failed, and keeps every error | high, not executed | Executor.ReduceErrorsDropsRightError (of Executor.ReduceErrors) | Executor.ReduceKeepingErrors, Executor.Reduce |
| aoc-solutions/src/my_solutions/year_2025/day_1.rs:80 | `dial_value += rotate_val` adds in i16, although the parser accepts rotations up to 32767 | the line "R32767" from the start dial 50: the sum overflows i16 (a panic in a debug build; a wrapped sum gives dial 81) | the dial moves to (50 + 32767) mod 100 = 17 | high, not executed | Day1.LargeRotationOverflows (of Day1.StepAsWritten) | Day1.Step, with Day1.SettleDial, Day1.FoldDial and Day1.StepCountsClicks |

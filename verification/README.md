# Verified kernels of cerebro-mcp

cerebro-mcp is mostly wiring, but a number of small algorithms inside it carry
guarantees that the code only states in comments. This project models those
algorithms in Dafny and proves the guarantees, or, where one fails, names the
input and proves exactly when it holds. `dafny verify dfyconfig.toml` checks all of it.

| module | what it models |
|---|---|
| ChainClients | the double-checked cache of per-chain RPC connections: the class one caller sees, and a step system for any number of threads |
| BlockFloor | `RpcRouter`: lazy endpoint clients, the bisection for the lowest served block, retry |
| RouterThreads | the same router under any number of threads sharing a non-reentrant lock |
| Layout, Tiling, Dashboard | the Grafana section planner, the placement loop that fills the 24-column grid, and what the whole compiler emits |
| SqlMacros | neutralising Grafana macros and variables before SQL validation |
| Bytecode | collecting addresses from PUSH operands of EVM bytecode, against a disassembler |
| AbiCache | the hit and miss caches and the control flow of ABI resolution, one call after another |
| AbiThreads | the same resolution under any number of threads |
| MetadataCache | the ClickHouse metadata caches under any number of threads |
| OrderedDict | insertion-ordered dictionaries and the first-in-first-out TTL cache both cache modules use |
| Stats | median/MAD outlier cleaning, percentiles, the benchmark statistics block |
| Sampling | evenly spaced block sampling with half-even rounding |
| Splice | bottom-up source splicing and the offsets it uses |
| Ranking, Lessons | lesson scoring and the deterministic top-k |
| SelectList | splitting a SELECT list at top-level commas |
| Arithmetic, Lists, Options, Rounding, Sorting, Text | shared facts: ceiling division, lists, `round`, stable sorting, ASCII strings |

## How it is modelled

- Code that updates state in steps is a method with loops, or a class with the
  same fields; each is proved against a function, and the promises are lemmas
  about that function. Pure code is functions and lemmas.
- Concurrency is a step system: a state, an action per thread move, a total
  step function in which a move that is not enabled changes nothing, and runs
  over arbitrary lists of actions. Reads outside the lock are their own moves.
- The outside world enters as parameters: `served` says whether the endpoint
  returns a header, a probe answers with a chain id or fails, the ABI sources
  and `execute_raw` answer or fail. Clock readings are parameters too; where
  order matters a run never moves its clock backwards.
- Floats are exact reals or rationals. `statistics.pstdev` has no closed form
  in the reals, so the `3 * std` bounds are compared squared;
  `Stats.StdTestSquared` shows that any square root of the variance gives the same test.
- Strings are ASCII unless a statement is about the difference.

## Where the code and its documentation disagree

The model follows the code in each case.

- `lowest_available_block` promises a block of at least 1, but an upper end
  below 1 that is served (genesis) is returned and cached when block 1 is
  missing: `BlockFloor.GenesisReturned`, exactly in `BlockFloor.KeptIsFloorExactly`.
  The upper end may be the caller's, or the head of a chain that has only its
  genesis block (`RouterThreads.GenesisHeadHarmful`).
  Under threads one such caller is enough to replace a correct cached value, on
  any chain and for any floor (`RouterThreads.HarmfulCallerChangesFloor`). The
  cached value is always the lowest served block exactly when there is none
  (`RouterThreads.AlwaysFloorExactly`), and it never changes exactly when the
  callers' own searches agree (`RouterThreads.NeverChangesExactly`).
- A PUSH operand cut off by the end of the code is padded on the left, while
  the EVM reads the missing bytes as zeros on the right: every address
  reported from a cut-off operand is one the EVM would not push
  (`Bytecode.ReportedIsPushed`, with an input in `Bytecode.CutOffOperandReported`).
- `_cols_for` calls its column count balanced across rows. It uses the fewest
  rows, but the last row takes the whole shortfall: 13 KPI panels become rows of
  4, 4, 4 and 1. `Layout.BalancedBySize` lists the section sizes for which it fails.
- The lock of the ABI caches makes each read and each write atomic, which is all
  its comment promises. It does not cover a whole call: two calls for one key
  whose sources disagree may leave it in both caches
  (`AbiThreads.InterleavedCallsShareKey`), which no run of whole calls can
  (`AbiCache.EveryRunSeparate`). `AbiThreads.SeparateExactly` says when it can
  happen. A capacity setting below 1 makes every call for a known chain fail
  (`AbiCache.NoCapacityNoAnswer`).
- `execute_raw_cached` identifies a query by its cache key alone: two queries
  that share a key are answered from one another
  (`MetadataCache.SharedKeyServesOtherQuery`). Cached and direct execution agree
  exactly when the key determines the answer (`MetadataCache.TransparentExactly`).
- `clean_outliers` is documented to return at least its input, but of 1, 2, 3 and
  100 it drops the last (`Stats.LargeSampleDropped`). For thresholds of at least
  0.6745 it returns at least half of its input (`Stats.CleanKeepsHalf`); below
  that its `kept or vals` fallback can be taken (`Stats.FallbackNeverTaken`). It
  returns all of its input exactly when the sample farthest from the median
  passes, or none does (`Stats.NothingDroppedExactly`). It is meant to keep an
  extreme sample from hiding itself, but where all others are equal a single
  spike of any size stays unless there are at least eight samples, one more than
  the latency suite takes (`Stats.SpikeDroppedExactly`).
- The splicing script does not reject an edit listed twice; the second splice
  then damages the text (`Splice.RepeatedEditDamages`) except in two cases
  (`Splice.RepeatedEdit`).
  It adds a UTF-8 byte column to a character offset, which is right exactly when
  the line is ASCII up to there (`Splice.ByteSpanExactly`, `Splice.AccentMovesSpan`).
- The tiebreak of `score_lessons` is on the id alone: two different hits with one
  id and one score come in the order of the corpus (`Ranking.StableExactly`).
- `score_lessons` slices with its `limit`, so a negative one counts from the
  end, and asking for one more result can return none (`Ranking.OneMoreExtends`).

## Model

| member | source | states |
|---|---|---|
| ChainClients.ChainRpcManager.GetClient | src/cerebro_mcp/clients/web3.py:58-83 | one caller: unknown chain, cached client, missing endpoint, wrong chain, failed probe and new client are told apart, and the cache changes only for a new client |
| ChainClients.ClientForExactly | src/cerebro_mcp/clients/web3.py:58-83 | when each outcome occurs, which client is returned, and that only a checked client for its own key is ever added |
| ChainClients.UrlExactly | src/cerebro_mcp/chains.py:175-184 | each key goes to its configured endpoint: the Gnosis pair first, archive falling back to standard |
| ChainClients.ChainRpcManager.Build | src/cerebro_mcp/clients/web3.py:77-83 | under the lock an entry that appeared meanwhile is returned and kept, otherwise only a checked client is stored |
| ChainClients.ConstructedAtMostOnce | src/cerebro_mcp/clients/web3.py:24-34 | in every interleaving of any number of calls each (chain, kind) is successfully constructed at most once |
| ChainClients.OneCheckedClient | src/cerebro_mcp/clients/web3.py:38-83 | every call that returns for a key returns the stored client, whose probe reported that chain and whose endpoint is the one configured for it |
| ChainClients.StoredAreChecked | src/cerebro_mcp/clients/web3.py:38-56 | every stored client, returned or not, reported the chain of its key and goes to the endpoint configured for it |
| ChainClients.NeverReplaced | src/cerebro_mcp/clients/web3.py:62-83 | a stored client stays the same through any later actions |
| ChainClients.SomeoneCanStep | src/cerebro_mcp/clients/web3.py:77-83 | while a call is unfinished some unfinished call can act, also after failed constructions |
| ChainClients.EveryCallEnds | src/cerebro_mcp/clients/web3.py:58-83 | whatever the others do, a call acts at most eight times |
| ChainClients.AloneIsSequential | src/cerebro_mcp/clients/web3.py:58-83 | a call that runs alone through the step system ends as the one-caller code does |
| ChainClients.StepInv | src/cerebro_mcp/clients/web3.py:58-83 | every action keeps the invariant that ties the lock, the cache and the log of constructions together |
| BlockFloor.RpcRouter.LowestAvailableBlock | src/cerebro_mcp/clients/raw_rpc.py:252-297 | result, cached value and number of header probes are those of the search, a cached value costs nothing, clients already built stay |
| BlockFloor.RpcRouter.HeaderServed | src/cerebro_mcp/clients/raw_rpc.py:244-250 | answers by the archive endpoint when there is one, building that client at most once |
| BlockFloor.RpcRouter.GetStandard | src/cerebro_mcp/clients/raw_rpc.py:156-161 | builds the standard client on first use and returns the same one afterwards |
| BlockFloor.RpcRouter.GetArchive | src/cerebro_mcp/clients/raw_rpc.py:163-172 | fails without an archive URL, otherwise builds once and returns the same client afterwards |
| BlockFloor.Retry | src/cerebro_mcp/clients/raw_rpc.py:223-239 | the result is the last attempt's, earlier ones were retryable, a retryable result means all attempts were used, at least one is made, and the pauses add up to 2^(n-1) - 1 base sleeps |
| BlockFloor.SearchFindsBoundary | src/cerebro_mcp/clients/raw_rpc.py:278-293 | with block 1 missing and a served top the result is served and its predecessor is not, monotone or not |
| BlockFloor.BisectFindsBoundary | src/cerebro_mcp/clients/raw_rpc.py:287-293 | the bisection of an unserved lower and a served upper end finds a boundary between them |
| BlockFloor.KeptIsFloorExactly | src/cerebro_mcp/clients/raw_rpc.py:252-297 | a cached result is the lowest served block, and at least 1, exactly when block 1 is served or the upper end is at least 1 |
| BlockFloor.GenesisReturned | src/cerebro_mcp/clients/raw_rpc.py:263-265 | an upper end of 0 on a chain that serves genesis and blocks 5 to 10 yields 0, and it is cached |
| BlockFloor.StartIrrelevant | src/cerebro_mcp/clients/raw_rpc.py:273-277 | any two served upper ends of at least 1 give the same result, so it may be cached |
| BlockFloor.SearchCost | src/cerebro_mcp/clients/raw_rpc.py:267-268 | at most 2 + ceil(log2(top)) header probes, one when block 1 is served |
| BlockFloor.CeilLog2Least | src/cerebro_mcp/clients/raw_rpc.py:276-277 | the probe bound is the least k with n <= 2^k |
| RouterThreads.NoDeadlock | src/cerebro_mcp/clients/raw_rpc.py:273-277 | no call waits for the lock it holds, and while a call is unfinished some unfinished call can act |
| RouterThreads.BuiltAtMostOnce | src/cerebro_mcp/clients/raw_rpc.py:156-172 | in every interleaving each endpoint client is built at most once and never replaced |
| RouterThreads.EveryCallEnds | src/cerebro_mcp/clients/raw_rpc.py:270-297 | whatever the others do, a call moves at most 16 times and 4 times for each bit of its upper end |
| RouterThreads.CallsSearchAsAlone | src/cerebro_mcp/clients/raw_rpc.py:252-297 | whatever the endpoint serves, a call returns what its own search would find alone, or a value another call's search keeps |
| RouterThreads.NeverChangesExactly | src/cerebro_mcp/clients/raw_rpc.py:273-297 | for any set of calls and any endpoint, no run ever replaces a cached value exactly when the searches that keep a result keep the same one |
| RouterThreads.AlwaysFloorExactly | src/cerebro_mcp/clients/raw_rpc.py:270-297 | on an upward-closed chain every cached value in every run is the lowest served block exactly when no caller starts from a served block below 1 while block 1 is missing |
| RouterThreads.GenesisHeadHarmful | src/cerebro_mcp/clients/raw_rpc.py:278-297 | on a chain of the genesis block alone a call without an upper end caches 0 |
| RouterThreads.FloorNeverChanges | src/cerebro_mcp/clients/raw_rpc.py:270-297 | without such a caller the cached floor is the lowest served block and no race changes it |
| RouterThreads.HarmfulCallerChangesFloor | src/cerebro_mcp/clients/raw_rpc.py:278-297 | for every floor, with one such caller there is a run in which the cached floor is replaced by that caller's upper end |
| RouterThreads.CallersAgree | src/cerebro_mcp/clients/raw_rpc.py:275-277 | racing callers return the same floor, except that one whose own upper end is not served may return the placeholder 1 |
| RouterThreads.CacheAnswers | src/cerebro_mcp/clients/raw_rpc.py:270-271 | a call that finds the cache set returns it, and it is the floor |
| RouterThreads.EndpointsUsed | src/cerebro_mcp/clients/raw_rpc.py:156-172 | headers are asked of the archive endpoint when there is one and else of the standard one, the head of the standard one, accessors give their own endpoint or fail for a missing archive, and no client is built that nobody needs |
| RouterThreads.AnsweredInv | src/cerebro_mcp/clients/raw_rpc.py:278-293 | every answer keeps a call on the way to what its search would find alone |
| Layout.DistributeWidthsExact | src/cerebro_mcp/grafana/compiler.py:445-448 | the widths sum to 24, differ by at most 1 with the wider ones first, and are positive for up to 24 panels |
| Layout.ColsForOptimal | src/cerebro_mcp/grafana/compiler.py:451-455 | the column count is between 1 and the role maximum and needs exactly as many rows as the maximum |
| Layout.FewestRows | src/cerebro_mcp/grafana/compiler.py:441-455 | no way of filling rows of at most m panels uses fewer than ceil(n/m) rows |
| Layout.SectionRowCount | src/cerebro_mcp/grafana/compiler.py:475-484 | a section of n panels takes ceil(n/max) rows and no row exceeds the role maximum |
| Layout.PlanRowsFull | src/cerebro_mcp/grafana/compiler.py:477-484 | slicing makes non-empty rows of total width 24 and one height and leaves no panel out |
| Layout.PlanRowsSizes | src/cerebro_mcp/grafana/compiler.py:477-478 | every row but the last holds exactly the column count, the last at least one panel |
| Layout.PlanRowsTall | src/cerebro_mcp/grafana/compiler.py:480-483 | every row has the height of its tallest panel: none is cut off, and some panel asks for exactly that height |
| Layout.BalancedExactly | src/cerebro_mcp/grafana/compiler.py:441-455 | row lengths differ by at most 1 exactly when at most one place of the last row stays empty |
| Layout.BalancedBySize | src/cerebro_mcp/grafana/compiler.py:441-455 | in terms of the section size: unbalanced exactly for KPI sections of 10 panels or more that leave 1 or 2 over fours, and breakdown sections of 7 or more that leave 1 over threes |
| Layout.ThirteenKpisUnbalanced | src/cerebro_mcp/grafana/compiler.py:451-455 | thirteen KPI panels are not balanced |
| Layout.PlanSections | src/cerebro_mcp/grafana/compiler.py:462-490 | the planning loops compute the plan: non-empty roles in order, each cut into rows |
| Layout.FillRows | src/cerebro_mcp/grafana/compiler.py:476-484 | the slicing loop computes the rows of a section |
| Dashboard.Compile | src/cerebro_mcp/grafana/compiler.py:540-559 | the emitted rectangles cover [0,24) x [0,Y) exactly once and ids are 1..N in order; the cards are the declared panels in role order, stable within a role; each role stands in rows of ceil(n / ceil(n / max)) panels directly below one another, in each row widths within one of each other and one height, the largest any of its panels asks for; with two roles or more each role present has its header, which stands over its own cards |
| Dashboard.RoleLaidOut | src/cerebro_mcp/grafana/compiler.py:451-484 | for every role the cards in the emitted order are its rows of the column count of `_cols_for` |
| Dashboard.PlanRowGrid | src/cerebro_mcp/grafana/compiler.py:478-483 | one row, panel by panel: place, width and height |
| Tiling.SectionsTile | src/cerebro_mcp/grafana/compiler.py:424-430 | any plan of full rows, header rows included, tiles its rectangle without gap or overlap |
| Tiling.RowTile | src/cerebro_mcp/grafana/compiler.py:550-559 | the panels of one row tile a band of their total width and common height |
| Tiling.SectionsNumbered | src/cerebro_mcp/grafana/compiler.py:543-558 | panel ids are consecutive across headers, rows and sections |
| Tiling.CardsConserved | src/cerebro_mcp/grafana/compiler.py:471-484 | walking the roles keeps every panel once, in role order, stable within a role |
| Tiling.OneHeaderPerRole | src/cerebro_mcp/grafana/compiler.py:458-459 | the headers number the distinct roles |
| Tiling.HeadersLead | src/cerebro_mcp/grafana/compiler.py:430-431 | in a dashboard with sections every card follows the header of its own role |
| Tiling.PlaceRow | src/cerebro_mcp/grafana/compiler.py:551-558 | the innermost loop places panels side by side with consecutive ids |
| Tiling.PlaceSections | src/cerebro_mcp/grafana/compiler.py:543-559 | the outer loop stacks the sections and ends at their total height |
| SqlMacros.SqlForValidation | src/cerebro_mcp/grafana/compiler.py:52-70 | accepted text names no variable, is accepted again unchanged, and text is returned unchanged exactly when it names no variable |
| SqlMacros.RejectedExactly | src/cerebro_mcp/grafana/compiler.py:63-67 | a query is rejected exactly when an unsupported macro stands somewhere in the expanded text |
| SqlMacros.FindsUnsupportedExactly | src/cerebro_mcp/grafana/compiler.py:64-65 | the non-overlapping scan misses no position |
| SqlMacros.NeutralizeClears | src/cerebro_mcp/grafana/compiler.py:69-70 | after the substitution no dollar sign is followed by a word character |
| SqlMacros.ValidatedByPiece | src/cerebro_mcp/grafana/compiler.py:42-70 | for a query in any number and mix of plain text, dollar signs, variables and macro calls: it is accepted exactly when every name is supported, and then every call is replaced, every variable becomes the literal, and all other text stays in place |
| SqlMacros.MatchExactly | src/cerebro_mcp/grafana/compiler.py:42-49 | only a complete call matches: the opening, one word with white space around it, the closing bracket |
| SqlMacros.ExpandIdle | src/cerebro_mcp/grafana/compiler.py:42-61 | macro expansion leaves text without variables alone |
| Bytecode.AddressesInCode | src/cerebro_mcp/clients/abi_resolver.py:498-525 | the result lists, once each and in the order in which they are first carried, exactly the addresses carried by a PUSH20 or PUSH32 at a real instruction boundary: twenty bytes, not all zero, the lowest of the operand, missing ones zero |
| Bytecode.AddressExactly | src/cerebro_mcp/clients/abi_resolver.py:477-482 | an operand yields exactly its twenty lowest bytes, and nothing when they are zero |
| Bytecode.OperandSizeExactly | src/cerebro_mcp/clients/abi_resolver.py:508-521 | the 32 PUSH opcodes carry 1 to 32 bytes in order and no other opcode carries any |
| Bytecode.EmbeddedExactly | src/cerebro_mcp/clients/abi_resolver.py:498-525 | an address is embedded in the disassembly exactly when some boundary instruction carries it |
| Bytecode.BoundaryIsInstruction | src/cerebro_mcp/clients/abi_resolver.py:508-521 | the disassembly holds exactly the instructions reached from offset 0 |
| Bytecode.DisassemblyRoundTrip | src/cerebro_mcp/clients/abi_resolver.py:508-521 | assembling the disassembly gives back the code |
| Bytecode.AddAllNewKeepsFirstOccurrences | src/cerebro_mcp/clients/abi_resolver.py:522-525 | skipping addresses already listed keeps one of each, ordered by first occurrence |
| Bytecode.ReportedIsPushed | src/cerebro_mcp/clients/abi_resolver.py:512-515 | a reported address is the one the EVM would push exactly when its operand is complete |
| Bytecode.CutOffOperandReported | src/cerebro_mcp/clients/abi_resolver.py:512-515 | a PUSH20 with a single operand byte 1 at the end of the code is reported with the 1 last, while the EVM would push it first |
| Bytecode.TruncatedOperandAgrees | src/cerebro_mcp/clients/abi_resolver.py:477-482 | for a cut-off operand the two readings agree exactly when there is no address to report |
| AbiCache.CacheKeyInjective | src/cerebro_mcp/clients/abi_resolver.py:77-88 | keys are equal exactly for the same chain, the same address in any case, and the same target |
| AbiCache.VerdictExactly | src/cerebro_mcp/clients/abi_resolver.py:178-215 | the verdict from each source's answer: dbt's on Gnosis, else Blockscout's, else Sourcify's, each only with a non-empty ABI; the probe's instead exactly when the target allows it, nothing can be called so far and something can on what it found; none when nobody offers any |
| AbiCache.FreshRecordFits | src/cerebro_mcp/clients/abi_resolver.py:178-221 | a record from the sources has a non-empty ABI and the chain asked about, dbt answers only for Gnosis, and a bare proxy is returned only when the probe has nothing better |
| AbiCache.AbiResolver.ResolveAbi | src/cerebro_mcp/clients/abi_resolver.py:147-224 | the call's outcome and both caches afterwards are those of the resolution function |
| AbiCache.ResolveExactly | src/cerebro_mcp/clients/abi_resolver.py:170-224 | which of a live hit, a live miss or the sources answers a call, and what is cached under its key afterwards |
| AbiCache.AbiResolver.CacheGet | src/cerebro_mcp/clients/abi_resolver.py:91-101 | returns an entry no older than the TTL, removes an older one, changes nothing else |
| AbiCache.AbiResolver.CacheSet | src/cerebro_mcp/clients/abi_resolver.py:104-109 | stores under the key, evicting the oldest entry at capacity, and fails on an empty cache of capacity below one |
| AbiCache.AbiResolver.NegativeCached | src/cerebro_mcp/clients/abi_resolver.py:112-121 | reports a miss no older than 120 seconds and removes an older one |
| AbiCache.AbiResolver.NegativeCacheSet | src/cerebro_mcp/clients/abi_resolver.py:124-128 | records a miss, evicting the oldest at capacity |
| AbiCache.AbiResolver.ClearCaches | src/cerebro_mcp/clients/abi_resolver.py:131-140 | empties both caches |
| AbiCache.EveryRunSeparate | src/cerebro_mcp/clients/abi_resolver.py:147-224 | after any run of whole calls and clears the same holds and no key is in both caches |
| AbiCache.EveryRunExplained | src/cerebro_mcp/clients/abi_resolver.py:147-224 | every cached hit or miss is what an earlier call with that key got from the sources when it was stored |
| AbiCache.AnswersOwnQuestion | src/cerebro_mcp/clients/abi_resolver.py:77-101 | an answer comes from the sources now, or from an earlier call for the same chain, address and target no more than one TTL ago |
| AbiCache.RepeatIsCached | src/cerebro_mcp/clients/abi_resolver.py:171-176 | a verdict just stored answers the same question again whatever the sources say by then |
| AbiCache.NoCapacityNoAnswer | src/cerebro_mcp/clients/abi_resolver.py:104-109 | after any run, a call fails in the write exactly when the capacity is below one and the chain is known |
| AbiThreads.EveryInterleavingSound | src/cerebro_mcp/clients/abi_resolver.py:69-74 | however calls and clears interleave, both caches stay within capacity, every record is usable and on the chain of its key, and every cached verdict is what the sources told some call with its key when it stored it |
| AbiThreads.InterleavedAnswersOwnQuestion | src/cerebro_mcp/clients/abi_resolver.py:147-224 | under any interleaving an answer comes from the call's own sources, or from a call for the same chain, address and target no more than one TTL ago |
| AbiThreads.SeparateExactly | src/cerebro_mcp/clients/abi_resolver.py:69-74 | for any set of calls, no run has a key in both caches exactly when the capacity is below one or no two calls for known chains share a key and get a record and a miss |
| AbiThreads.InterleavedCallsShareKey | src/cerebro_mcp/clients/abi_resolver.py:171-224 | two such calls that both look before either stores leave their key in both caches |
| AbiThreads.AloneIsResolve | src/cerebro_mcp/clients/abi_resolver.py:147-224 | a call that runs alone through the steps ends as the whole call does |
| OrderedDict.LookupExactly | src/cerebro_mcp/clients/clickhouse.py:701-707 | a read returns exactly the live entry and otherwise removes only the key that was read |
| OrderedDict.StoreExactly | src/cerebro_mcp/clients/clickhouse.py:716-720 | a write fails only on an empty dictionary of no capacity, never outgrows the capacity, and besides its own key can only drop the oldest |
| OrderedDict.StoreOrder | src/cerebro_mcp/clients/clickhouse.py:716-720 | at capacity the key put in first goes; a key already present keeps its place and a new one goes to the end |
| MetadataCache.ClickHouseManager.CacheGet | src/cerebro_mcp/clients/clickhouse.py:693-707 | reads the chosen cache with its TTL, removing an entry that is too old, and leaves the other cache alone |
| MetadataCache.ClickHouseManager.CacheSet | src/cerebro_mcp/clients/clickhouse.py:709-720 | writes the chosen cache within its bound and leaves the other alone |
| MetadataCache.ClickHouseManager.ExecuteRawCached | src/cerebro_mcp/clients/clickhouse.py:730-749 | one caller: a live entry is returned, otherwise the query runs and its result is stored unless it raises |
| MetadataCache.EveryRunSound | src/cerebro_mcp/clients/clickhouse.py:693-749 | in every interleaving both caches stay within bounds, and a returned value was produced by this very call, or by one with its key that stored it less than one TTL before it was read |
| MetadataCache.EveryRunWithin | src/cerebro_mcp/clients/clickhouse.py:224-227 | in every run at most 256 schema and 64 page entries, and no cached value returned after 300 or 60 seconds |
| MetadataCache.TransparentExactly | src/cerebro_mcp/clients/clickhouse.py:740-749 | for any set of calls whose queries each have one answer, every value returned in every run is the answer to the call's own query exactly when calls that share a cache and a key have the same answer |
| MetadataCache.SharedKeyServesOtherQuery | src/cerebro_mcp/clients/clickhouse.py:734-743 | of two calls with one cache and key there is a run in which the second returns the answer to the first one's query |
| MetadataCache.AloneIsCall | src/cerebro_mcp/clients/clickhouse.py:740-749 | a call that runs alone through the steps ends as the one-caller code does |
| MetadataCache.RepeatDoesNotExecute | src/cerebro_mcp/clients/clickhouse.py:741-749 | a later call for a stored key within the TTL, with nothing stored in between, returns the stored value and does not execute |
| MetadataCache.EntrySurvives | src/cerebro_mcp/clients/clickhouse.py:701-707 | reads alone never remove an entry that is still live |
| Stats.CleanKeepsHalf | benchmarks/core/stats.py:32-54 | for thresholds of at least 0.6745 the result is an order-preserving subsequence of at least half of the samples, in both branches, without the fallback |
| Stats.FallbackNeverTaken | benchmarks/core/stats.py:52-54 | the fallback is never taken for any samples exactly when the threshold is at least 0.6745 |
| Stats.HalfBelowMedian | benchmarks/core/stats.py:43-45 | at least half of any samples lie at or below their median |
| Stats.MedianExactly | benchmarks/core/stats.py:43-45 | in any ascending arrangement the median is the middle sample, or halfway between the middle two |
| Stats.PassesExactly | benchmarks/core/stats.py:46-53 | the test of each branch, without division: 0.6745 d <= threshold MAD, or d^2 <= 9 variance |
| Stats.CleanExactly | benchmarks/core/stats.py:40-54 | the result is the samples that pass, in place, or all when none passes or there are fewer than three |
| Stats.VarianceExactly | benchmarks/core/stats.py:47 | mean and variance as sums: the variance times n is the sum of squared distances from the mean |
| Stats.StdTestSquared | benchmarks/core/stats.py:47-51 | the squared test agrees with the bounds for any square root of the variance |
| Stats.KeptAreTheNearest | benchmarks/core/stats.py:43-54 | no sample is dropped that lies as near to the median as one that is kept, in both branches |
| Stats.NothingDroppedExactly | benchmarks/core/stats.py:43-54 | for any threshold nothing is dropped exactly when the sample farthest from the median passes the test of its branch, or no sample passes and the fallback is taken |
| Stats.SpikeDroppedExactly | benchmarks/core/stats.py:35-51 | of equal samples and one different one, the odd one is dropped exactly when there are at least eight, whatever the threshold |
| Stats.LargeSampleDropped | benchmarks/core/stats.py:32-54 | of 1, 2, 3 and 100 the last is dropped |
| Stats.PercentilesAscend | benchmarks/core/stats.py:68-79 | a higher percentile is never a smaller sample, and each one is a sample |
| Stats.PercentileIsNearestRank | benchmarks/core/stats.py:73-77 | the clamps never bind: the index is p percent of the way to the last sample, rounded half to even, so it is always in range |
| Stats.SummaryOrdered | benchmarks/core/stats.py:82-101 | min <= p50 <= p95 <= p99 <= max, min <= mean <= max, and at most half of the samples dropped |
| Stats.SummaryFromSamples | benchmarks/core/stats.py:82-101 | every statistic but the mean is one of the samples, and no sample, dropped or not, lies outside min and max |
| Stats.SummaryPercentiles | benchmarks/core/stats.py:92-97 | the percentiles are the nearest-rank samples of those kept at threshold 3.5, in any ascending arrangement |
| Stats.SummaryMean | benchmarks/core/stats.py:92-96 | the mean is that of the samples kept at threshold 3.5 |
| Stats.SummaryOfAll | benchmarks/core/stats.py:91-100 | the count and the extremes are those of all samples, and what is dropped is what cleaning leaves out |
| Sampling.SampleBlocksEvenlySpaced | src/cerebro_mcp/clients/contract_history.py:96-108 | for any range in either order: exactly min(points, length) strictly increasing blocks, both ends included, every block of a short range, and otherwise nearest to the ideal places with gaps within one of the ideal step |
| Sampling.SampleAdvances | src/cerebro_mcp/clients/contract_history.py:107-108 | half-even rounding never merges two samples |
| Sampling.SpreadIsSamples | src/cerebro_mcp/clients/contract_history.py:108 | the set and the sort change nothing |
| Rounding.RoundUnique | src/cerebro_mcp/clients/contract_history.py:108 | the rounded value is the only nearest integer that obeys the tie rule |
| Splice.SpliceAll | scripts/dev/apply_sql_extraction.py:101-106 | for disjoint spans the result is the left-to-right substitution in the original text |
| Splice.BottomUpIsSubstitution | scripts/dev/apply_sql_extraction.py:14-17 | splicing from the bottom equals substituting all spans at once |
| Splice.ArrivalOrderIrrelevant | scripts/dev/apply_sql_extraction.py:101-104 | the order in which the edits were listed does not matter |
| Splice.RepeatedEdit | scripts/dev/apply_sql_extraction.py:81-106 | among any disjoint edits, one listed twice is harmless exactly when its text has the span's length, or is shorter and the other edits erase everything after the span |
| Splice.RepeatedEditDamages | scripts/dev/apply_sql_extraction.py:101-106 | an edit of one character into three, listed twice, leaves two characters of its first replacement behind |
| Splice.LineStarts | scripts/dev/apply_sql_extraction.py:76-79 | the offsets are the lengths of the text before each line |
| Splice.SpanIsText | scripts/dev/apply_sql_extraction.py:97-98 | a span read off the offsets is exactly the text between its two positions |
| Splice.ByteSpanExactly | scripts/dev/apply_sql_extraction.py:76-98 | each end of a span computed from byte columns is right exactly when its line is ASCII up to there, and when both are the span is the literal's text |
| Splice.AccentMovesSpan | scripts/dev/apply_sql_extraction.py:97-98 | after one accented letter a span begins one place late and ends past the text |
| Ranking.TopIsTop | src/cerebro_mcp/loaders/agent_context.py:161-165 | the result is as long as the limit and the positive scores allow, higher scores come first and ties by id in dictionary order, and nothing left out has a higher score, or the same and an earlier id, than anything in it |
| Ranking.TopUnique | src/cerebro_mcp/loaders/agent_context.py:122-123 | for distinct lessons with distinct ids only one list is such a result |
| Ranking.RankedStable | src/cerebro_mcp/loaders/agent_context.py:122-123 | with distinct ids every arrangement of the corpus gives the same ranking |
| Ranking.StableExactly | src/cerebro_mcp/loaders/agent_context.py:122-123 | every arrangement of the corpus gives the same ranking exactly when no two different hits share both id and score |
| Ranking.SharedIdKeepsInputOrder | src/cerebro_mcp/loaders/agent_context.py:164 | two lessons with one id and one score keep their input order |
| Ranking.OneMoreExtends | src/cerebro_mcp/loaders/agent_context.py:165 | the result for a limit is a prefix of the result for the next exactly unless the limit is -1 and there are at least two results |
| Lessons.ScoreLessons | src/cerebro_mcp/loaders/agent_context.py:104-165 | the loops, the sort and the slice return the best lessons by score in that sense, for a negative limit too, and none for a query without words of two letters |
| Lessons.ScoreOne | src/cerebro_mcp/loaders/agent_context.py:145-160 | the accumulated score is the sum over terms, the phrase bonus and the boost |
| Lessons.ScoreByField | src/cerebro_mcp/loaders/agent_context.py:145-160 | the score, field by field: 3 for each term in id and title, 2 in the symptom, 1.5 in the scope, 1 in the body, 5 for the phrase, 4 for the boost |
| Lessons.TokensExactly | src/cerebro_mcp/loaders/agent_context.py:125-132 | the terms are the words longer than one letter that are not stopwords, or all of them when every one is a stopword |
| Text.WordsExactly | src/cerebro_mcp/loaders/agent_context.py:125-132 | the words of a query are its longest stretches without white space |
| Text.TextLeqExactly | src/cerebro_mcp/loaders/agent_context.py:164 | ids are compared by the first place where they differ, a prefix first |
| Lessons.PositiveExactly | src/cerebro_mcp/loaders/agent_context.py:145-162 | a lesson is a hit exactly when a term occurs in one of its fields, the phrase in its title or body, or it is boosted |
| SelectList.SplitTopLevel | benchmarks/core/fakes.py:30-44 | the parts are trimmed, non-empty and not splittable, brackets close before every separator, and joining and splitting them again changes nothing |
| SelectList.NoTopCommaExactly | benchmarks/core/fakes.py:31-37 | a comma splits exactly where the brackets before it balance |
| SelectList.NetExactly | benchmarks/core/fakes.py:32-36 | the depth counts round and square brackets, opened less closed |
| SelectList.RoundTripExactly | benchmarks/core/fakes.py:30-44 | joining and splitting is the identity on exactly those lists |
| SelectList.SplitLosesNothing | benchmarks/core/fakes.py:30-43 | before trimming, the pieces joined with commas are the input but for one trailing comma |

## Left out

- Network, disk, subprocess and ClickHouse access: replaced by the parameters described above; `supports` and its capability probes, whose cache is a plain dictionary, are not modelled.
- RouterThreads.CallersAgree: says nothing about request exceptions other than JSON-RPC errors, which end a call without touching the shared fields.
- BlockFloor.KeptIsFloorExactly: assumes one fixed answer per block; an endpoint that answers differently over time can make the search end at any boundary it showed.
- ChainClients.OneCheckedClient: endpoint settings are fixed for a run, and each call of a thread is its own entry, so a thread is a sequence of entries.
- AbiCache.FreshRecordFits: the on-chain proxy probe, the row choice and the HTTP lookups are one answer each; contract names and source labels play no part.
- AbiThreads.InterleavedAnswersOwnQuestion: a call's sources are one answer each, fixed for the call; two calls may be answered differently.
- MetadataCache.TransparentExactly: each query has one answer throughout a run; when data changes, `EveryRunSound` bounds how old an answer can be.
- MetadataCache.EveryRunSound: the time a query takes to execute counts before it is stored, so freshness is measured from the moment of storing, as the code does.
- Stats.SummaryOrdered: exact reals, without rounding error, NaN or infinities; `valid_efficiency_score` and the timing loops only add arithmetic and clock reads.
- Sampling.SampleBlocksEvenlySpaced: the step is an exact quotient; the code divides in floating point, exact for the block numbers in use only up to 53 bits.
- Splice.SpliceAll: finding the assignments, grouping by file, refusing edits and re-parsing the result are not modelled; lines are given, joined they are the source. `splitlines` also breaks at characters such as a form feed at which `ast` does not count a line; such sources are not part of this model.
- Lessons.ScoreLessons: ASCII lower-casing and white space; records are given with absent fields as empty strings.
- SqlMacros.SqlForValidation: ASCII word characters, and the error does not list the offending macros.
- Dashboard.Compile: panel bodies, variables, tags and style constants are fixed tables and are left out of the tiles.
- Default panel heights, section titles and stopwords are tables of the program, copied as data.
- SqlMacros.ValidatedByPiece: a name like a macro's that is not a complete call is not one of the pieces; `RejectedExactly` covers it.
- Server wiring, safety and security rules, the semantic planner, the user interface and the benchmark cases: no algorithm of the kind proved here.

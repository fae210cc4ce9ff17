# Verified models of the runtime's hard parts

This project models seven parts of a language-model runtime in Dafny and proves what they are
for: the GPU route alignment and grouped matrix kernels of the selected mixture of experts (MoE),
the host MoE provider (worker pool, expert cache, BF16 arithmetic), the prefix cache of the server
bridge, the server's request queue, streamed against finalised text, the analysis scripts that
project what another token-selection rule would have produced, and the tool-call markup of the
chat template.

`dafny verify dfyconfig.toml` checks everything. Each module opens with what it models.

## How things are modelled

- **Concurrency.** The routing kernels and the matrix kernels run their programs in every order: a
  loop picks any program with work left and performs one memory operation of it. The worker pool
  and the request queue are state machines with one event per atomic operation; results are about
  every state of every run.
- **Arithmetic.** Kernel sums are exact integers; activation and final rounding are arbitrary
  functions. The lane-tree dot product is generic in a non-associative addition. BF16 and F32
  values are exact integers in units of 2^-149.
- **Foreign code.** Mapping and copying of expert weights, the engine's prefill and decode, memory
  allocation, callbacks and the exact first-token provider succeed or fail arbitrarily. The
  semaphore is first in, first out, gives a released permit to the head waiter, and grants nothing
  once closed. The tokenizer is any function from token sequences to an optional text. The JSON
  reader follows RFC 8259 with the library's nesting limit of 128; which numbers fit its number
  type is a parameter.
- **Logs.** The analysis scripts start from parsed steps. Soundness quantifies over every model
  consistent with the log and every hidden order of the exact logits; a run is the server's letter
  loop (stop at the first token A-J or at capacity).

## Where a promise fails, and exactly when

- Streaming equals batch finalisation for every prefix-monotone decoding if and only if no stop
  sequence that has no shorter stop as a prefix contains another stop strictly inside
  (`StreamAgreement.ExactCondition`).
- If a decoding may also end in a U+FFFD where the final text has another non-ASCII character or ends,
  they agree if and only if, beyond that, no stop is split and none swallows
  (`StreamAgreement.ChangingCondition`). A stop is split when it has a non-ASCII character other than
  U+FFFD after its beginning, no stop starts the text that has U+FFFD in that place, and either a stop
  occurs further on in that text or the bytes held back are too few to keep the stop's first
  character. A stop swallows when it ends in U+FFFD, no stop starts what precedes that, and it is
  longer than U+FFFD alone or some non-ASCII character is not itself a stop. ASCII stops do neither
  (`StreamAgreement.AsciiStops`).
- `float_to_bf16` keeps a NaN a NaN only for magnitudes strictly between 0x7F808000 and 0x7FFF8000
  (`Bf16.NanSurvives`).
- Tool calls whose names and keys are trimmed, not empty and without `>` read back if and only if no
  name and no key ends in `</tool_call`; otherwise the whole list is malformed
  (`MarkupLimits.NamesDecide`). A string argument reads back as itself exactly when it is not JSON
  text (`MarkupLimits.StringSurvives`).
- A row that the smaller-window projection leaves open can be incorrect, and can be correct exactly
  when the run does not diverge at its last position or the right answer is among the eligible
  candidates (`WindowTightness.OpenIsUndecided`).
- A question that the policy projection leaves open can be wrong, and can be right exactly when the
  policy's last departure from the logs is not at the last position (`PolicyTightness.InexactIsOpen`).
- The script's judgement that a missing row could be correct under a larger window is wider than need
  be: it also counts candidates that the active window admits and did not pick
  (`LargerTightness.JudgedTooWide`). Such a row can be correct exactly when it was, or when a newly
  admitted candidate is the right answer or leaves room for one (`LargerTightness.RightExactly`).
- A JSON value survives printing and reading exactly when its numbers are valid and in range, its keys
  ascend and it nests at most 127 deep (`JsonDomain.TextRoundTripExactly`).
- An entry whose last-use tick is 2^64 - 1 is never evicted, because the search for the oldest
  entry starts from that value (`ExpertCache.Provider.EvictOne`).

## Model

| member | source | states |
|---|---|---|
| RouteAlignment.RoutingBuffers.RouteCountKernel | native/generators/compile_q8192_triton_selected_moe.py:129-138 | under every interleaving, row p+1 holds the number of routes per expert in program p's chunk |
| RouteAlignment.RoutingBuffers.RoutePrefixByProgramKernel | native/generators/compile_q8192_triton_selected_moe.py:140-148 | under every interleaving, every cell becomes the sum of its column up to that row |
| RouteAlignment.ColumnSumIsCount | native/generators/compile_q8192_triton_selected_moe.py:129-148 | those column sums count the expert's routes in all earlier chunks |
| RouteAlignment.RoutingBuffers.RoutePaddedPrefixKernel | native/generators/compile_q8192_triton_selected_moe.py:150-159 | cumsum holds where each expert's padded run begins and the total its padded length |
| RouteAlignment.RoutingBuffers.RouteScatterKernel | native/generators/compile_q8192_triton_selected_moe.py:161-187 | under every interleaving, each route lands in its slot, padding keeps the sentinel and every block is owned by its expert |
| RouteAlignment.RoutingBuffers.AlignRoutes | native/providers/triton_moe/qrt_triton_moe_q8192_provider.cpp:2854-2915 | from cleared buffers the four kernels produce the stable padded sort of the routes |
| RouteAlignment.SlotStable | native/generators/compile_q8192_triton_selected_moe.py:161-187 | routes of one expert keep their order |
| RouteAlignment.SlotInjective | native/generators/compile_q8192_triton_selected_moe.py:161-187 | no two routes share a slot |
| RouteAlignment.SlotInRun | native/generators/compile_q8192_triton_selected_moe.py:150-187 | a route's slot lies in its expert's run, inside the padded total |
| RouteAlignment.SlotOwner | native/generators/compile_q8192_triton_selected_moe.py:161-187 | the block that holds a route is owned by the route's expert |
| RouteAlignment.LoadSumTotal | native/generators/compile_q8192_triton_selected_moe.py:129-159 | the expert loads add up to the number of routes |
| RouteAlignment.PaddedLengthFits | native/generators/compile_q8192_triton_selected_moe.py:58-59 | the padded length is a multiple of the block size and within the allocated maximum |
| GroupedLaunch.GroupedPid | native/generators/compile_q8192_triton_selected_moe.py:190-198 | every program index gets a tile of the grid |
| GroupedLaunch.TileHasProgram | native/generators/compile_q8192_triton_selected_moe.py:190-198 | every tile belongs to a program, also in the ragged last group |
| GroupedLaunch.ProgramHasTile | native/generators/compile_q8192_triton_selected_moe.py:190-198 | the program of a program's tile is that program: with the row above, a bijection for every group size |
| GroupedMatmul.LaneStores | native/generators/compile_q8192_triton_selected_moe.py:201-327 | for each route and column some lane stores to that element |
| GroupedMatmul.StoreHasLane | native/generators/compile_q8192_triton_selected_moe.py:201-327 | every lane that stores belongs to a real route and column: padding never writes |
| GroupedMatmul.OneStorePerElement | native/generators/compile_q8192_triton_selected_moe.py:201-327 | each element is stored by exactly one lane |
| GroupedMatmul.BlockedDot | native/generators/compile_q8192_triton_selected_moe.py:242-248 | the blocked accumulation equals the full dot product |
| GroupedMatmul.MatrixBuffers.GateUpSiluKernel | native/generators/compile_q8192_triton_selected_moe.py:201-267 | in every order of lanes, each activation is that of the route's own expert, gate row j paired with up row j + 512 |
| GroupedMatmul.MatrixBuffers.DownKernel | native/generators/compile_q8192_triton_selected_moe.py:270-327 | in every order of lanes, each output is the product with the route's own expert's row |
| GroupedMatmul.LaunchCovers | native/generators/compile_q8192_triton_selected_moe.py:201-327 | a grid sized by the allocated maximum covers the padded routes |
| GroupedMatmul.ShapeTiles | native/generators/compile_q8192_triton_selected_moe.py:62-126 | accepted shapes tile both matrices without remainder |
| GroupedMatmul.RunMatrices | native/generators/compile_q8192_triton_selected_moe.py:201-327 | both kernels on aligned routes give the naive outputs |
| GroupedMatmul.SelectedMoe | native/generators/compile_q8192_triton_selected_moe.py:129-327 | sort, pad and tile equals multiplying every route by its own expert's rows, for every accepted shape and every program order |
| NestedMoe.GateUpRowMeans | native/generators/compile_q8192_triton_selected_moe.py:235-240 | in the row-major flattening of the experts' matrices, the gate/up row address leads to that expert's row |
| NestedMoe.DownRowMeans | native/generators/compile_q8192_triton_selected_moe.py:301-306 | so does the down row address |
| NestedMoe.OutputMeans | native/generators/compile_q8192_triton_selected_moe.py:201-327 | the flat specification is the formula over matrices: endpoint of the sum over j of act(x . w[e][j], x . w[e][j + 512]) times d[e][c][j], for the route's expert e and its token, one of eight routes each |
| NestedMoe.MoeOfMatrices | native/generators/compile_q8192_triton_selected_moe.py:129-327 | the whole launch on flattened matrices gives that formula for every route and column |
| WorkerPool.StepKeeps | native/providers/q1_moe_avx512bf16_host_provider.cpp:157-257 | every step of dispatcher and workers keeps the protocol invariant |
| WorkerPool.DoneMeansRun | native/providers/q1_moe_avx512bf16_host_provider.cpp:196-245 | when all workers have reported, every index ran once and the counter is the task count plus 16 |
| WorkerPool.ReturnsExact | native/providers/q1_moe_avx512bf16_host_provider.cpp:196-245 | in every run the k-th returned report answers the k-th call of parallel_for: its count is that call's argument, every index below it ran exactly once and none beyond it, and the counter stands at the argument plus 16; all calls but a running one have returned |
| WorkerPool.CallsAreKnown | native/providers/q1_moe_avx512bf16_host_provider.cpp:196-245 | the published count and the reports are always those of the calls made so far |
| WorkerPool.ReportAnswers | native/providers/q1_moe_avx512bf16_host_provider.cpp:196-245 | each report has the count of its own call |
| WorkerPool.NoStaleTask | native/providers/q1_moe_avx512bf16_host_provider.cpp:196-245 | in every run a worker in the task loop holds the current epoch's task |
| WorkerPool.ProperStepLowers | native/providers/q1_moe_avx512bf16_host_provider.cpp:196-245 | every step but a spurious wake-up or a new dispatch lowers the measure |
| WorkerPool.MeasureNatural | native/providers/q1_moe_avx512bf16_host_provider.cpp:196-245 | the measure is never negative |
| WorkerPool.NeverStuck | native/providers/q1_moe_avx512bf16_host_provider.cpp:196-245 | until the dispatch returns some such step is enabled |
| ExpertCache.Provider.FindEntry | native/providers/q1_moe_avx512bf16_host_provider.cpp:952-961 | finds an entry of the current generation with the key exactly when there is one |
| ExpertCache.Provider.EvictOne | native/providers/q1_moe_avx512bf16_host_provider.cpp:1005-1026 | evicts the least recently used unpinned, unprotected entry, exactly when there is one below the largest tick |
| ExpertCache.Provider.MakeRoom | native/providers/q1_moe_avx512bf16_host_provider.cpp:1525-1533 | makes room within both capacities or leaves only entries that may not go; every victim is recorded against the entries the call started from |
| ExpertCache.EvictStep | native/providers/q1_moe_avx512bf16_host_provider.cpp:1005-1026 | one eviction from a full cache extends the history: the victim is an old entry, unpinned, unprotected and least recently used among those still there |
| ExpertCache.VictimsAreOldest | native/providers/q1_moe_avx512bf16_host_provider.cpp:1005-1026 | no victim is younger than an entry that the call left alone |
| ExpertCache.UnprotectedExists | native/providers/q1_moe_avx512bf16_host_provider.cpp:1005-1026 | more entries than protected keys leave an unprotected one |
| ExpertCache.RemoveKeeps | native/providers/q1_moe_avx512bf16_host_provider.cpp:1005-1026 | eviction keeps keys unique and every entry its source slice |
| ExpertCache.AddKeeps | native/providers/q1_moe_avx512bf16_host_provider.cpp:1534-1605 | so does adding a filled entry |
| ExpertCache.Provider.Admit | native/providers/q1_moe_avx512bf16_host_provider.cpp:1450-1605 | one priority is present exactly when it is protected or cached, mapped only if it can be filled, and fails exactly when it is inadmissible, cannot be filled or the capacity is all protected; room is made before the fill is tried; a stale entry cannot be met |
| ExpertCache.TakeDistinctStep | native/providers/q1_moe_avx512bf16_host_provider.cpp:1448-1605 | the first C distinct admissible experts grow by one at a time in priority order |
| ExpertCache.PrioritiesAre | native/providers/q1_moe_avx512bf16_host_provider.cpp:1448-1605 | the admissible experts are the requested ones below 256 whose slices start below 2^64, each once |
| ExpertCache.PrioritiesInOrder | native/providers/q1_moe_avx512bf16_host_provider.cpp:1448-1605 | in the order in which the request names them first |
| ExpertCache.CapacityMeans | native/providers/q1_moe_avx512bf16_host_provider.cpp:1525-1533 | the capacity is the largest number of pairs of 6291456 bytes within both limits |
| ExpertCache.Provider.Prewarm | native/providers/q1_moe_avx512bf16_host_provider.cpp:1420-1605 | mapped + present + failed = requested; the cache is the kept old entries in order, only protected ones with new ticks, followed by the added pairs, each of which could be filled; every other old entry was evicted once, from a full cache, as the least recently used unpinned and unprotected one; with successful fills exactly the first min(C, d) distinct admissible experts are protected |
| ExpertCache.Provider.ReplaceSource | native/providers/q1_moe_avx512bf16_host_provider.cpp:1420-1444 | a new source empties the cache, starts a new generation and never meets a pinned entry |
| ExpertCache.Provider.PinRoutes | native/providers/q1_moe_avx512bf16_host_provider.cpp:2071-2087 | each route's entry gains one pin per route that hits it and the next tick of the clock, in route order; entries that no route hits keep their tick; misses are counted |
| ExpertCache.PinOne | native/providers/q1_moe_avx512bf16_host_provider.cpp:2071-2087 | pinning one more route keeps the pin counts equal to the routes that hit |
| ExpertCache.UsedNext | native/providers/q1_moe_avx512bf16_host_provider.cpp:2079-2084 | one more lookup advances the clock exactly on a hit and gives the entry that tick |
| ExpertCache.Provider.UnpinRoutes | native/providers/q1_moe_avx512bf16_host_provider.cpp:2095-2101 | all pins return to zero |
| ExpertCache.Provider.Run | native/providers/q1_moe_avx512bf16_host_provider.cpp:2039-2281 | pins are zero again afterwards, hit entries carry new ticks in route order and the others their old ones, a miss is reported exactly when a route's expert is absent, invalid routes change nothing, and hits read the current source's slices |
| ExpertCache.UsedIsYounger | native/providers/q1_moe_avx512bf16_host_provider.cpp:2079-2084 | after a run every entry it hit is younger than every entry it did not |
| ExpertCache.Provider.RunThenPrewarm | native/providers/q1_moe_avx512bf16_host_provider.cpp:1448-2281 | a prewarm after a run evicts no entry that the run hit while an evictable one that it did not hit is left |
| ExpertCache.Provider.ServeRuns | native/providers/q1_moe_avx512bf16_host_provider.cpp:1448-2281 | after a successful prewarm all runs over its experts hit on all routes and read the right slices |
| Bf16.RoundsToNearest | native/providers/q1_moe_avx512bf16_host_provider.cpp:81-86 | the result is at least as near as any BF16 number, and the even one of two that are equally near (section 4.3.1 of IEEE 754-2019) |
| Bf16.BiasRounds | native/providers/q1_moe_avx512bf16_host_provider.cpp:81-86 | the bias trick rounds the magnitude, keeps the sign and never leaves 16 bits |
| Bf16.OverflowMidpoint | native/providers/q1_moe_avx512bf16_host_provider.cpp:81-86 | infinity results exactly from the midpoint above the largest BF16 number on |
| Bf16.RoundingMonotone | native/providers/q1_moe_avx512bf16_host_provider.cpp:81-86 | rounding keeps numeric order |
| Bf16.WideningRoundTrip | native/providers/q1_moe_avx512bf16_host_provider.cpp:74-86 | narrowing inverts widening |
| Bf16.NanSurvives | native/providers/q1_moe_avx512bf16_host_provider.cpp:81-86 | exactly which NaNs stay NaNs |
| Bf16.OrderedIsNumeric | scripts/analyze_mmlu_inverse_window.py:158-160 | the integer order preserves and reflects the numeric order, with both zeros equal |
| WaveDot.TreeSum | native/providers/q1_moe_avx512bf16_host_provider.cpp:98-105 | for any power-of-two lane count and any addition, lane 0 ends as the butterfly tree of the original lanes |
| WaveDot.Reduce | native/providers/q1_moe_avx512bf16_host_provider.cpp:98-105 | one in-place pass adds partner nodes although upper lanes are updated too |
| WaveDot.NodeIsTree | native/providers/q1_moe_avx512bf16_host_provider.cpp:98-105 | the strided nodes of the loop are the recursive even/odd tree |
| WaveDot.Wave32Dot | native/providers/q1_moe_avx512bf16_host_provider.cpp:107-145 | the result is the tree of the 32 strided lane folds, in exactly that order of operations |
| WaveDot.TreeIsSum | native/providers/q1_moe_avx512bf16_host_provider.cpp:98-105 | with exact addition the tree is the sum |
| WaveDot.LaneSum | native/providers/q1_moe_avx512bf16_host_provider.cpp:107-145 | with exact arithmetic the lanes together hold the whole dot product |
| WaveDot.ExactWave32Dot | native/providers/q1_moe_avx512bf16_host_provider.cpp:107-145 | with exact arithmetic the result is the full dot product |
| LetterRun.ExactLetters | native/src/qrt_server_bridge.c:572-834 | completes exactly with the run to the first letter or capacity, every token accepted; otherwise a refusal, missing memory, the context limit or the provider stopped it |
| LetterRun.PathInRun | native/src/qrt_server_bridge.c:636-679 | every path a rule takes starts the rule's run |
| LetterRun.RunUnique | native/src/qrt_server_bridge.c:636-679 | a rule has at most one run |
| PrefixBridge.AbsorbAppend | native/src/qrt_server_bridge.c:938-985 | a state continued with the suffix is the state of the whole input |
| PrefixBridge.Engine.Request | native/src/qrt_server_bridge.c:986-996 | an ordinary request returns uncached generation; once accepted it leaves a session only for its own input, and before that it leaves the session alone |
| PrefixBridge.Engine.PrefixRequest | native/src/product_cli.c:1099-1124 | succeeds only when the live session is exactly the prefix, and then returns uncached generation for the whole input |
| PrefixBridge.CommonPrefixTokens | native/src/qrt_server_bridge.c:63-78 | the longest common prefix |
| PrefixBridge.SelectRoute | native/src/qrt_server_bridge.c:843-892 | the prefix route is chosen exactly for 1 to 512 outputs and 2 to 8191 input tokens beyond the minimum; its suffix is at most 1024 and suffix plus outputs less one at most 1536 tokens; the prefix is the resident record where that fits, else what the previous request shares, else all but the last token |
| PrefixBridge.Bridge.Seed | native/src/qrt_server_bridge.c:894-936 | the record names the prefix after success and is empty after failure |
| PrefixBridge.Bridge.ServePrefix | native/src/qrt_server_bridge.c:938-985 | success exactly when the engine holds the prefix; a failure clears the record |
| PrefixBridge.Bridge.ServeOrdinary | native/src/qrt_server_bridge.c:986-1007 | a failure leaves both records as they were |
| PrefixBridge.Bridge.Request | native/src/qrt_server_bridge.c:843-1031 | whatever happened before and whatever fails, a result is the uncached generation for its own input; the route and its limits are those of the records before the call; without failures the record stays true and the request succeeds |
| PrefixBridge.Bridge.ServeHistory | native/src/qrt_server_bridge.c:843-1031 | the same for every history of requests |
| RequestQueue.CountsFollow | engine/qrt-server/src/api.rs:177-215 | each atomic operation changes each counter exactly as it changes the request's standing |
| RequestQueue.CountersKept | engine/qrt-server/src/api.rs:134-269 | every counter always equals the number of requests in the standings it counts |
| RequestQueue.ConsistencyKept | engine/qrt-server/src/api.rs:1311-1365 | requests that act on the permit hold it, and suspended ones are granted, in line or shut out |
| RequestQueue.OrderKept | engine/qrt-server/src/api.rs:1341-1353 | started waiters precede all that still wait, in ticket order |
| RequestQueue.LateKept | engine/qrt-server/src/api.rs:172-175 | after closing, at most one start, and then none can follow |
| RequestQueue.InvKept | engine/qrt-server/src/api.rs:1311-1365 | all of this is kept by every event, cancellation and timeout included |
| RequestQueue.ActiveAtMostOne | engine/qrt-server/src/api.rs:198-215 | at most one request is active |
| RequestQueue.Partition | engine/qrt-server/src/api.rs:1311-1365 | every arrival has exactly one standing |
| RequestQueue.Safety | engine/qrt-server/src/api.rs:1311-1365 | in every state of every run: active at most 1, waiting at most the maximum, first-in-first-out starts, at most one late start, and counters that add up with the requests in between |
| RequestQueue.EventLowers | engine/qrt-server/src/api.rs:1311-1365 | every event but an arrival lowers a natural-number measure |
| RequestQueue.NeverStuck | engine/qrt-server/src/api.rs:1311-1365 | while a request is unsettled some operation is enabled |
| RequestQueue.SettledTotals | engine/qrt-server/src/api.rs:1311-1365 | when all are settled the counters account for every arrival and the permit is free |
| QueueOutcomes.StoppedBefore | engine/qrt-server/src/api.rs:172-175 | the server does not accept only after it was told to stop |
| QueueOutcomes.TurnedAwayCause | engine/qrt-server/src/api.rs:1313-1334 | a request is turned away as shut down only after that |
| QueueOutcomes.FullCause | engine/qrt-server/src/api.rs:1336-1341 | a request is rejected as one too many only if the line was full when it claimed a place |
| QueueOutcomes.GaveUpCause | engine/qrt-server/src/api.rs:1342-1364 | a request times out only by its own deadline and is cancelled only by its own caller |
| QueueOutcomes.OutcomeCause | engine/qrt-server/src/api.rs:1311-1365 | every outcome other than being served has its cause in the run |
| QueueOutcomes.OtherwiseServed | engine/qrt-server/src/api.rs:1311-1365 | without shutdown, a settled request that met no full line, no deadline and no cancellation was served |
| QueueOutcomes.EntryCause | engine/qrt-server/src/api.rs:1313-1318 | only a request that met an accepting server gets past the door |
| QueueOutcomes.JoinCause | engine/qrt-server/src/api.rs:1319-1334 | only a request that found the permit taken goes for the line |
| QueueOutcomes.ClaimCause | engine/qrt-server/src/api.rs:177-197 | only one that asked while the server accepted gets a place |
| QueueOutcomes.ReportCause | engine/qrt-server/src/api.rs:1336-1341 | only an accepting server reports a full line as such |
| QueueOutcomes.StartCause | engine/qrt-server/src/api.rs:1319-1355 | a request that starts came through the line or had the permit while the server still accepted |
| TextStream.EarliestStop | engine/qrt-server/src/api.rs:1470-1475 | the least position of any stop, or that there is none |
| TextStream.TieBreak | engine/qrt-server/src/api.rs:1470-1475 | at that position the first stop in list order is reported |
| TextStream.TextStreamState.Update | engine/qrt-server/src/api.rs:1438-1467 | a delta is what the emitted text grows by; while more may follow and no stop shows, the emitted text becomes the longest prefix that ends at a character boundary and leaves out at least the longest stop less one byte, and three bytes if the text ends in U+FFFD |
| TextStream.HoldIsHeld | engine/qrt-server/src/api.rs:1446-1460 | the hold-back rule is that longest prefix |
| TextStream.NothingHeld | engine/qrt-server/src/api.rs:1446-1460 | without stops and without a trailing U+FFFD everything is emitted at once |
| TextStream.StepProceeds | engine/qrt-server/src/api.rs:1438-1467 | each update proceeds exactly that far, or to the stop, or to the end of the final text |
| StreamAgreement.HeldIsFinal | engine/qrt-server/src/api.rs:1438-1467 | what is let through before a stop shows up stays before the final text's stop |
| StreamAgreement.EarliestIsFinal | engine/qrt-server/src/api.rs:1438-1467 | without nested stops, a stop found early is the final text's earliest stop |
| StreamAgreement.StreamingAgrees | engine/qrt-server/src/api.rs:1438-1467 | streamed settling texts add up to the batch result |
| StreamAgreement.NestedDisagrees | engine/qrt-server/src/api.rs:1438-1467 | each nested pair of stops gives a history that streams too much |
| StreamAgreement.ExactCondition | engine/qrt-server/src/api.rs:1438-1467 | all prefix-monotone histories agree if and only if the stops are not nested |
| StreamAgreement.ChangedIsFinal | engine/qrt-server/src/api.rs:1438-1467 | for stops that are not fragile, a text whose trailing U+FFFD changes lets through only what the batch result has |
| StreamAgreement.SplitDisagrees | engine/qrt-server/src/api.rs:1446-1460 | each stop that is split gives a history that streams its beginning although the batch result is empty |
| StreamAgreement.SwallowDisagrees | engine/qrt-server/src/api.rs:1446-1460 | each stop that swallows gives a history that streams nothing although the batch result is not empty |
| StreamAgreement.ChangingCondition | engine/qrt-server/src/api.rs:1438-1467 | all well-formed histories that are prefixes up to a changing trailing U+FFFD agree if and only if the stops are neither nested nor split nor swallowing |
| StreamAgreement.AsciiStops | engine/qrt-server/src/api.rs:1438-1467 | for ASCII stops only nesting matters |
| Finalisation.DecodeCount | engine/qrt-server/src/api.rs:1390-1396 | the position of the first honoured end-of-sequence token |
| Finalisation.ShortestPrefix | engine/qrt-server/src/api.rs:1404-1412 | the shortest non-empty token prefix whose decoding contains the stop, unless an earlier one cannot be decoded |
| Finalisation.FinalizeTokens | engine/qrt-server/src/api.rs:1375-1421 | text up to the earliest stop, shortest token prefix, finish and stop reasons, and exactly when it fails |
| Finalisation.StreamTokens | engine/qrt-server/src/api.rs:1161-1186 | the deltas of a whole streaming request add up to the finalised text, and after each token exactly what the hold-back rule lets through has been sent |
| WindowSteps.DistancesDefined | scripts/analyze_mmlu_inverse_window.py:163-179 | distances are non-negative and zero exactly for maximal logits; the negative-distance error is unreachable |
| WindowSteps.AcceptedExactly | scripts/analyze_mmlu_inverse_window.py:163-179 | a step is accepted exactly when its candidates are distinct, the sampled one is first with the logged value, and no logit is infinite or NaN |
| WindowSteps.DistanceOf | scripts/analyze_mmlu_inverse_window.py:163-179 | logged distances are those of the model's unordered candidates |
| InverseWindow.SmallerKeepsWinner | scripts/analyze_mmlu_inverse_window.py:211-214 | a winner that stays eligible in a smaller window stays the winner |
| InverseWindow.SmallerWindowSound | scripts/analyze_mmlu_inverse_window.py:191-256 | a definite projection is the true result for every hidden logit order and model consistent with the log |
| InverseWindow.ProjectionDefined | scripts/analyze_mmlu_inverse_window.py:207-222 | accepted steps always have a smaller-window candidate |
| InverseWindow.AnyEligibleCanWin | scripts/analyze_mmlu_inverse_window.py:227-243 | each eligible candidate is the choice for some hidden order that explains the log, so mixed answers must stay open |
| InverseWindow.ScorePartition | scripts/analyze_mmlu_inverse_window.py:463-473 | known correct, known incorrect and unresolved rows add up to all rows |
| InverseWindow.SmallerScoreInterval | scripts/analyze_mmlu_inverse_window.py:463-488 | the true score lies between known correct and known correct plus unresolved |
| WindowTightness.OpenIsUndecided | scripts/analyze_mmlu_inverse_window.py:223-243 | a row left open has a consistent model and order under which it is incorrect, and one under which it is correct exactly when there is room for the right answer |
| WindowTightness.RefusedExactly | scripts/analyze_mmlu_inverse_window.py:191-222 | a row is refused exactly for a bad answer, a negative window or a step that is not accepted before the divergence |
| WindowTightness.KeptExactly | scripts/analyze_mmlu_inverse_window.py:207-214 | the log is kept exactly when the window admits every logged token |
| WindowTightness.LeftExactly | scripts/analyze_mmlu_inverse_window.py:223-256 | otherwise an answer is predicted exactly when it is the only candidate left |
| WindowTightness.DefinitePossible | scripts/analyze_mmlu_inverse_window.py:191-256 | a definite projection does occur |
| WindowTightness.IntervalAttained | scripts/analyze_mmlu_inverse_window.py:463-488 | the reported minimum is attained, and the maximum when every open row has room for its right answer |
| RouteReplay.NearestExcluded | scripts/analyze_mmlu_inverse_window.py:426-436 | the nearest distance beyond the active window |
| RouteReplay.OutsideUnchanged | scripts/analyze_mmlu_route_replay.py:112-177 | rows outside the replay set follow exactly the logged path under the larger window |
| RouteReplay.CouldBeCorrect | scripts/analyze_mmlu_route_replay.py:180-219 | for a logged row, true exactly when its answer was right or some candidate in the window leaves the log without being a wrong answer |
| RouteReplay.JudgedIncorrect | scripts/analyze_mmlu_route_replay.py:180-219 | a row judged unable to be correct is incorrect for every choice within the window and every continuation |
| LargerTightness.ReplayExactly | scripts/analyze_mmlu_route_replay.py:112-177 | a row is in the replay set if and only if some model and order that explain its log make the larger window take another path |
| LargerTightness.RightExactly | scripts/analyze_mmlu_route_replay.py:180-219 | a row can be correct under the larger window if and only if it was correct, or a newly admitted candidate is the right answer or leaves room for one |
| LargerTightness.WrongExactly | scripts/analyze_mmlu_route_replay.py:180-219 | it can be incorrect if and only if it was incorrect or a newly admitted candidate is not the right answer |
| LargerTightness.RightIsJudged | scripts/analyze_mmlu_route_replay.py:180-219 | every row that can be correct is judged so |
| LargerTightness.JudgedTooWide | scripts/analyze_mmlu_route_replay.py:180-219 | but not only those: a row opened by a candidate that the active window admits already cannot be correct |
| RouteReplay.ScoreBounds | scripts/analyze_mmlu_route_replay.py:467-500 | the bounds enclose every total the results leave possible, and both are attained |
| RouteReplay.WorldExplains | scripts/analyze_mmlu_route_replay.py:467-500 | the true result of every row is one the bounds allow for |
| ReplaySet.BuildBuckets | scripts/analyze_mmlu_inverse_window.py:426-436 | each bucket lists, in row order, the rows with that nearest excluded distance |
| ReplaySet.CollectBuckets | scripts/analyze_mmlu_route_replay.py:149-170 | the union of the buckets, refused exactly when one is missing, repeats a row or overlaps |
| ReplaySet.ExpectedReplayIds | scripts/analyze_mmlu_route_replay.py:112-177 | the selected rows in base order, refused exactly when the buckets are inconsistent or name unknown rows |
| ReplaySet.KeepInOrder | scripts/analyze_mmlu_route_replay.py:171-177 | the selected rows keep their order and number |
| ReplaySet.BucketInOrder | scripts/analyze_mmlu_inverse_window.py:426-436 | a bucket grows only at its end, row by row |
| ReplaySet.ReplayRows | scripts/analyze_mmlu_route_replay.py:112-177 | analysis and collection together give exactly the rows whose nearest excluded distance the target reaches |
| ReplayScore.TruthExplained | scripts/analyze_mmlu_route_replay.py:467-500 | every list of results that the rows can have under the larger window, given the replays, is one the bounds allow for |
| ReplayScore.LargerWindowScore | scripts/analyze_mmlu_route_replay.py:407-500 | with replay set, flags and bounds computed from the logs, the true total lies within the reported bounds, which are the least and greatest totals that the flags allow and coincide for a complete replay; well-formed complete inputs are never refused |
| CardinalityPolicy.SelectIsPolicy | scripts/analyze_mmlu_bf16_window_cardinality_policy.py:47-95 | the list code picks what the policy says about the unordered candidates, and refuses exactly windows beyond 64, masks beyond 63 or without window 2, counts outside 2 to 5 or listed twice, and unsupported shapes |
| CardinalityPolicy.OrderIndependent | scripts/analyze_mmlu_bf16_window_cardinality_policy.py:47-95 | selection does not depend on candidate order |
| CardinalityPolicy.SignatureIsShape | scripts/analyze_mmlu_bf16_window_cardinality_policy.py:82-93 | the sorted signature is decided by how many candidates are 0, 1 and 2 below the best |
| CardinalityPolicy.BitsMakeMask | scripts/analyze_mmlu_bf16_window_cardinality_policy.py:82-93 | the mask is the sum of 2^i over its shapes |
| CardinalityPolicy.ProjectionSound | scripts/analyze_mmlu_bf16_window_cardinality_policy.py:98-124 | an exact projection of a path is the policy's true result for every model consistent with the log |
| CardinalityPolicy.QuestionSound | scripts/analyze_mmlu_bf16_window_cardinality_policy.py:344-366 | so is the combination of base path and replay path |
| CardinalityPolicy.PolicyScore | scripts/analyze_mmlu_bf16_window_cardinality_policy.py:332-420 | the counters are the numbers of exact correct and of inexact questions, and the policy's true score lies between the first and their sum |
| PolicyTightness.CasesFrom | scripts/analyze_mmlu_bf16_window_cardinality_policy.py:98-124 | a projection is inexact only where the policy leaves the log for a token that is no answer |
| PolicyTightness.PathRefused | scripts/analyze_mmlu_bf16_window_cardinality_policy.py:98-124 | a path is refused exactly when the policy refuses a step before it leaves or ends the log |
| PolicyTightness.OpenDeparts | scripts/analyze_mmlu_bf16_window_cardinality_policy.py:344-366 | an open question has a last departure, which leads where neither log goes |
| PolicyTightness.InexactIsOpen | scripts/analyze_mmlu_bf16_window_cardinality_policy.py:344-366 | an open question can be wrong, and can be right if and only if there is room for an answer after the last departure |
| PolicyTightness.ExactPossible | scripts/analyze_mmlu_bf16_window_cardinality_policy.py:344-366 | an exact projection does occur |
| PolicyTightness.PolicyIntervalAttained | scripts/analyze_mmlu_bf16_window_cardinality_policy.py:332-420 | the reported minimum is attained, and the maximum when every open question has room for an answer |
| Json.EscapeReadsBack | engine/qrt-server/src/chat.rs:326-356 | every character's escape reads back as that character |
| Json.PairReadsBack | engine/qrt-server/src/chat.rs:344-352 | so do surrogate pairs (section 7 of RFC 8259) |
| Json.StringReadsBack | engine/qrt-server/src/chat.rs:326-356 | a printed string reads back, whatever follows it |
| Json.ValueReadsBack | engine/qrt-server/src/chat.rs:325-394 | so does every printable value |
| Json.TextRoundTrip | engine/qrt-server/src/chat.rs:325-394 | printed text reads back as the same value |
| JsonDomain.InsertMeans | engine/qrt-server/src/chat.rs:578-579 | insertion puts the value under its key, keeps all other fields and their order |
| JsonDomain.NumberRead | engine/qrt-server/src/chat.rs:575-577 | the text of a number that was read is a number (section 6 of RFC 8259) |
| JsonDomain.TextIsPrintable | engine/qrt-server/src/chat.rs:575-577 | text reads only as values with valid numbers, ascending keys and at most 127 levels |
| JsonDomain.TextRoundTripExactly | engine/qrt-server/src/chat.rs:325-394 | a value reads back from its printed text if and only if it is such a value |
| JsonDomain.ReadingIsStable | engine/qrt-server/src/chat.rs:325-394 | reading, printing and reading again gives the same value |
| Json.PrintSafe | engine/qrt-server/src/chat.rs:325-394 | printed text is printable ASCII without angle brackets |
| ToolMarkup.ParseParameters | engine/qrt-server/src/chat.rs:555-579 | the parameter loop reads what the recursive reading of the parameters says |
| ToolMarkup.ParseCalls | engine/qrt-server/src/chat.rs:474-507 | the call loop collects the calls in order or reports malformed markup |
| ToolMarkup.ParseAssistantOutput | engine/qrt-server/src/chat.rs:456-508 | reasoning, content and calls are those of the recursive reading |
| ToolMarkup.ArgumentReadsBack | engine/qrt-server/src/chat.rs:278-287 | a good argument value reads back from between its markup |
| ToolMarkup.BodyAvoids | engine/qrt-server/src/chat.rs:266-293 | a good call contains no end of call inside |
| ToolMarkup.CallReadsBack | engine/qrt-server/src/chat.rs:523-588 | a good call's body reads back as the same name and arguments |
| ToolMarkup.CallsReadBack | engine/qrt-server/src/chat.rs:266-293 | rendered calls read back in order |
| ToolMarkup.VisibleRoundTrip | engine/qrt-server/src/chat.rs:264-293 | content and calls read back |
| ToolMarkup.RoundTrip | engine/qrt-server/src/chat.rs:244-294 | reasoning, content and calls read back from the rendered assistant message |
| MarkupLimits.StringSurvives | engine/qrt-server/src/chat.rs:575-577 | a string argument reads back as itself exactly when it is not JSON text |
| MarkupLimits.ClosingBreaks | engine/qrt-server/src/chat.rs:475-495 | a name or key that ends in the closing markup without its bracket makes the call malformed, whatever precedes and follows it |
| MarkupLimits.InsideFunction | engine/qrt-server/src/chat.rs:549-579 | a parameter list cut where a value or key mentions the end of a function is malformed |
| MarkupLimits.NamesDecide | engine/qrt-server/src/chat.rs:456-588 | plain calls read back if and only if no name and no key ends in the closing markup; otherwise the list is malformed |
| MarkupLimits.RoundTripExactly | engine/qrt-server/src/chat.rs:244-294 | the same condition decides whether the whole rendered message reads back |
| MarkupForms.TrimMeans | engine/qrt-server/src/chat.rs:510-545 | trimming takes all white space off both ends and nothing else |
| MarkupForms.ArgumentMeans | engine/qrt-server/src/chat.rs:566-577 | a value loses one line break at each end where there is one, and is JSON or else a string |
| MarkupForms.ThinkingOff | engine/qrt-server/src/chat.rs:510-513 | with thinking off there is no reasoning and all of the output is content and calls |
| MarkupForms.UnclosedReasoning | engine/qrt-server/src/chat.rs:514-521 | output without an end of reasoning is all reasoning |
| MarkupForms.MessageForms | engine/qrt-server/src/chat.rs:510-521 | reasoning with or without its opening mark, and any number of line breaks after it, reads back with content and calls |
| MarkupForms.JsonCallExactly | engine/qrt-server/src/chat.rs:523-545 | a body that starts with a brace is a call exactly when it is a JSON object with a string name and, unless left out, an object of arguments |
| MarkupForms.JsonReadsBack | engine/qrt-server/src/chat.rs:523-545 | a call printed as JSON reads back, whatever its name |
| MarkupForms.JsonWithoutArguments | engine/qrt-server/src/chat.rs:523-545 | without arguments it has none |
| MarkupForms.EitherForm | engine/qrt-server/src/chat.rs:523-588 | calls in either form can be bodies of one message |
| MarkupForms.MixedRoundTrip | engine/qrt-server/src/chat.rs:456-508 | content and calls in any mixture of forms read back in order |
| MarkupForms.MergeMeans | engine/qrt-server/src/chat.rs:555-579 | of repeated keys the last value counts |
| MarkupForms.AnyParameters | engine/qrt-server/src/chat.rs:555-579 | parameters in any order, with repeated keys, read as that map |
| MarkupForms.NoName | engine/qrt-server/src/chat.rs:546-556 | a body with an empty name or without the function's end is no call |
| MarkupForms.UnclosedCall | engine/qrt-server/src/chat.rs:474-484 | a call that does not end makes all of the visible text content |
| MarkupForms.BrokenCall | engine/qrt-server/src/chat.rs:485-506 | so does a body that is no call, or other text after a call |

## Left out

- ExpertCache.Provider.Prewarm: the exact protected set is stated while no 64-bit clock tick has wrapped, because an entry with tick 2^64 - 1 cannot be evicted; both prewarm loops share one model that differs in the source's mode.
- ExpertCache.Provider.Run: the expert arithmetic itself is not computed; a run reads the pinned slices and reports an arbitrary finiteness outcome.
- WorkerPool.ReturnsExact: dispatches whose task count plus 16 overflows the 64-bit counter, and the pool's destruction, are not modelled.
- RequestQueue.Safety: counters are unbounded and wait-time statistics are not kept.
- PrefixBridge.Bridge.Request: the exact first-token route is separate (`LetterRun.ExactLetters`), digests are not computed, and the engine is modelled by its contract alone: it drops its session when it accepts an ordinary request, serves a prefix only for exactly that session, and each of its many failure causes is one arbitrary outcome.
- LetterRun.ExactLetters: time sums and their overflow check are not kept; an overflow of the buffer size counts as missing memory.
- Finalisation.StreamTokens: texts are byte sequences; the events seen by the stream are the tokens of the result.
- InverseWindow.SmallerWindowSound: ties of exact logits are part of the hidden order, and the letter tokens are the server's 32 to 41.
- Json.TextRoundTrip: a number is its text; that the library prints numbers so that they read back is taken for granted.
- ToolMarkup.ParseAssistantOutput: call identifiers and the re-encoding of arguments as text are not modelled.
- HTTP routing, authentication, request validation and event framing of the server.
- Win32 mapping, processor detection, library loading, clocks and timing metrics.
- Vector instructions, the SiLU function and the accumulators of other kernels; both appear as arbitrary functions.
- The recurrent generators: a chunked fold equals the whole fold.
- Log parsing, file digests and the remaining audit, evaluation and verification scripts.
- The other roles of the chat template, tool selection and content parts.

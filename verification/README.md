# Models of a native inference provider

This project models the self-contained state machines and the "fast form equals simple form"
transformations of the native provider of a streamed mixture-of-experts engine, and proves properties
of them for all inputs, all schedules and all runs. `dafny verify dfyconfig.toml` checks everything.

Conventions of the models:

- Concurrent protocols (the two worker pools and the expert triple) are transition systems with one
  step per atomic access, mutex section or computed row. Atomics are sequentially consistent. Theorems
  about them quantify over finite runs of any length, with any number of workers and any interleaving.
- Objects whose methods update fields are classes with the same fields; `Valid()` is kept by every
  method, and the methods' postconditions relate the new abstract contents to the old ones.
- Floating point is a type parameter with uninterpreted operations, so two computations agree when they
  build the same term. Real numbers appear only where a claim is algebraic: the attention algebra, cache
  growth, E2M1/E8M0 values with the dot products of them, and prefetch scores.
- Device memory, allocation and kernel launches may fail wherever the source handles the failure. What
  fails is an input of the expert cache's operations, so their contracts say exactly when they succeed.
  Integers are unbounded except where the source tests a limit.

The modules, by source file:

| modules | source |
|---|---|
| GemvPool, GemvPoolInvariant, GemvPoolSafety, GemvPoolLiveness, BatchUnits, BatchActivations, BatchExperts | tools/fused_gemv_batch.c |
| Mxfp4Weights, Mxfp4Lanes, Mxfp4Kernels, Mxfp4DotProduct, Mxfp4Avx2, Mxfp4Matrix, Mxfp4Threads, ExpertTriple, ExpertTripleLiveness | tools/fused_gemv.c |
| ExpertLru, ExpertStrata, ExpertStaging, ExpertRows, ExpertPlans, ExpertCache | native/provider_gate/provider_cuda_moe.cpp |
| MlaGeometry, MlaAttention, MlaDecoding, MlaCache, MlaTransaction, MlaForms | native/provider_gate/provider_mla.cpp |
| DSparkCache | native/provider_gate/provider_dspark_model.cpp |
| KdaTape | native/provider_gate/provider_kda.cpp, native/provider_gate/provider_kda_batch.cpp |
| Bf16Pool, Bf16PoolLiveness | native/provider_gate/provider_bf16_cpu.cpp |
| PilotSelection | native/provider_gate/provider_pilot.cpp |
| ElfTables, ElfDynamic, ElfLayout, ElfImage | native/deltafin-curl-sys-direct/build_support.rs |

`Wrappers` holds the `Option` that all of them share.

Three results contradict what a reader might expect of the code:

- The scale table is said to reproduce multiplication by the scale. It does so exactly for the scale
  bytes 2 to 252 (`TableIsProductExactly`); for 0, 1, 253, 254 and 255 there are codes for which it
  does not, and each of the five has its own counterexample lemma or case of one.
- The version recorded by an MLA transaction does not isolate branches. Two branches opened on one base
  may stage into the same rows, and the first still publishes, with the other's rows over its own. The
  first publishes its own rows if and only if one of the two appends outgrows the capacity, or the two
  agree on the positions they share (`TwoBranches`). While one fork or branch is the only live user of
  its base, any run on it leaves the base alone (`RunFork`, `RunBranch`).
- The last bound check of `parse_gnu_hash` on the derived symbol count can never fail, so
  `ParseGnuHash` has no branch for it.

## Model

| member | source | states |
|---|---|---|
| GemvPoolSafety.ReachableInv | tools/fused_gemv_batch.c:226-362 | every state of every run, with any workers, dispatches, rebuilds, shutdowns, failed thread creations and spurious wakeups, satisfies the pool invariant |
| GemvPoolSafety.DispatchIsExact | tools/fused_gemv_batch.c:185-223 | whenever a dispatch returns, every unit of its job has been computed exactly once, every worker has passed through its generation and none can still touch the job |
| GemvPoolSafety.NeverTwice | tools/fused_gemv_batch.c:185-223 | in no reachable state has a unit been computed twice, or is it being computed by two actors or after it was computed |
| GemvPoolSafety.JobIsRewrittenAlone | tools/fused_gemv_batch.c:324-335 | whenever job, cursor, finish counter or generation is rewritten, no worker can claim, compute or count itself before it sees the next generation |
| GemvPoolSafety.StopJoinsEveryWorker | tools/fused_gemv_batch.c:265-306 | workers disappear only together, after every thread that had been created, however few, has exited |
| GemvPoolLiveness.Progress | tools/fused_gemv_batch.c:226-362 | while a dispatch, rebuild or shutdown is in progress some instruction of the pool is enabled without any spurious wakeup, timeout or yield: no lost wakeup, no missed generation, no deadlock |
| GemvPoolLiveness.WorkerLowersRank | tools/fused_gemv_batch.c:226-262 | every worker instruction lowers the rank of the whole pool |
| GemvPoolLiveness.CallerLowersRank | tools/fused_gemv_batch.c:265-362 | every instruction of the thread holding the interface lowers the rank too |
| GemvPoolLiveness.NoiseRank | tools/fused_gemv_batch.c:228-252 | a spurious wakeup or timeout raises the rank by at most seven; failed creates and yields never do |
| GemvPoolLiveness.WorkIsBounded | tools/fused_gemv_batch.c:228-362 | under any scheduler the instructions executed between requests are at most the first rank plus seven for each spurious wakeup, so with Progress every operation that was begun returns |
| BatchUnits.FillCumulative | tools/fused_gemv_batch.c:388-394 | the cumulative table holds the first unit of each of at most 256 matrices, and the unit count is the total |
| BatchUnits.LocateUnit | tools/fused_gemv_batch.c:162-169 | the binary search returns the one matrix and the nonempty row range that belong to a unit, matrices without rows allowed: a row is in the range if and only if the unit computes it |
| BatchUnits.RowHasOneUnit | tools/fused_gemv_batch.c:160-169 | every row of every matrix belongs to one unit and to no other |
| BatchUnits.EveryRowOnce | tools/fused_gemv_batch.c:368-397 | when the dispatch of a batch returns, in any run of the pool, every row of every matrix has been computed exactly once |
| BatchUnits.DispatchSchedules | tools/fused_gemv_batch.c:185-223 | the order in which any run of the pool computes the units of a dispatch contains every unit exactly once, so it is one of the orders the batch theorems quantify over |
| BatchActivations.AssignSlots | tools/fused_gemv_batch.c:103-126 | matrices share an arena slot exactly when they have the same activation and length, slots of different activations do not overlap, and the count is that of different activations |
| BatchActivations.FillSlots | tools/fused_gemv_batch.c:138-151 | each slot ends up with its permuted activation, and each different activation is permuted once |
| BatchActivations.PrepareBatch | tools/fused_gemv_batch.c:103-153 | the preparation succeeds exactly when every activation can be permuted and the arena is large enough or can grow, and then every matrix finds its own permuted activation at its offset, and each different one is permuted once |
| BatchExperts.SelectKernel | tools/fused_gemv_batch.c:191-216 | a unit reads the activation its kernel wants: the slot of the arena that holds its permuted form when the batch was prepared, and the activation itself otherwise |
| BatchExperts.RunUnit | tools/fused_gemv_batch.c:185-216 | running one unit with the kernel it selects, portable or 256-bit, on raw or compact scales, puts its rows in place and touches no other matrix's output and no input |
| BatchExperts.RunUnits | tools/fused_gemv_batch.c:185-216 | for every order of the units, with a prepared arena or without, the batch leaves each row's value in its output and changes nothing else |
| BatchExperts.GemvBatch | tools/fused_gemv_batch.c:368-397 | the whole batch entry point, from row counts and activations to output rows: for every schedule, raw and compact scales, machines with and without the 256-bit kernel and any outcome of the preparation, every row is the one-row kernel's; empty matrices and more than 256 matrices included |
| BatchExperts.SituBatch | tools/fused_gemv_batch.c:177-222 | for every order of the units each expert's hidden block is the activation of its own gate and up blocks, and nothing outside the hidden blocks changes |
| BatchExperts.OutputIsProjected | tools/fused_gemv_batch.c:368-397 | what a finished batch left in a matrix's output block is that matrix applied to its activation |
| BatchExperts.RunExperts | tools/fused_gemv_batch.c:465-510 | after the three dispatches each output block of the shared scratch buffer holds its expert's output, although the phases read and write one buffer |
| BatchExperts.Combine | tools/fused_gemv_batch.c:511-516 | the element-wise combination adds the weighted expert outputs in expert order |
| BatchExperts.CombinedIsSet | tools/fused_gemv_batch.c:177-182 | the sum the combination builds is that fold over the experts, with gate before up in every element of the hidden activation |
| BatchExperts.ExpertSet | tools/fused_gemv_batch.c:465-518 | for every schedule of its dispatches and either kernel each output element is the left fold, first expert first, of the down rows on activations whose element k is the activation function of gate row k and up row k, under the experts' own weights; the output is left alone exactly when the sizes are out of range |
| Mxfp4Weights.MultipliedIsProduct | tools/fused_gemv.c:243-249 | the pattern the multiplying reference obtains has the value of code times scale, for all 16 codes and 256 scale bytes |
| Mxfp4Weights.TableInRange | tools/fused_gemv.c:147-155 | for scale bytes 2 to 252 the table entry is the multiplied pattern bit for bit |
| Mxfp4Weights.TableIsProductExactly | tools/fused_gemv.c:127-192 | the table holds the products of all sixteen codes if and only if the scale byte is in 2 to 252 |
| Mxfp4Weights.TableOverflows | tools/fused_gemv.c:147-155 | counterexample for the scale bytes 253 and 254: the code 7, of value 6 |
| Mxfp4Weights.TableUnderflows | tools/fused_gemv.c:147-155 | counterexample for the scale byte 1: the subnormal product is lost |
| Mxfp4Weights.TableBorrows | tools/fused_gemv.c:147-155 | counterexample for the scale byte 0: the exponent borrows from the sign |
| Mxfp4Weights.TableMissesNaN | tools/fused_gemv.c:147-155 | counterexample for the scale byte 255: zero codes stay zero |
| Mxfp4Lanes.NeonLane | tools/fused_gemv.c:322-362 | after nibble split, zips, table lookups and widening, lane l of vector k holds the weight of element 4k + l |
| Mxfp4Lanes.Avx2Lane | tools/fused_gemv.c:527-571 | the 256-bit shuffles put the weight of the element prepared for a lane into that lane, nibbles being shifted by halfwords |
| Mxfp4Kernels.NeonRow | tools/fused_gemv.c:322-362 | the one-row kernel builds the term of its row |
| Mxfp4Kernels.GemvRows | tools/fused_gemv.c:322-362 | exactly the rows of the range are written, each with its term |
| Mxfp4Kernels.GemvRows2 | tools/fused_gemv.c:365-414 | the two-row kernel writes the same terms, for even and odd ranges |
| Mxfp4Kernels.Reduce8IsTree | tools/fused_gemv.c:282-288 | the eight-vector reduction is the balanced tree in every lane |
| Mxfp4Kernels.RowIsLocal | tools/fused_gemv.c:322-414 | a row's term depends on its own packed bytes and scales alone, wherever they lie |
| Mxfp4Kernels.FusedRowIsMultiplied | tools/fused_gemv.c:291-362 | with scale bytes in 2 to 252 the fused term is the multiplying reference's term |
| Mxfp4DotProduct.RowIsDotProduct | tools/fused_gemv.c:1-6 | with scale bytes in 2 to 252 and without rounding a row's term is the dot product of the activation with the row's elements, element k being the E2M1 number of its nibble, low one first, times two to its group's scale byte less 127 |
| Mxfp4DotProduct.RowsAreDotProducts | tools/fused_gemv.c:1-6 | so the rows any of the kernels writes are the matrix, row r beginning at group r times the groups of a row, applied to the activation |
| Mxfp4Avx2.PermuteX | tools/fused_gemv.c:497-509 | the activation is permuted group by group into the kernel's lane order, and nothing outside its slot changes |
| Mxfp4Avx2.Avx2Advances | tools/fused_gemv.c:549-571 | one group of the 256-bit kernel on the permuted activation advances every accumulator as the 128-bit kernel does |
| Mxfp4Avx2.Reduce4IsRow | tools/fused_gemv.c:573-580 | the four-vector reduction of the permuted accumulators is the same balanced tree, so the row's term |
| Mxfp4Avx2.GemvRows2Avx2 | tools/fused_gemv.c:584-645 | the 256-bit kernel on a permuted activation writes the same terms to the same rows |
| Mxfp4Matrix.RefGemv | tools/fused_gemv.c:291-319 | the dequantise-then-dot reference writes the multiplied terms |
| Mxfp4Matrix.ExpandScale4Row | tools/fused_gemv.c:426-434 | one compact row expands to its raw scale bytes: for any four-bit indices packed two to a byte, the even one low, byte g becomes the exponent byte of the table entry of index g, with the high half behind an odd last index free |
| Mxfp4Matrix.RawScalesStand | tools/fused_gemv.c:416-434 | any scale bytes unpacked row by row from the indices a compact plane packs are the bytes the kernels work with |
| Mxfp4Matrix.ScalesStand | tools/fused_gemv.c:416-434 | and every compact plane packs such indices |
| Mxfp4Matrix.PlaneRow | tools/fused_gemv.c:426-470 | the rows of the raw plane a compact plane stands for are its rows expanded one by one |
| Mxfp4Matrix.GemvRows2Scale4 | tools/fused_gemv.c:436-470 | either kernel on compact scale planes, expanded two rows at a time, writes the terms of the raw scale plane they stand for |
| Mxfp4Matrix.RunScaled | tools/fused_gemv.c:436-470 | whichever kernel and kind of scales is selected, exactly the given rows receive the terms of the raw scale bytes, which for compact scales are those unpacked from any indices that the plane packs |
| Mxfp4Threads.ShareIsLeast | tools/fused_gemv.c:747-749 | the rows given to each thread are the least even number with which the threads cover all rows |
| Mxfp4Threads.EveryRowOwned | tools/fused_gemv.c:747-755 | every row has a thread |
| Mxfp4Threads.RowOwnedOnce | tools/fused_gemv.c:747-755 | no row has two threads |
| Mxfp4Threads.RunThreads | tools/fused_gemv.c:710-716 | under every interleaving of the threads' passes a thread that finished a pass has its rows in place |
| Mxfp4Threads.RunGemvMt | tools/fused_gemv.c:743-805 | for every thread count, partial thread creation included, either kernel, and raw or compact scales, every row has the one-row kernel's term on the given or unpacked scale bytes and nothing behind the rows changes |
| ExpertTriple.ReachableInv | tools/fused_gemv.c:809-847 | every state of every run of any number of workers and iterations satisfies the protocol invariant |
| ExpertTriple.NeverTwice | tools/fused_gemv.c:819-847 | no chunk of either phase ever runs twice in an iteration |
| ExpertTriple.ExactlyOnce | tools/fused_gemv.c:819-847 | when all workers are done every chunk of both phases of every iteration has run exactly once |
| ExpertTriple.PhasesDoNotOverlap | tools/fused_gemv.c:829-839 | a worker in the second phase of an iteration finds every chunk of its first phase done |
| ExpertTriple.ResetNeverRaces | tools/fused_gemv.c:840-845 | only worker 0 resets the claim counters, while nobody is in a claim loop |
| ExpertTriple.BarrierBounded | tools/fused_gemv.c:809-817 | the arrival counter never exceeds three arrivals for each worker and iteration |
| ExpertTriple.NoDeadlock | tools/fused_gemv.c:809-847 | until all workers are done some worker can take a step that is not spinning |
| ExpertTriple.ChunksTileRows | tools/fused_gemv.c:824-838 | every row of every matrix of a phase is in one chunk and no other |
| ExpertTripleLiveness.StepLowersRank | tools/fused_gemv.c:809-847 | every step that is not spinning lowers a rank of workers, iterations and unclaimed chunks |
| ExpertTripleLiveness.RunsEnd | tools/fused_gemv.c:809-847 | under any schedule a run takes at most twelve steps for each worker and iteration and two for each chunk and round, and where it cannot go on every worker is done |
| ExpertLru.VictimIsOldest | native/provider_gate/provider_cuda_moe.cpp:730-747 | the minimum over stratum fronts is the oldest entry of the single list, and dropping it drops that entry |
| ExpertLru.PromoteKeepsStrata | native/provider_gate/provider_cuda_moe.cpp:707-722 | erasing and re-appending in a stratum promotes one entry of the single list |
| ExpertLru.TotalIsLength | native/provider_gate/provider_cuda_moe.cpp:730-747 | the stratum sizes add up to the length of the single list |
| ExpertLru.LargerCacheIncludesSmaller | native/provider_gate/provider_cuda_moe.cpp:807-825 | after any trace a smaller cache holds exactly the most recent experts of a larger one |
| ExpertLru.CapacityOnlyAddsHits | native/provider_gate/provider_cuda_moe.cpp:807-825 | raising the capacity never turns a hit of any trace into a miss |
| ExpertStrata.Strata.Accounting | native/provider_gate/provider_cuda_moe.cpp:730-747 | in every valid state the resident count is the sum of the stratum sizes |
| ExpertStrata.Strata.Find | native/provider_gate/provider_cuda_moe.cpp:707-718 | the search of one stratum finds an expert exactly when it is on the single list |
| ExpertStrata.Strata.Hit | native/provider_gate/provider_cuda_moe.cpp:707-722 | a hit moves exactly that expert to the recent end of the single list and keeps what every expert is bound to; a miss changes nothing |
| ExpertStrata.Strata.OldestFront | native/provider_gate/provider_cuda_moe.cpp:730-743 | the search over fronts returns a stratum whose front was used earliest, or none exactly when all are empty |
| ExpertStrata.Strata.EvictGlobalLru | native/provider_gate/provider_cuda_moe.cpp:730-747 | eviction removes the oldest expert of all strata, and the accounting error is unreachable |
| ExpertStrata.Strata.MakeRoom | native/provider_gate/provider_cuda_moe.cpp:817-820 | evicting until there is room keeps exactly the most recent capacity - 1 experts |
| ExpertStrata.Strata.Admit | native/provider_gate/provider_cuda_moe.cpp:821-823 | admission appends one expert at the recent end of the single list |
| ExpertStaging.Staging.GuardDecides | native/provider_gate/provider_cuda_moe.cpp:765-773 | a slab whose guarding event is done is read by no pending copy at all |
| ExpertStaging.Staging.FreeSlab | native/provider_gate/provider_cuda_moe.cpp:765-773 | after the wait no pending copy reads the slab, whenever the device runs its copies |
| ExpertStaging.Staging.Upload | native/provider_gate/provider_cuda_moe.cpp:757-805 | an upload yields a tensor exactly when no fault occurs, bound to the given bytes for good, and earlier uploads keep theirs, failures before and after queueing included |
| ExpertStaging.Staging.Read | native/provider_gate/provider_cuda_moe.cpp:433-484 | whoever waits for a tensor's event reads the bytes it was uploaded from, at any later time and after any slab reuse |
| ExpertRows.Gather | native/provider_gate/provider_cuda_moe.cpp:1105-1117 | the gathered positions are, in order, exactly those at which the expert is routed |
| ExpertRows.BatchCounts | native/provider_gate/provider_cuda_moe.cpp:1105-1117 | each such position is in the batch once, and no other is |
| ExpertRows.RunBatch | native/provider_gate/provider_cuda_moe.cpp:1130-1152 | the copied-back results are each position's own kernel result, and other positions keep theirs |
| ExpertRows.OrderedRouteReduce | native/provider_gate/provider_cuda_moe.cpp:252-289 | the slot-major reduction over all rows gives each row the sum of its slots in route order, as if reduced alone |
| ExpertRows.RowAloneIsSum | native/provider_gate/provider_cuda_moe.cpp:281-288 | a row reduced alone is the left fold of the addition over its slots, slot s contributing the kernel of the bytes of expert s of its layer on its input, under weight s |
| ExpertPlans.CapacityFits | native/provider_gate/provider_cuda_moe.cpp:76-93 | a number of experts is within the clamped capacity if and only if they fit behind the reserve, exist, and were asked for |
| ExpertPlans.ReserveHoldsBack | native/provider_gate/provider_cuda_moe.cpp:682-699 | the automatic reserve is at least two GiB and at least a fifth of the free bytes and equals one of them; the proportional one is the free bytes times the ratio over a million, rounded down, without overflow of the product; the fixed one is as given |
| ExpertPlans.LowerBound | native/provider_gate/provider_cuda_moe.cpp:848-856 | splits an ascending list at the wanted ID |
| ExpertPlans.SourceFor | native/provider_gate/provider_cuda_moe.cpp:848-862 | finds the caller's bytes of an expert exactly when the caller holds it |
| ExpertPlans.IsCanonical | native/provider_gate/provider_cuda_moe.cpp:970-977 | the loop over neighbours accepts exactly strictly ascending IDs in range |
| ExpertPlans.OutsideSplits | native/provider_gate/provider_cuda_moe.cpp:997-1004 | what is missing from a plan ascends and is exactly what is canonical and not pinned |
| ExpertCache.Cache.RebuildAfterMemoryPressure | native/provider_gate/provider_cuda_moe.cpp:545-567 | the cache is emptied, at most two rebuilds ever succeed, and a refused one disables the cache |
| ExpertCache.Cache.EstablishBudget | native/provider_gate/provider_cuda_moe.cpp:668-705 | the capacity is fixed once, from the measured free bytes and the reserve of the policy |
| ExpertCache.Cache.Resident | native/provider_gate/provider_cuda_moe.cpp:807-825 | serving one expert is one request to a single least-recently-used list of the cache's capacity and fails exactly when the budget cannot be measured or a miss cannot be uploaded; the tensor holds the expert's authoritative bytes |
| ExpertCache.Cache.ServeTrace | native/provider_gate/provider_cuda_moe.cpp:807-825 | over any trace the stratified cache hits, misses and evicts exactly as that list, and it stops exactly at the first request whose budget or upload fails |
| ExpertCache.Cache.PinHits | native/provider_gate/provider_cuda_moe.cpp:992-1004 | planning pins exactly the resident canonical experts before any miss is admitted, and only reorders the list |
| ExpertCache.Cache.PlanResidency | native/provider_gate/provider_cuda_moe.cpp:963-1008 | a plan is opened, refused as malformed, refused as unavailable, or ends the cache, each if and only if its condition on the arguments, the state and the faults holds; canonical IDs split into pinned and missing |
| ExpertCache.Cache.PlannedResident | native/provider_gate/provider_cuda_moe.cpp:827-846 | a pinned expert always resolves, without a request; a missing one is one request; either way to its authoritative bytes, whatever was evicted since |
| ExpertCache.Cache.RunExpert | native/provider_gate/provider_cuda_moe.cpp:1105-1153 | exactly the positions routed to the expert receive its result on their row |
| ExpertCache.Cache.RunExperts | native/provider_gate/provider_cuda_moe.cpp:1105-1153 | after the loop over the plan every position routed to a planned expert holds its own output, and was written once |
| ExpertCache.Cache.RunPlan | native/provider_gate/provider_cuda_moe.cpp:1092-1163 | expert-major execution writes each routed position once and gives each row what it has when run alone |
| ExpertCache.Cache.Recover | native/provider_gate/provider_cuda_moe.cpp:630-654 | only an allocation failure with a drained stream is survived, and it uses up a rebuild; anything else is final |
| ExpertCache.Cache.ExecutePositionsPlan | native/provider_gate/provider_cuda_moe.cpp:1010-1164 | whatever other plans, evictions and rebuilds came between, an accepted tile succeeds if and only if no fault comes into play, gives every row the left fold over its sixteen slots of each expert's kernel under its own weight and closes the plan; each refusal and failure happens exactly when it must and leaves the plan live |
| ExpertPlans.FaultlessTileSucceeds | native/provider_gate/provider_cuda_moe.cpp:1092-1163 | a tile in which nothing goes wrong succeeds, whatever is resident |
| ExpertCache.Cache.CancelPlan | native/provider_gate/provider_cuda_moe.cpp:1166-1168 | closes that plan and touches nothing else |
| ExpertCache.Cache.MaterializePlan | native/provider_gate/provider_cuda_moe.cpp:1170-1197 | ends the cache exactly when a copy fails, and otherwise the host copy holds the authoritative bytes of the canonical experts the caller does not hold, and of no others |
| ExpertCache.Cache.ExecuteT1 | native/provider_gate/provider_cuda_moe.cpp:1203-1258 | one row run expert by expert in route order succeeds if and only if no fault comes into play and the caller holds every missing expert, and has the output that expert-major execution gives it: the left fold over its slots in route order |
| MlaCache.GrowthIsGeometric | native/provider_gate/provider_mla.cpp:191-213 | growth holds the request, stays admitted, and short of the bound multiplies by the growth factor |
| MlaCache.GrowthIsLeast | native/provider_gate/provider_mla.cpp:191-213 | the capacity taken is the least that serves: at first sixteen, the request and a quarter on top, later the growth factor times the old one, or all that is admitted |
| MlaCache.GrowthRefusals | native/provider_gate/provider_mla.cpp:191-213 | growth is refused exactly for no rows, for more than are admitted, and when the old capacity times the growth factor leaves 64 bits |
| MlaCache.GrowthPays | native/provider_gate/provider_mla.cpp:191-213 | a growth step leaves the rows copied so far paid for: copied * (g - 1) <= length * g once its request is committed |
| MlaCache.StaysPaid | native/provider_gate/provider_mla.cpp:191-213 | so does every committed batch, grown or not |
| MlaDecoding.TileIsSingle | native/provider_gate/provider_mla.cpp:976-998 | every head of row q of a tile, softmax under the minus-infinity mask over all staged rows, later ones included, is that of the position decoded alone behind its own prefix |
| MlaDecoding.TileIsOutput | native/provider_gate/provider_mla.cpp:936-998 | so row q of a tile of T positions is output q of decoding one position at a time |
| MlaDecoding.OutputAt | native/provider_gate/provider_mla.cpp:936-998 | decoded one at a time, position q sees exactly the keys and values up to its own |
| MlaDecoding.OutputsConcat | native/provider_gate/provider_mla.cpp:740-1030 | decoding two batches in turn is decoding their concatenation |
| MlaDecoding.OutputsAreMeans | native/provider_gate/provider_mla.cpp:936-998 | with an exponential and a reciprocal every output of a decoding run is finished from one row for each head, a softmax mean over exactly the keys up to its own position |
| MlaDecoding.FirstIsOwn | native/provider_gate/provider_mla.cpp:936-998 | and the first output behind an empty cache from that position's own contents |
| MlaGeometry.Validate | native/provider_gate/provider_mla.cpp:350-381 | the division and difference tests accept exactly the dimensions whose sums and products fit 64-bit signed integers |
| MlaGeometry.CheckedBytes | native/provider_gate/provider_mla.cpp:216-250 | the bytes of one position of either representation, or a refusal exactly when they overflow |
| MlaGeometry.AdmittedFitsBudget | native/provider_gate/provider_mla.cpp:432-438 | a capacity is admitted if and only if it is within the context limit and its storage is within the byte budget |
| MlaCache.Open | native/provider_gate/provider_mla.cpp:405-439 | the constructor succeeds if and only if the dimensions are valid, bytes do not overflow, the growth factor is at least 1.1 and the budget, given or automatic, holds one position; a capacity is admitted if and only if it is within the context limit and the budget; automatic compact caches hold the longest context and automatic expanded ones as many positions as fit 512 MiB |
| MlaCache.Cache.Reserve | native/provider_gate/provider_mla.cpp:1107-1181 | a ticket is opened if and only if none is pending and the request is not refused; each refusal, and the nonce it spends or not, is exact; committed rows stay, grown storage begins with them |
| MlaCache.Cache.Stage | native/provider_gate/provider_mla.cpp:933-998 | rows are staged behind the committed prefix and nowhere else, and the masked tile over the whole staged storage gives the outputs of single-position decoding, each a softmax mean over the keys up to its own; the first on an empty cache is its own contents |
| MlaCache.Cache.Prepare | native/provider_gate/provider_mla.cpp:740-1030 | preparing commits nothing, and the ticket carries the rows, outputs and capacity it will commit |
| MlaCache.Cache.NonceIsTicket | native/provider_gate/provider_mla.cpp:1183-1195 | of all tickets ever issued only the pending one carries the pending nonce |
| MlaCache.Cache.Commit | native/provider_gate/provider_mla.cpp:1183-1233 | exactly the live ticket with an output for each position is accepted, and its staged rows become the committed ones; every other is refused without effect |
| MlaCache.Cache.Cancel | native/provider_gate/provider_mla.cpp:1235-1252 | exactly the live ticket is accepted, and committed rows, length and version stay |
| MlaCache.Append | native/provider_gate/provider_mla.cpp:740-1030 | one prepare and commit is refused if and only if the batch is empty, is not admitted, finds no nonce or overflows the capacity, and otherwise extends the cache by its rows with the outputs of decoding them one by one, in place behind the committed rows or on storage of its own |
| MlaCache.AppendAll | native/provider_gate/provider_mla.cpp:740-1030 | for every cut into batches, up to exactly the first that is refused, outputs, rows, length and version are those of decoding the same positions one at a time, every output is a softmax mean over the keys up to its own, version = length <= capacity <= admitted, and all regrowth has copied at most g/(g-1) rows for each row committed |
| MlaTransaction.ForkCommitted | native/provider_gate/provider_mla.cpp:503-517 | a fork is refused exactly while an append is pending, and otherwise shares the committed rows and their storage |
| MlaTransaction.RunFork | native/provider_gate/provider_mla.cpp:503-517 | whatever is then prepared, committed or cancelled on a fork, the base stays exactly as it was, and the fork holds its rows followed by those of exactly the appends that are not refused |
| MlaTransaction.Begin | native/provider_gate/provider_mla.cpp:519-544 | a branch opens exactly when its bound is positive and admitted and nothing is pending, on the base's own storage |
| MlaTransaction.Extend | native/provider_gate/provider_mla.cpp:913-935 | an append on a fork or branch succeeds exactly when it is not refused, extends it, and leaves the base's rows, though written in place on shared storage |
| MlaTransaction.Abandon | native/provider_gate/provider_mla.cpp:1235-1252 | a prepared and cancelled append leaves both fork or branch and base as they were but for a nonce |
| MlaTransaction.Transaction.PreflightPublishPrefix | native/provider_gate/provider_mla.cpp:571-595 | accepts exactly the prefixes that can be published on an unchanged base |
| MlaTransaction.Transaction.PublishPrefix | native/provider_gate/provider_mla.cpp:597-611 | the base becomes its old rows followed by the first rows of the branch, with matching length and version |
| MlaTransaction.RunBranch | native/provider_gate/provider_mla.cpp:503-616 | any run of appends and cancellations leaves the base's rows, length and version; the branch then holds exactly the appends that its counters do not refuse, with the outputs of decoding them on the base, softmax means over the keys up to their own |
| MlaTransaction.Speculate | native/provider_gate/provider_mla.cpp:519-616 | after any branch run the base is its old rows followed by the accepted prefix of exactly the appends that are not refused, or is unchanged; the outputs are softmax means over the base's rows and the branch's up to their own |
| MlaTransaction.TwoBranches | native/provider_gate/provider_mla.cpp:571-611 | of two live branches of one base the first to publish is accepted and the second refused; the published rows are the first branch's own if and only if one of the two appends outgrew the capacity or they agree on the positions they share, and otherwise the later branch's rows lie over them |
| MlaAttention.AbsorbedIsExpanded | native/provider_gate/provider_mla.cpp:962-995 | pushing the query through the key half and the weighted latent through the value half equals expanding every cached position, for all shapes, contexts, weights and weighing functions |
| MlaAttention.TileRowSeesItsPrefix | native/provider_gate/provider_mla.cpp:305-318 | row q of a tile under the minus-infinity block mask attends to the keys 0 to past + q, as that position decoded alone |
| MlaAttention.AttendIsMean | native/provider_gate/provider_mla.cpp:978-984 | attention is a mean of the rows: its weights sum to one, are zero on masked keys and positive on the others and stand in the ratio of the exponentials of the scores, and every output column is the rows' column under them |
| MlaAttention.WeightsAreDetermined | native/provider_gate/provider_mla.cpp:982 | the scores determine such weights |
| MlaAttention.EqualRowsAreReturned | native/provider_gate/provider_mla.cpp:978-984 | attention over rows that are all equal returns that row |
| MlaAttention.HeadLayout | native/provider_gate/provider_mla.cpp:962-975 | a head's expanded keys and values are the products of its own key rows, then value rows, of the packed projection with the latent, followed by the positional key |
| MlaForms.SameOutputs | native/provider_gate/provider_mla.cpp:881-998 | over the reals a cache decodes the same outputs in the expanded and in the compact representation, for any layer, any committed positions and any further ones |
| DSparkCache.NextCapacity | native/provider_gate/provider_dspark_model.cpp:356-364 | the doubling loop stops at the first doubling that holds the request or at the context limit, and never overshoots once more |
| DSparkCache.Cache.TakeSnapshot | native/provider_gate/provider_dspark_model.cpp:289-298 | a snapshot reads the current rows, and is on record from now on |
| DSparkCache.Cache.Restore | native/provider_gate/provider_dspark_model.cpp:300-330 | a snapshot value is refused without effect, exactly when it is another cache's, misshapen, too large or out of generations, or becomes the contents under a new generation, and every snapshot keeps its rows |
| DSparkCache.Cache.Clear | native/provider_gate/provider_dspark_model.cpp:332-347 | empties the cache on new storage; every snapshot keeps its rows |
| DSparkCache.Cache.EnsureCapacity | native/provider_gate/provider_dspark_model.cpp:349-382 | storage is kept exactly when it is large enough and exclusive, and is otherwise copied to the next doubled capacity; the contents stay |
| DSparkCache.Cache.Append | native/provider_gate/provider_dspark_model.cpp:384-409 | rows are appended to all ten tensors, or to none exactly when their counts differ, are none or exceed the context limit, or generations have run out, and every snapshot ever taken still reads what it read |
| DSparkCache.Cache.GenerationIdentifies | native/provider_gate/provider_dspark_model.cpp:274-276 | two moments with the same generation number have the same length and contents |
| DSparkCache.KeptForever | native/provider_gate/provider_dspark_model.cpp:248-257 | in the value semantics a snapshot never changes |
| DSparkCache.Perform | native/provider_gate/provider_dspark_model.cpp:289-409 | each operation on the shared tensors does what it does on values, and what earlier generation numbers stood for is remembered |
| DSparkCache.RunScript | native/provider_gate/provider_dspark_model.cpp:289-409 | after any sequence of appends, snapshots, restores and clears, the cache and every snapshot ever taken hold the rows of the value semantics, and any two moments with one generation number have the same rows |
| KdaTape.HistoryIsWindow | native/provider_gate/provider_kda.cpp:351-402 | the history after t + 1 single shifts is the window of the wide source that begins at t |
| KdaTape.WideConvolution | native/provider_gate/provider_kda.cpp:368-402 | row t of the wide convolution is the convolution single decoding computes at position t |
| KdaTape.FilteredIsConvolved | native/provider_gate/provider_kda.cpp:351-402 | channel c of row t is the activation of the sum over the taps of channel c, the row of position t under the last tap and the row j before it under the tap j before, rows before the first position being the history's |
| KdaTape.OneMore | native/provider_gate/provider_kda.cpp:916-950 | state and output after one more position in terms of the wide convolution's rows |
| KdaTape.RecurConvolvedPositions | native/provider_gate/provider_kda.cpp:844-966 | the recurrence over convolved rows gives the outputs, the final state and every retained boundary of single decoding |
| KdaTape.WideTape | native/provider_gate/provider_kda_batch.cpp:160-296 | project, convolve, recur and finish all positions: outputs, final state and boundary k - 1 are those after accepting k positions one at a time, and position by position they are the recurrence over rows filtered with the newest row under the last tap and the histories of the last rows |
| KdaTape.BundledConvolution | native/provider_gate/provider_kda.cpp:404-445 | one convolution of the three adjacent arms is the three convolutions side by side |
| Bf16Pool.RangesTile | native/provider_gate/provider_bf16_cpu.cpp:441-446 | the quotient and remainder ranges follow each other, cover all rows and differ in size by at most one |
| Bf16Pool.OwnersDiffer | native/provider_gate/provider_bf16_cpu.cpp:441-446 | no row has two owners |
| Bf16Pool.EveryRowOwned | native/provider_gate/provider_bf16_cpu.cpp:441-446 | every row has an owner among the active workers |
| Bf16Pool.CallIsTaken | native/provider_gate/provider_bf16_cpu.cpp:384-408 | an idle pool takes exactly the calls whose buffers match their dimensions and that ask for no more workers than there are, zero asking for all |
| Bf16Pool.ReachableInv | native/provider_gate/provider_bf16_cpu.cpp:384-462 | every state of every run satisfies the pool invariant, hostile environments and spurious wakeups included |
| Bf16Pool.ReturnedCallsAreComplete | native/provider_gate/provider_bf16_cpu.cpp:384-418 | a call that returned without an error wrote every row of its output exactly once, and row r holds the dot product of columns r * columns to (r + 1) * columns of that call's own weights with its input, for any sequence of calls with any active counts |
| Bf16Pool.RowOfMatrix | native/provider_gate/provider_bf16_cpu.cpp:449-453 | the pointer arithmetic of a worker finds exactly the weights of its row |
| Bf16Pool.WritersAreActive | native/provider_gate/provider_bf16_cpu.cpp:420-462 | only an active worker writes, in its own range, to the call in progress, a row not written before |
| Bf16Pool.NoDeadlock | native/provider_gate/provider_bf16_cpu.cpp:384-462 | while a call or the destructor is in progress somebody can move without a spurious wakeup |
| Bf16Pool.DestructorJoinsAll | native/provider_gate/provider_bf16_cpu.cpp:372-382 | when the destructor has joined its workers all of them have exited |
| Bf16PoolLiveness.WorkIsBounded | native/provider_gate/provider_bf16_cpu.cpp:384-462 | under any scheduler the steps taken between requests are at most the first rank plus one for each spurious wakeup |
| Bf16PoolLiveness.CallsReturn | native/provider_gate/provider_bf16_cpu.cpp:384-418 | a call takes at most as many steps as it has rows, eight for each worker, three, and one for each spurious wakeup, and until it has returned some such step is enabled |
| PilotSelection.MergeRows | native/provider_gate/provider_pilot.cpp:540-570 | refuses exactly IDs out of range or repeated within a row and scores that are not finite, and merges the rest to one candidate for each expert under its largest score |
| PilotSelection.TopScoreIsMaximum | native/provider_gate/provider_pilot.cpp:559-569 | the merged score is attained and not exceeded |
| PilotSelection.SortSorts | native/provider_gate/provider_pilot.cpp:596-602 | sorting by score and then ID yields a sorted permutation |
| PilotSelection.ChosenAreBest | native/provider_gate/provider_pilot.cpp:590-615 | ranking, cutting and re-sorting by ID keeps candidates that beat all the others |
| PilotSelection.Canonicalize | native/provider_gate/provider_pilot.cpp:516-616 | accepts exactly 1 to 64 rows of 16 to 32 IDs, in range and distinct within a row, with a finite score each or none at all, and without scores a union within the cap; the result ascends, has min(cap, 32, union size) members with or without the prior, and every expert in it has a larger final score than any of the union left out, or the same under a smaller ID |
| PilotSelection.AcceptsWellFormed | native/provider_gate/provider_pilot.cpp:516-570 | the conditions tested are these numbers, row by row |
| PilotSelection.RankIsFinalScore | native/provider_gate/provider_pilot.cpp:559-597 | an expert's final score is the largest of its scores, raised exactly when it is in the prior route and there are scores |
| PilotSelection.OrderDoesNotMatter | native/provider_gate/provider_pilot.cpp:516-616 | the same scored entries in any rows and any order within them give the same selection |
| ElfTables.RejectOverlapping | native/deltafin-curl-sys-direct/build_support.rs:350-367 | accepts exactly pairwise disjoint ranges |
| ElfTables.WordSnoc | native/deltafin-curl-sys-direct/build_support.rs:191-222 | place value: byte n of a field counts 256^n times |
| ElfTables.WordOfDigits | native/deltafin-curl-sys-direct/build_support.rs:191-222 | a number written out as its bytes, the least first, reads back as itself |
| ElfTables.PowersOfTwo | native/deltafin-curl-sys-direct/build_support.rs:543-547 | the test for a power of two accepts the powers of two and nothing else |
| ElfTables.MapVirtualRange | native/deltafin-curl-sys-direct/build_support.rs:369-405 | accepts exactly the mappings that some segment backs and on which all backing segments agree |
| ElfTables.MappingIgnoresOrder | native/deltafin-curl-sys-direct/build_support.rs:369-405 | an accepted mapping does not depend on the order of the segments |
| ElfTables.MappingIsUnique | native/deltafin-curl-sys-direct/build_support.rs:369-405 | and is the only one |
| ElfTables.MapVirtualAvailable | native/deltafin-curl-sys-direct/build_support.rs:407-441 | accepts exactly the addresses on whose file position and remaining bytes all covering segments agree |
| ElfTables.ParseSysvHash | native/deltafin-curl-sys-direct/build_support.rs:473-514 | accepts exactly the bounded mapped tables all of whose words are zero or symbols below the declared count |
| ElfTables.ReadGnuHeader | native/deltafin-curl-sys-direct/build_support.rs:516-561 | accepts exactly the bounded headers with a power-of-two filter whose buckets fit the segment |
| ElfTables.WalkChain | native/deltafin-curl-sys-direct/build_support.rs:579-607 | the walk terminates and finds the chain's end exactly when there is a set low bit within the segment and the symbol bound |
| ElfTables.ParseGnuHash | native/deltafin-curl-sys-direct/build_support.rs:516-624 | accepts exactly the tables in which every bucket is empty or its chain ends, with the highest end deciding symbol count and extent |
| ElfTables.GnuTableIsBounded | native/deltafin-curl-sys-direct/build_support.rs:565-624 | each chain of an accepted table ends on a set low bit below the derived count and inside the table, which lies in the file |
| ElfDynamic.ReadSegments | native/deltafin-curl-sys-direct/build_support.rs:675-737 | accepts exactly the program header tables in which every header is acceptable and at most one is PT_DYNAMIC, and lists the PT_LOAD segments |
| ElfDynamic.ReadDynamic | native/deltafin-curl-sys-direct/build_support.rs:762-799 | accepts exactly the tables with a DT_NULL followed by zeros and no repeated single-valued tag before it, and reads what they say |
| ElfDynamic.DynamicIsUnique | native/deltafin-curl-sys-direct/build_support.rs:762-799 | a table says one thing only |
| ElfLayout.HeaderExactly | native/deltafin-curl-sys-direct/build_support.rs:224-330 | the header and its tables are accepted if and only if every field, as the little-endian value of the bytes at its own offset, is acceptable, and they take up these ranges |
| ElfLayout.OctetsOfHeader | native/deltafin-curl-sys-direct/build_support.rs:224-330 | in a file of octets the constant fields of the header leave no choice: type 3, 0, version 1, 0, 0, 0, sizes 64, 0, 56, 0 |
| ElfLayout.ProgramsAreLaid | native/deltafin-curl-sys-direct/build_support.rs:675-737 | the loads are the headers of type 1 and the dynamic segment is the one header of type 2, with file offset, address and file size from bytes 8, 16 and 32 on |
| ElfLayout.EntriesAreLaid | native/deltafin-curl-sys-direct/build_support.rs:762-799 | the single-valued tags are the entries of eight little-endian bytes of tag and eight of value before the first tag of zero |
| ElfLayout.StringsAreBelow | native/deltafin-curl-sys-direct/build_support.rs:774-796 | the string offsets collected are the values of exactly the entries tagged as needed, search path, auxiliary or filter |
| ElfLayout.SysvIsLaid | native/deltafin-curl-sys-direct/build_support.rs:473-514 | the counts, extent and every word of the System V table at their bytes |
| ElfLayout.GnuIsLaid | native/deltafin-curl-sys-direct/build_support.rs:516-624 | each bucket of the GNU table is zero or starts a chain of words with even low bytes up to one with an odd low byte, and the symbol count is one more than the highest end |
| ElfImage.ReadString | native/deltafin-curl-sys-direct/build_support.rs:454-471 | finds the terminated string at an offset exactly when there is one inside the table |
| ElfImage.ReadStrings | native/deltafin-curl-sys-direct/build_support.rs:801-834 | accepts exactly the mapped string tables that begin empty and hold the object's name and all referenced strings |
| ElfImage.FindRequired | native/deltafin-curl-sys-direct/build_support.rs:893-916 | succeeds exactly when every symbol has a terminated name, and ticks off a required name exactly when an exported symbol has it |
| ElfImage.Validate | native/deltafin-curl-sys-direct/build_support.rs:626-930 | the whole validator accepts a file if and only if there are tables that make it acceptable, and returns them; without the validator's own reads, every header field, segment, dynamic entry, hash table, name and required symbol of an accepted file is the little-endian value of the bytes at its offset |
| ElfImage.SymbolIs | native/deltafin-curl-sys-direct/build_support.rs:893-913 | a symbol is exported under a name if and only if the bytes of its binding, type, visibility, section and name say so |
| ElfImage.AcceptedIsLaid | native/deltafin-curl-sys-direct/build_support.rs:626-930 | the tables of an accepted file are laid out byte by byte as the format says |
| ElfImage.AcceptedIsSound | native/deltafin-curl-sys-direct/build_support.rs:626-930 | in an accepted file all tables lie in it, pairwise disjoint and apart from the headers, the hash tables bound the symbol table, and each required name is that of an exported symbol in it |
| ElfImage.LoadOrderDoesNotMatter | native/deltafin-curl-sys-direct/build_support.rs:369-441 | everything reached through the load segments is accepted for every order of them |

## Left out

- GemvPool: weak memory effects; atomics are sequentially consistent. The generation counter does not wrap, and the job's fields other than its unit count are not part of the state.
- Bf16Pool: the three dot products, of which one is an uninterpreted term of a row's weights and the input; thread creation failing in the constructor, and the refusals before a call changes anything. Each call has an output buffer of its own, which validation keeps apart from weights and input.
- ExpertTriple: the start latch and the inline fallback when no thread could be created; the workers are those that were created.
- BatchExperts.ExpertSet: the tests that the scratch size does not overflow and the failure to allocate it, because sizes are unbounded.
- BatchExperts.RunUnits: a unit is one step, which is enough because units write disjoint rows; two units that overlap in time are taken in the order in which they end.
- BatchActivations.PrepareBatch: overflow of the arena's byte count, and a null activation.
- Mxfp4Threads.RunThreads: a pass of one thread is one step, which is enough because threads write disjoint rows.
- Mxfp4Matrix.GemvRows2Scale4: the NaN rows written when the expansion buffer cannot be allocated.
- Mxfp4Kernels: rounding; the fused multiply-add, the addition and the sum across a vector are arbitrary functions. Column counts are 32 for each group, as all kernels ignore a remainder.
- Mxfp4DotProduct.RowIsDotProduct: without rounding, and for scale bytes 2 to 252, outside of which the kernels' weights are not the products.
- Mxfp4Weights: rounding of the scale product does not arise; every product of a code and a scale is a binary32 value or overflows.
- ExpertCache.Cache.ExecutePositionsPlan: the bytes a caller brings are assumed to be the authoritative ones; tensor device, type and shape checks are not modelled, and the expert span is one value.
- ExpertCache.Cache.Qualify: the known-answer tests of the capability probe; their outcome is a parameter.
- ExpertCache: `execute_positions_t1`, the unplanned tile, which adds no property to the planned one; policy validation and configuration freezing; memory snapshots.
- ExpertStaging.Staging.Upload: the source span check; the device is one queue of copies run oldest first.
- MlaCache.Cache.Prepare: shape and weight validation, normalisation, the projections and the output gate, which are functions of single positions; the fused Metal attention; and exceptions halfway through a tensor copy. A grown allocation does not fail.
- MlaCache.Cache.Reserve: the decode shell's later staging of rows by device code, which is not part of this model.
- MlaGeometry.Validate: epsilon and the growth factor are reals, so they are finite.
- MlaTransaction.RunBranch: one live fork or branch of a base, by precondition; of two, `TwoBranches` covers the first append of each.
- MlaAttention.AbsorbedIsExpanded: over the reals, so without rounding; softmax is any function that keeps the length. `MlaForms.SameOutputs` inherits this.
- MlaDecoding.OutputsAreMeans: without rounding; where the exponential and the reciprocal are what their names say.
- DSparkCache: the proposal loop and the decoder of the model; rows are opaque, and devices and element types are not checked. A snapshot's tensors are readable when there are ten of its capacity. A script is shorter than the 64-bit range of generation numbers.
- KdaTape: the arithmetic of projections, norms, gates and the recurrent update, which are functions of single rows; the test that arms are adjacent in memory; the fused wide path.
- PilotSelection.Canonicalize: rounding and overflow of the prior bonus, because finite scores are reals; the prior is a parameter, its slots and their mutex and the environment variable are left out.
- ElfImage.Validate: of the byte layout, only the header and the symbols are stated in both directions; the other tables are laid out as stated in every accepted file, and the other direction is stated over little-endian words. Error texts and conversions between 64-bit and host integers; the required names and the object's name are parameters.
- Not modelled at all: numerics of the tensor libraries and device kernels, the fused Metal paths, the adjacency fusion of BF16 matrices, projection bundling, the pilot router, Linux library discovery and file ownership checks, and all staging scripts, because they are input and output, or would only add easy members.

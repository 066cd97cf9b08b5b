# Hybrid AXPY: a Dafny model

This project models the core of a hybrid CPU/GPU AXPY benchmark (`Y = A * X + Y`
over MPI ranks, HIP streams and host threads), and proves properties of that model.
It covers:

- the split of the items over MPI ranks, in two forms. One recomputes the loads on
  every call (`hybrid/utils/mpi_utils.cpp`). The other caches the loads of the first
  call (`hybrid_mpi_hip/utils/mpi_utils.h`).
- the setup arithmetic of `hybrid/saxpy/main.cpp`:
  - the host thread count;
  - the per-rank item count, with `size_t` wrap-around written out;
  - the device ratio;
  - the device/host split.
- the strided host workers of the same file.
- the accelerator launcher `SAXPYLauncher`, with its stream plan `GPUPlans` and its
  functor (`hybrid/saxpy/saxpy.hip.cpp`). These cover:
  - each stream's chunk of the device share;
  - the depth-first and breadth-first issue orders;
  - device memory, as arrays plus a table of live allocations;
  - the destructor.
- the timing helpers `TinyRecord` and `TinyTimer`.
- the log-line rewriting `logutils::format` and its rank prefix.
- the two GPU-id holders: the compute-once one in `hybrid_mpi_hip/utils/mpi_utils.h`
  and the set/get one in `hybrid_mpi_hip/utils/gpu_utils.hip.cpp`.

Several things become explicit inputs:

- **MPI and the clock.** The communicator size, the rank, the node-local rank, the
  hardware thread count, the CU count and the clock readings are parameters or
  constants.
- **Streams.** A stream is represented by its index. Every stream operation runs when
  it is issued. Two streams never touch the same index, so this sequential order is
  an execution the streams allow.
- **Element values.** They are integers, not floats. The ratio is a real.

When `N < nstreams`, the trailing chunks built at `hybrid/saxpy/saxpy.hip.cpp:35-47`
are empty and their offsets repeat, so the stream offsets only never decrease.
`StreamPlan.PlanOffsetsOrdered` states exactly when an offset is strictly below a
later one.

## Model

| member | source | states |
|---|---|---|
| `Partition.Shares` | hybrid/utils/mpi_utils.cpp:60-64 | one size per piece, in piece order: `n / parts` items, plus one for the first `n % parts` pieces; `Partition.SumOfShares` and `Partition.SharesNearEqual` state what these sizes add up to and how far apart they are |
| `Partition.SumOfSharePrefix` | hybrid/utils/mpi_utils.cpp:60-64 | the first `k` near-equal shares hold `k * (n / parts) + min(k, n % parts)` items |
| `Partition.SumOfShares` | hybrid/saxpy/saxpy.hip.cpp:35-39 | the near-equal shares of `n` items add up to `n` |
| `Partition.SharesNearEqual` | hybrid/saxpy/saxpy.hip.cpp:35-39 | shares never grow with the index, differ by at most one, and each is `n / parts` or `n / parts + 1` |
| `Partition.OffsetsChain` | hybrid/saxpy/saxpy.hip.cpp:42-46 | running offsets start at 0, each piece starts where the previous one ends, and the last ends at the total |
| `Partition.ExactlyOneOwner` | hybrid/utils/mpi_utils.cpp:53-84 | every item below the total lies in exactly one piece, and no item at or beyond it lies in any |
| `BlockDecomposition.Loads` | hybrid/utils/mpi_utils.cpp:53-67 | the two loops produce one load per rank: `N / np` each, plus one for the first `N % np` ranks |
| `BlockDecomposition.Count` | hybrid/utils/mpi_utils.cpp:70-73 | the caller's load is `N / np`, plus one when its rank is below `N % np` |
| `BlockDecomposition.Offset` | hybrid/utils/mpi_utils.cpp:76-84 | the accumulated offset is the sum of the loads of the lower ranks, in closed form `rank * (N / np) + min(rank, N % np)` |
| `BlockDecomposition.RanksTile` | hybrid/utils/mpi_utils.cpp:53-84 | the ranks' ranges tile `[0, N)`: rank 0 starts at 0, each rank starts where the previous ends, the last ends at `N`, and every item below `N` has exactly one owner |
| `BlockDecomposition.TenOverThree` | hybrid/utils/mpi_utils.cpp:60-64 | 10 items over 3 ranks give loads 4, 3, 3 at offsets 0, 4, 7 |
| `StreamPlan.NewPlans` | hybrid/saxpy/saxpy.hip.cpp:24-47 | streams, sizes and offsets all have length `nstreams`; stream `i` has size `N / nstreams + (i < N % nstreams ? 1 : 0)` and an offset equal to the sum of the sizes before it |
| `StreamPlan.PlanTilesShare` | hybrid/saxpy/saxpy.hip.cpp:35-46 | the sizes add up to `N`, `offsets[0] == 0`, `offsets[i + 1] == offsets[i] + sizes[i]`, and the last chunk ends at `N` |
| `StreamPlan.PlanOffsetsOrdered` | hybrid/saxpy/saxpy.hip.cpp:38-46 | offsets never decrease; offset `i` is below a later offset exactly when chunk `i` is non-empty; a chunk is empty exactly when `N < nstreams` and `i >= N` |
| `IssueOrder.DepthFirst` | hybrid/saxpy/saxpy.hip.cpp:145-153 | the operations issued by the depth-first loop, all three for one stream before the next stream; there are `3 * nstreams` of them |
| `IssueOrder.BreadthFirst` | hybrid/saxpy/saxpy.hip.cpp:154-167 | the operations issued by the three breadth-first loops, one stage for every stream before the next stage; there are `3 * nstreams` of them |
| `IssueOrder.Schedule` | hybrid/saxpy/saxpy.hip.cpp:143-168 | the order `run(depthFirst)` issues: whichever flag is given, `3 * nstreams` operations, each stream's three operations each issued once, in copy-in, compute, copy-out order |
| `IssueOrder.DepthFirstWellFormed` | hybrid/saxpy/saxpy.hip.cpp:145-153 | the depth-first order issues each of the `3 * nstreams` operations once, keeps each stream in copy-in, compute, copy-out order, and never returns to an earlier stream |
| `IssueOrder.BreadthFirstAt` | hybrid/saxpy/saxpy.hip.cpp:154-167 | position `p` of the breadth-first order is stage `p / n` of stream `p % n` |
| `IssueOrder.BreadthFirstWellFormed` | hybrid/saxpy/saxpy.hip.cpp:154-167 | the breadth-first order issues each operation once, keeps each stream in pipeline order, and finishes every stage before the next |
| `IssueOrder.SameOperations` | hybrid/saxpy/saxpy.hip.cpp:143-168 | both orders issue the same multiset of operations |
| `SaxpyLauncher.SaxpyFunctor` | hybrid/saxpy/saxpy.hip.cpp:84-89 | the functor returns 500 times `a * x + y` |
| `SaxpyLauncher.ChunkBounds` | hybrid/saxpy/saxpy.hip.cpp:177-180 | stream `i`'s chunk is `[Sum(sizes[..i]), Sum(sizes[..i + 1]))` and lies inside `[0, N)` |
| `SaxpyLauncher.Launcher.constructor` | hybrid/saxpy/saxpy.hip.cpp:93-99 | the launcher records its arguments; device pointers are null, there is no plan and nothing is allocated |
| `SaxpyLauncher.Launcher.Initialize` | hybrid/saxpy/saxpy.hip.cpp:115-140 | builds the plan for `(nstreams, N)` and allocates two fresh device buffers of `N` elements, recorded as live |
| `SaxpyLauncher.Launcher.MemcpyHtoD` | hybrid/saxpy/saxpy.hip.cpp:171-181 | copies exactly stream `i`'s chunk of `X` and `Y` to the device and appends the copy to the issue trace |
| `SaxpyLauncher.Launcher.ExecuteThrust` | hybrid/saxpy/saxpy.hip.cpp:184-199 | replaces exactly stream `i`'s chunk of device `Y` with the functor of `(devX, devY)` |
| `SaxpyLauncher.Launcher.MemcpyDtoH` | hybrid/saxpy/saxpy.hip.cpp:202-206 | copies exactly stream `i`'s chunk of device `Y` back to host `Y` |
| `SaxpyLauncher.Launcher.Run` | hybrid/saxpy/saxpy.hip.cpp:143-168 | in either order, issues that order's trace, leaves every host `Y[j]` equal to `500 * (A * X[j] + Y[j])`, leaves `X` unchanged, and leaves the device mirrors equal to the host vectors |
| `SaxpyLauncher.Launcher.RunDepthFirst` | hybrid/saxpy/saxpy.hip.cpp:145-153 | the per-stream loop's effect and its depth-first trace |
| `SaxpyLauncher.Launcher.RunBreadthFirst` | hybrid/saxpy/saxpy.hip.cpp:154-167 | the three loops' combined effect and their breadth-first trace |
| `SaxpyLauncher.Launcher.CopyInAll` | hybrid/saxpy/saxpy.hip.cpp:157-158 | after the first loop the device mirrors equal `X` and `Y` everywhere |
| `SaxpyLauncher.Launcher.ComputeAll` | hybrid/saxpy/saxpy.hip.cpp:161-162 | after the second loop every device `Y[j]` holds the functor result |
| `SaxpyLauncher.Launcher.CopyOutAll` | hybrid/saxpy/saxpy.hip.cpp:165-166 | after the third loop host `Y` equals device `Y` |
| `SaxpyLauncher.Launcher.Free` | hybrid/saxpy/saxpy.hip.cpp:104-107 | freeing null is a no-op and freeing a live buffer releases it; anything else is reported as an invalid free |
| `SaxpyLauncher.Launcher.DestroyAsWritten` | hybrid/saxpy/saxpy.hip.cpp:102-112 | the destructor as written frees both buffers and drops the plan, but `dev_Y` keeps its freed address |
| `SaxpyLauncher.Launcher.Destroy` | hybrid/saxpy/saxpy.hip.cpp:102-112 | the corrected destructor frees both buffers and nulls both pointers |
| `SaxpyLauncher.DoubleDestructionAsWritten` | hybrid/saxpy/main.cpp:223-230 | destroying an initialised launcher twice succeeds the first time and fails the second time, when the stale `dev_Y` is freed again |
| `SaxpyLauncher.DoubleDestruction` | hybrid/saxpy/main.cpp:223-230 | with the corrected destructor both destructions succeed |
| `HostSplit.ResolveThreadCount` | hybrid/saxpy/main.cpp:46-48 | a thread count of 0 becomes the hardware concurrency; any other count is kept |
| `HostSplit.LocalItems` | hybrid/saxpy/main.cpp:51-53 | the rank's share, shifted left by 20 bits, modulo 2^64; there is no wrap while the share is below 2^44 |
| `HostSplit.ResolveRatio` | hybrid/saxpy/main.cpp:62-70 | a negative ratio becomes the `r` with `r * (CUs + threads) == CUs`, undefined when both are 0; a ratio above 1 becomes 1; any other is kept; the result lies in `[0, 1]` |
| `HostSplit.Split` | hybrid/saxpy/main.cpp:72-73 | the device gets `floor(n * ratio)` items and the host the rest, which together make `n`; ratio 0 leaves the device with nothing, ratio 1 the host |
| `HostWorkers.Stride` | hybrid/saxpy/main.cpp:171-176 | the indices a worker loop visits, in visiting order: it starts at `start`, stays below `n`, and each index is the previous one plus `T` |
| `HostWorkers.StrideVisits` | hybrid/saxpy/main.cpp:171-176 | a worker starting at `start` visits exactly the indices `j` below `n` with `start <= j` and `(j - start) % T == 0` |
| `HostWorkers.ResidueVisits` | hybrid/saxpy/main.cpp:167-176 | for a start `tid < T`, the indices passed are exactly those with remainder `tid` modulo `T` |
| `HostWorkers.ExactlyOneWorker` | hybrid/saxpy/main.cpp:166-182 | every index below `n` is visited by exactly one of the `T` workers, and none at or beyond `n` by any |
| `HostWorkers.Worker` | hybrid/saxpy/main.cpp:171-176 | a worker starting at any `start` adds `500 * A * X[j]` to exactly the `Y[j]` of its stride and leaves every other element unchanged |
| `HostWorkers.RunWorkersShared` | hybrid/saxpy/main.cpp:166-178 | thread `k` starts at the value of the shared `tid` it reads, anywhere from `k` to `T`; index `j` gets one batch of 500 updates per thread whose stride passes it |
| `HostWorkers.BothReadOne` | hybrid/saxpy/main.cpp:166-178 | when both of two threads read `tid == 1`, `Y[0]` is never updated and `Y[1]` is updated twice |
| `HostWorkers.SecondReadsEnd` | hybrid/saxpy/main.cpp:166-178 | when the second of two threads reads `tid` after the last increment, when it is 2, `Y[0]` is updated once, `Y[1]` never and `Y[2]` twice |
| `HostWorkers.RunWorkers` | hybrid/saxpy/main.cpp:166-182 | with each thread starting at its own index, every host `Y[j]` gets `500 * A * X[j]` added exactly once when `T > 0`, and nothing changes with no threads |
| `HybridMain.DeviceHalf` | hybrid/saxpy/main.cpp:114-230 | the device buffer ends at `500 * (A * init + init)` everywhere; with the destructor as written the destructions fail exactly when the launcher was initialised, with the corrected one they succeed |
| `HybridMain.HostHalf` | hybrid/saxpy/main.cpp:121-185 | host element `j` ends at `init` plus one `500 * A * init` per thread whose stride passes `j` |
| `HybridMain.Compute` | hybrid/saxpy/main.cpp:114-230 | as written: the halves' lengths are the split of the local count, the device half ends at `500 * (A * init + init)`, host element `j` gets one batch of updates per thread passing it, and cleanup succeeds exactly when the device share is empty |
| `HybridMain.ComputeCorrected` | hybrid/saxpy/main.cpp:114-230 | with the corrected destructor and by-value `tid`: the host half ends at `init + 500 * A * init` when there is a thread, and both destructions succeed |
| `HybridMain.HalvesAgree` | hybrid/saxpy/saxpy.hip.cpp:84-89 | the device functor and the host loop of hybrid/saxpy/main.cpp:173-174 agree on an element exactly when its initial `Y` is 0 |
| `CachedDecomposition.RankState.constructor` | hybrid_mpi_hip/utils/mpi_utils.h:89-140 | the loads cache starts empty and the GPU id starts at -1 |
| `CachedDecomposition.RankState.Decompose` | hybrid_mpi_hip/utils/mpi_utils.h:95-110 | the first call fills the cache with the near-equal loads of its `N`; later calls return the cache unchanged, whatever `N` they pass |
| `CachedDecomposition.RankState.Count` | hybrid_mpi_hip/utils/mpi_utils.h:116-119 | the caller's load, taken from the loads of the first `N` seen |
| `CachedDecomposition.RankState.Offset` | hybrid_mpi_hip/utils/mpi_utils.h:125-133 | the caller's offset in the loads of the first `N` seen, in closed form |
| `CachedDecomposition.SecondDecompositionIsStale` | hybrid_mpi_hip/utils/mpi_utils.h:98-109 | a second decomposition for `N2` returns the loads of `N1`, which add up to `N1` |
| `CachedDecomposition.CachedBlock` | hybrid_mpi_hip/utils/mpi_utils.h:116-133 | once the cache is filled for `N1`, count and offset describe the rank's block of `[0, N1)`, even when asked for `N2`, and the last rank's block ends at `N1` |
| `CachedDecomposition.RankState.GetMyGPU` | hybrid_mpi_hip/utils/mpi_utils.h:148-173 | the first call stores the node-local rank and then fails when it is not in `[0, n_gpus)`; a stored non-negative id is returned without recomputation |
| `CachedDecomposition.RankState.GetMyGPUValidated` | hybrid_mpi_hip/utils/mpi_utils.h:148-173 | the lookup storing the id only after it has been validated |
| `CachedDecomposition.RetryAfterOutOfRange` | hybrid_mpi_hip/utils/mpi_utils.h:151-172 | after a failed first lookup, the second returns the rejected id |
| `CachedDecomposition.RetryAfterOutOfRangeValidated` | hybrid_mpi_hip/utils/mpi_utils.h:151-172 | with validation before storing, the second lookup fails again |
| `CachedDecomposition.LookupOnce` | hybrid_mpi_hip/utils/mpi_utils.h:151-172 | a valid id is computed once and returned on every later call, whatever GPU count they pass |
| `CachedDecomposition.GetDatatype` | hybrid_mpi_hip/utils/mpi_utils.h:68-82 | `int`, `long`, `float` and `double` map to the MPI datatype of the same width and kind; any other type fails with an invalid argument |
| `CachedDecomposition.GetDatatypeInjective` | hybrid_mpi_hip/utils/mpi_utils.h:68-82 | distinct supported types get distinct MPI datatypes |
| `GpuId.GpuIdHolder.constructor` | hybrid_mpi_hip/utils/gpu_utils.hip.cpp:7 | the id starts unset at -1 |
| `GpuId.GpuIdHolder.GetMyGPU` | hybrid_mpi_hip/utils/gpu_utils.hip.cpp:9-15 | a negative id fails with an invalid argument; otherwise the stored id is returned |
| `GpuId.GpuIdHolder.SetMyGPU` | hybrid_mpi_hip/utils/gpu_utils.hip.cpp:17-19 | overwrites the id without checking it |
| `GpuId.FreshIsUnset` | hybrid_mpi_hip/utils/gpu_utils.hip.cpp:7-12 | a fresh holder fails until an id is set |
| `GpuId.SetThenGet` | hybrid_mpi_hip/utils/gpu_utils.hip.cpp:9-19 | the last id set wins: a non-negative one is returned as is, and a negative one brings the failure back |
| `TinyRecordMap.IndexOf` | hybrid/utils/tinyrecord.h:36-41 | the position of the first entry with the key, or the end when there is none |
| `TinyRecordMap.Lookup` | hybrid/utils/tinyrecord.h:57-64 | a key is found exactly when some entry has it, and the value found is stored with it |
| `TinyRecordMap.Inserted` | hybrid/utils/tinyrecord.h:44-54 | inserting grows the entries by one exactly when the key was absent |
| `TinyRecordMap.LookupInserted` | hybrid/utils/tinyrecord.h:44-64 | after `insert(k, v)`, `at(k) == v` and every other key keeps its value or its absence |
| `TinyRecordMap.InsertedKeys` | hybrid/utils/tinyrecord.h:44-54 | inserting appends a new key at the end, leaves the key order otherwise unchanged, and keeps keys unique |
| `TinyRecordMap.LookupUnique` | hybrid/utils/tinyrecord.h:36-64 | with unique keys, a key is found with a value exactly when that pair is stored |
| `TinyRecordMap.DistinctKeyCount` | hybrid/utils/tinyrecord.h:67-69 | with unique keys the entry count equals the number of distinct keys |
| `TinyRecordMap.TinyRecord.Find` | hybrid/utils/tinyrecord.h:36-41 | a linear search returning the first match or the end |
| `TinyRecordMap.TinyRecord.Insert` | hybrid/utils/tinyrecord.h:44-54 | an absent key is appended and a present one is overwritten in place; afterwards the key maps to the value, other keys are unchanged, and unique keys stay unique |
| `TinyRecordMap.TinyRecord.At` | hybrid/utils/tinyrecord.h:57-64 | the stored value, or `out_of_range` when the key is absent |
| `TinyRecordMap.TinyRecord.AssignAt` | hybrid/utils/tinyrecord.h:57-64 | writing through `at(key)` overwrites the found entry; for an absent key it fails and changes nothing |
| `TinyRecordMap.TinyRecord.Size` | hybrid/utils/tinyrecord.h:67-69 | the entry count, which is the number of distinct keys when keys are unique |
| `TinyRecordMap.TinyRecord.Clear` | hybrid/utils/tinyrecord.h:72 | no entries remain |
| `TinyTimerModel.ToMicros` | hybrid/utils/tinytimer.h:67-68 | a nanosecond span cast to microseconds, truncated toward zero |
| `TinyTimerModel.Accumulate` | hybrid/utils/tinytimer.h:108-116 | one `append`: the records grow by one entry exactly when the name was not yet recorded |
| `TinyTimerModel.Totals` | hybrid/utils/tinytimer.h:108-116 | the records after appending every interval in turn; never more records than intervals |
| `TinyTimerModel.NamesOccur` | hybrid/utils/tinytimer.h:108-116 | a name is recorded exactly when some interval carries it; a name never recorded totals 0 |
| `TinyTimerModel.TotalsMeaning` | hybrid/utils/tinytimer.h:108-116 | the records hold one entry per name, in first-appearance order, and each entry is the sum of that name's intervals |
| `TinyTimerModel.TinyTimer.constructor` | hybrid/utils/tinytimer.h:37 | the stack and the records start empty |
| `TinyTimerModel.TinyTimer.Start` | hybrid/utils/tinytimer.h:47-51 | pushes the current time |
| `TinyTimerModel.TinyTimer.Stop` | hybrid/utils/tinytimer.h:56-74 | pops the most recent start and records the time since it; with an empty stack it records the uninitialised duration |
| `TinyTimerModel.TinyTimer.Clear` | hybrid/utils/tinytimer.h:78-80 | the records are emptied and the start stack is left as it is |
| `TinyTimerModel.TinyTimer.Append` | hybrid/utils/tinytimer.h:108-116 | adds to the record of the same name, or inserts a new record at the end |
| `TinyTimerModel.TinyTimer.Get` | hybrid/utils/tinytimer.h:121-127 | 0 for an unknown name; otherwise the stored total, which is the sum of that name's intervals |
| `TinyTimerModel.TinyTimer.Report` | hybrid/utils/tinytimer.h:92-100 | one line per record, in the order the names were first recorded, each with its total |
| `TinyTimerModel.NestedIntervals` | hybrid/utils/tinytimer.h:47-74 | starts and stops pair up last-in first-out |
| `TinyTimerModel.RepeatedName` | hybrid/utils/tinytimer.h:108-116 | two intervals of one name accumulate into a single record |
| `LogFormat.Digits` | hybrid/utils/log_utils.h:18 | the decimal text of the rank: at least one character, every one a digit `0`-`9` |
| `LogFormat.Replace` | hybrid/utils/log_utils.h:31-32 | `regex_replace` of each newline by a newline and the prefix: the text grows by one prefix per newline. The replacement is taken literally here; `regex_replace` would treat a `$` in it specially, and `LogFormat.RankPrefix` shows the rank prefix holds none |
| `LogFormat.Format` | hybrid/utils/log_utils.h:18-33 | `logutils::format` behind a given prefix: the output ends with a newline exactly when the prefixed message does |
| `LogFormat.DigitsValue` | hybrid/utils/log_utils.h:18 | the decimal digits of the rank read back as the rank |
| `LogFormat.Centre` | hybrid/utils/log_utils.h:18 | `{: ^width}` pads with spaces to the width, the odd space going to the right |
| `LogFormat.RankPrefix` | hybrid/utils/log_utils.h:18 | the prefix is `[RANK `, the centred rank and `] `; it holds no newline and no `$`, and is 12 characters long for ranks below 10000 |
| `LogFormat.RankThreePrefix` | hybrid/utils/log_utils.h:18 | rank 3 gives `[RANK  3  ] ` |
| `LogFormat.FormatShape` | hybrid/utils/log_utils.h:19-33 | one trailing newline of the message is set aside, the prefixed rest is rewritten, and the newline is put back |
| `LogFormat.FormatNewlines` | hybrid/utils/log_utils.h:19-33 | the output starts with the prefix, has exactly the message's number of newlines, and ends with a newline exactly when the message does |
| `LogFormat.FormatPrefixesLines` | hybrid/utils/log_utils.h:30-33 | every newline of the output except a final trailing one is followed by the prefix |
| `LogFormat.FormatRoundTrip` | hybrid/utils/log_utils.h:18-33 | removing the leading prefix and the prefix after each newline gives back the message |
| `LogFormat.FormatTwoLines` | hybrid/utils/log_utils.h:18-33 | `a\nb\n` becomes prefix, `a\n`, prefix, `b\n` |

## Left out

- MPI itself is left out: initialisation, finalisation, communicators, `MPI_Comm_split_type` and reductions. Their answers are parameters.
- The HIP runtime is left out: stream creation, destruction and synchronisation, host and device allocation, asynchronous copies, device properties and warm-up. Streams run their operations in issue order, so `synchronize` has nothing left to wait for and is not modelled.
- Overlap between streams and between the device half and the host threads is not modelled. Each operation runs alone.
- `SAXPYLauncher::initialize` also calls `hipSetDevice(gpuutils::getMyGPU())`. That call is not part of `Initialize`. The `getMyGPU` it reaches, hybrid/utils/gpu_utils.hip.cpp:66-98, is a compute-once lookup over the node-local MPI rank with a range check; it is not part of this model. It has the shape of the one in `hybrid_mpi_hip/utils/mpi_utils.h` modelled by `CachedDecomposition.RankState.GetMyGPU`, and also stores the id before checking it.
- Floating point is not modelled. Vector elements are integers, so rounding of `float` sums is absent. The ratio is a real, so the single-precision rounding of `CUs / units` and of `N * ratio` is absent. The NaN that `0 / 0.0` gives is the `None` of `HostSplit.ResolveRatio`, and the undefined conversion of `N * NaN` to `size_t` is not modelled.
- `HostSplit.ResolveThreadCount`: a negative `-t` count is kept as given. The `size_t` comparison that then lets the spawning loop run away is not modelled, and the workers take a non-negative count.
- `HostSplit.ResolveRatio`: takes a non-negative thread count, while `N_THREADS` is a signed `int`. With a negative count, `units = N_THREADS + CUs` can be negative or smaller than `CUs`; the automatic ratio then falls below 0 or above 1 and is used unclamped. That case is not modelled.
- `HostWorkers.RunWorkersShared`: threads in this model run one after the other. Two threads that update the same element at the same time could also lose updates; that is not modelled.
- `HostWorkers.RunWorkersShared`: a thread that first runs after the spawning loop has ended reads `tid` after its lifetime is over. The model takes such a read to give the final value `T`; other outcomes of that undefined read are not modelled.
- In the source the host buffers of the device share stay null exactly when `N_gpu == 0` (main.cpp:56-57, 114-119), and such a launcher is never initialised (main.cpp:144-145). The model gives that launcher empty arrays instead of null pointers.
- `GPUPlans::toString` and `printString`, `logutils::print` and `join`, the `TinyTimer` destructor's message, `TinyTimer::print` and `format` (the float formatting of a record), and the alignment diagnostic in `memcpyHtoD` only produce log output. They are left out.
- `parseOptions`, the option statics, and the timing calls around each phase of `main` are left out.
- hybrid/utils/gpu_tinytimer.hip.cpp, the benchmarks and the other example programs are not part of this model.

## Findings

| source | as written | input that shows it | evidently intended | confidence | as-written member | corrected member |
|---|---|---|---|---|---|---|
| hybrid/saxpy/saxpy.hip.cpp:107-108 | after `hipFree(dev_Y)` the destructor nulls `dev_X` again; `dev_Y` stays set. main.cpp:227 calls the destructor explicitly, and scope exit runs it a second time | any initialised launcher, e.g. `N_gpu > 0` with two streams | `dev_Y = nullptr`, so the second destruction frees only null pointers | high, not executed | `SaxpyLauncher.DoubleDestructionAsWritten` | `SaxpyLauncher.DoubleDestruction` |
| hybrid/saxpy/main.cpp:167-178 | each thread's lambda captures the loop variable `tid` by reference and reads it only when the thread runs | `N_THREADS = 2`, `N_cpu = 2`, both threads reading `tid` after the first increment: `Y_cpu[0]` is never updated and `Y_cpu[1]` is updated twice; with `N_cpu = 3` and the second thread reading `tid == 2`, `Y_cpu[1]` is never updated and `Y_cpu[2]` twice | every thread starts at the `tid` it was spawned with (capture by value) | high, not executed | `HostWorkers.BothReadOne` | `HostWorkers.RunWorkers` |
| hybrid_mpi_hip/utils/mpi_utils.h:162-170 | `_gpu_id` is stored before it is checked, and the `finalize` after the `throw` is unreachable | node-local rank 2 with `n_gpus = 2` and a caller that catches the `out_of_range`: the first call throws, and a second call returns 2 | an invalid id is rejected on every call | medium, not executed | `CachedDecomposition.RetryAfterOutOfRange` | `CachedDecomposition.RetryAfterOutOfRangeValidated` |

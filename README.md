# thesoup core, modelled in Dafny

This project models the core of *thesoup*, a header-only C++ library of
small building blocks: a single-threaded coroutine runtime (promises,
futures, a round-robin executor and a future composer), a few graph
containers, two graph algorithms, a disjoint-set forest, and two paged
vectors (one that owns all its pages and one that keeps a bounded cache of
pages and swaps them out through user-supplied saver and loader callbacks).

The modules follow the library's headers:

- `Common` (`common.dfy`): `Result`, `Option`, `Unit` and the exception values the library passes around
- `Promises` (`promise.dfy`): a coroutine's `promise_type`: the write-once result cell and the task status
- `Coroutines` (`coroutines.dfy`): coroutine frames, the `World` of frames and outside promises, and `resume`/`destroy` of each helper coroutine and test routine
- `RoundRobin` (`executor.dfy`): `RoundRobinCoroExecutor`: the handle queue, the open-task counter, the run flag, `step` and `stop`
- `Composers` (`composer.dfy`): `FutureComposer`: `map`, `flatmap`, `join`, `collect` and `get_future`
- `CoroutineFacts` (`coroutine_facts.dfy`): invariants of the helper coroutines kept by every executor step, and write-once futures
- `ExecutorTraces` (`executor_traces.dfy`): the executor test scenarios (counting routines, throwing routines, open-task counts)
- `ComposerTraces` (`composer_traces.dfy`): the `map` then `flatmap` composer scenario
- `DisjointSets` (`disjoint_sets.dfy`): disjoint sets over a fixed universe, kept as a map from each leader to its members and a map from each element to its leader
- `GraphTypes` (`graph_types.dfy`): the neighbour and edge records shared by the graph modules
- `SimpleGraph` (`simplegraph.dfy`): `SimpleWeightedGraph`, the weighted directed graph keyed by vertex
- `IndexedGraph` (`indexedgraph.dfy`): `IndexedPropertyDiGraph`, the digraph with interned vertex and edge-type ids and mirrored adjacency
- `Kruskal` (`kruskal.dfy`): `kruskal`: edges sorted by weight and kept when a `DisjointSets` says their ends are still apart
- `GraphTraversals` (`bfs.dfy`): breadth-first search with a per-vertex callback
- `Paging` (`paging.dfy`): the page/offset arithmetic, the flattening of pages and the iterator both vectors share
- `PartitionedVectors` (`partitioned_vector.dfy`): `PartitionedVector`: a vector grown page by page
- `VectorCaches` (`vector_cache.dfy`): `VectorCache`: a direct-mapped page table whose evicted pages go to a saver and come back through a loader
- `VectorCacheScenarios` (`vector_cache_scenarios.dfy`): the vector cache test scenarios and the move-constructor finding

Coroutine frames and their `promise_type` objects are values collected in a
`World`, and the executor and composer are classes whose methods take a
world and return the next one. `step` is proved against a pure fold over
the handle queue (`Sweep`), and the test scenarios are stated as lemmas and
methods about the worlds they produce. The containers that the library
updates in place (`DisjointSets`, `SimpleWeightedGraph`, `IndexedPropertyDiGraph`,
`PartitionedVector`, `VectorCache`) are classes whose fields are `map`s and
`seq`s, and each method states its new state against an abstract view
(the items in order, the adjacency maps, the leader map) whose properties are
proved as lemmas.

headers/thesoup/async/functions.hpp is an older copy of the composer
header, and the composer test tst/thesoup/async/functions.cc includes it
rather than headers/thesoup/async/futures.hpp. Its `make_ready_future`,
`make_bad_future`, `is_ready`, the four helper coroutines (`map_coroutine`,
`flatmap_coroutine`, `join_coroutine`, `collect_coroutine`) and
`FutureComposer`'s `map`, `flatmap`, `join`, `collect` and `get_future`
have the same bodies as in futures.hpp, with a `std::function` parameter
where futures.hpp takes a `Callable` constrained by a concept. The same
members model both headers; the rows below cite futures.hpp.

## Model

| member | source | states |
|---|---|---|
| Promises.PromiseType.AwaitExecutor | headers/thesoup/async/types.hpp:107-113 | the first `co_await executor` asks to be scheduled exactly when the status is PENDING and leaves it SCHEDULED; once the status is not PENDING nothing changes; the future is never touched |
| Promises.PromiseType.ReturnValue | headers/thesoup/async/types.hpp:116-119 | `return_value` makes the status COMPLETE and satisfies the future with exactly the returned value |
| Promises.PromiseType.UnhandledException | headers/thesoup/async/types.hpp:121-123 | `unhandled_exception` stores the exception in the future and leaves the status as it was (not COMPLETE) |
| Promises.ScheduledAtMostOnce | headers/thesoup/async/types.hpp:87-123 | over any life of a coroutine (awaits, then at most one `co_return` or exception), `schedule` is called at most once, and exactly when it starts PENDING and awaits its executor; the status never moves back; the future is written only by the final event |
| Coroutines.MakeReadyFuture | headers/thesoup/async/futures.hpp:34-40 | the future is ready and holds the given value, whatever else happens |
| Coroutines.MakeBadFuture | headers/thesoup/async/futures.hpp:52-58 | the future is ready and holds the given exception, whatever else happens |
| Coroutines.Settle | headers/thesoup/async/types.hpp:105-123 | at each suspension point the promise reacts: the frame is done exactly after `co_return` or an exception; a return makes the status COMPLETE with that value, an exception is stored with the status unchanged; the frame asks to be scheduled exactly when it awaits its executor while PENDING; a status that has left PENDING never returns to it |
| Coroutines.Resume | headers/thesoup/async/round_robin_threadpool.hpp:108-110 | `resume()` changes only the resumed frame, counts one more resume, keeps "done iff future satisfied", and a frame already scheduled never asks to be scheduled again |
| Coroutines.Destroy | headers/thesoup/async/round_robin_threadpool.hpp:104-106 | `destroy()` on a done frame marks only that frame destroyed; its future and resume count stay |
| Coroutines.Launch | headers/thesoup/async/types.hpp:98-105 | calling a coroutine adds one new frame (the handle is the next index), leaves all older frames alone, and since `initial_suspend` never suspends the frame has already run; if it asked to be scheduled its status is SCHEDULED |
| Coroutines.LaunchAsksToBeScheduled | headers/thesoup/async/types.hpp:105-113 | every modelled coroutine, once called, is not done, is SCHEDULED with an empty future, has asked its executor once, and has applied and written nothing |
| Coroutines.SetExternal | tst/thesoup/async/functions.cc:121 | setting a promise held outside the coroutines satisfies exactly that future and leaves every frame and every other promise alone |
| Coroutines.IsReady | headers/thesoup/async/futures.hpp:69-74 | `is_ready` holds exactly when the future holds a value or an exception; a moved-from future is never ready, a made future is ready exactly when its cell is not empty |
| Coroutines.Get | headers/thesoup/async/futures.hpp:96 | `get()` on a ready future returns exactly its value when it holds one and throws exactly its stored exception otherwise |
| Coroutines.CounterLoop | tst/thesoup/async/round_robin_threadpool.cc:17-42 | the counting loop keeps the routine and its arguments, applies and writes nothing, awaits `Unit` exactly while the index is below 10 (then with one more counted), and from 10 on returns the count |
| Coroutines.CollectFrom | headers/thesoup/async/futures.hpp:142-149 | the copy loop keeps the body and applies nothing; it writes out, in order, exactly the values of the inputs it passes; it returns `Unit` only after all inputs, suspends exactly on the first input that is not ready, and throws exactly that input's exception |
| Coroutines.FlatMapWaitNext | headers/thesoup/async/futures.hpp:109-112 | the wait for the future the function returned suspends exactly while that future is not ready, then returns its value or rethrows its exception; the applied calls are passed on unchanged |
| Coroutines.JoinWaitRight | headers/thesoup/async/futures.hpp:124-129 | once the left input is ready: suspends exactly while the right one is not, returns the pair of both values exactly when both hold values, and otherwise rethrows the left exception first, else the right one |
| Coroutines.Run | headers/thesoup/async/futures.hpp:87-150 | running any helper coroutine or test routine to its next suspension keeps its body and arguments; only a routine at its entry (or the routine that schedules twice) awaits the executor; the user function is applied at most once per run, only by `map` and `flatmap`, and only to their input's value; only `collect` writes values out |
| Coroutines.Advance | headers/thesoup/async/round_robin_threadpool.hpp:109 | running one frame to its next suspension keeps the number of frames and the outside promises, and only appends to the frame's applied calls (at most one) and written values |
| Coroutines.ResumeKeepsBody | headers/thesoup/async/round_robin_threadpool.hpp:109 | `resume()` leaves a frame the same coroutine called with the same arguments |
| RoundRobin.Executor.constructor | headers/thesoup/async/round_robin_threadpool.hpp:38-40 | a new executor has an empty queue, a zero counter and `run` set |
| RoundRobin.Executor.Schedule | headers/thesoup/async/round_robin_threadpool.hpp:52-56 | `schedule` appends the handle at the back and the counter follows the queue length |
| RoundRobin.Executor.Stop | headers/thesoup/async/round_robin_threadpool.hpp:86-88 | `stop` clears the run flag and leaves the queue and the counter unchanged |
| RoundRobin.Executor.Size | headers/thesoup/async/round_robin_threadpool.hpp:123-125 | `size` is the length of the queue, finished-but-not-yet-removed tasks included |
| RoundRobin.Executor.StepAt | headers/thesoup/async/round_robin_threadpool.hpp:103-111 | one iteration of `step`'s loop: a done frame is destroyed and erased (counter down), an unfinished one is resumed and the iterator advances; what remains of the pass is unchanged |
| RoundRobin.Executor.Step | headers/thesoup/async/round_robin_threadpool.hpp:100-113 | `step` leaves exactly the queue and world of one pass `Sweep` (a specification function) over the old queue, and keeps the counter equal to the queue length |
| RoundRobin.SweepKept | headers/thesoup/async/round_robin_threadpool.hpp:102-112 | after a pass the queue holds exactly the handles whose frames were not done, in their old order (survivors are never reordered) |
| RoundRobin.SweepFrames | headers/thesoup/async/round_robin_threadpool.hpp:102-112 | in a pass each queued unfinished frame is resumed exactly once, each done frame is destroyed without a resume, and frames outside the queue and outside promises do not change |
| RoundRobin.SweepQueueOk | headers/thesoup/async/round_robin_threadpool.hpp:100-113 | a pass keeps the queue invariant: every queued handle names a live, already scheduled frame and no handle is queued twice |
| RoundRobin.SweepFrameAlone | headers/thesoup/async/round_robin_threadpool.hpp:104-110 | in a pass a queued frame that reads no future ends exactly as one `resume()` of it alone leaves it, and a finished frame is only marked destroyed: the tasks do not interfere |
| RoundRobin.SweepDropsFinished | headers/thesoup/async/round_robin_threadpool.hpp:104-107 | a pass over a queue whose head is done destroys and drops the head and then sweeps the rest |
| RoundRobin.SweepKeepsUnfinished | headers/thesoup/async/round_robin_threadpool.hpp:108-110 | a pass over a queue whose head is unfinished resumes it, keeps it in front, then sweeps the rest |
| RoundRobin.Passes | headers/thesoup/async/round_robin_threadpool.hpp:70-72 | `k` successive calls of `step` keep the queue invariant |
| RoundRobin.StepHead | headers/thesoup/async/round_robin_threadpool.hpp:104-110 | `step` on the first queued handle changes only that frame and leaves the outside promises alone: a done frame is destroyed with its resume count kept, an unfinished one is resumed once more and stays alive |
| RoundRobin.Sweep | headers/thesoup/async/round_robin_threadpool.hpp:100-113 | one pass of `step` over the queue; its properties are stated by `RoundRobin.SweepKept`, `RoundRobin.SweepFrames`, `RoundRobin.SweepQueueOk`, `RoundRobin.SweepDropsFinished` and `RoundRobin.SweepKeepsUnfinished` |
| RoundRobin.Spawn | headers/thesoup/async/types.hpp:98-113 | calling a coroutine that awaits `exec` makes its frame, runs it to its first suspension and, when it asks, appends its handle to the queue; the queue invariant holds afterwards |
| ExecutorTraces.CounterResume | tst/thesoup/async/round_robin_threadpool.cc:17-42 | each `resume()` moves a counting routine one loop iteration on; the last one stores `10 - start` (or the routine's `runtime_error`) and marks it done |
| ExecutorTraces.LaunchCountersState | tst/thesoup/async/round_robin_threadpool.cc:59-62 | calling the counting routines in order leaves each one waiting at its first await, SCHEDULED, with an empty future |
| ExecutorTraces.LaunchCountersQueue | tst/thesoup/async/round_robin_threadpool.cc:59-68 | the routines called in order form a valid queue in the order they were called |
| ExecutorTraces.PassCounters | headers/thesoup/async/round_robin_threadpool.hpp:100-113 | one pass over counting routines moves every routine that still needs resumes one iteration on, destroys and drops the finished ones, and keeps the queue in calling order |
| ExecutorTraces.CountersTrace | headers/thesoup/async/round_robin_threadpool.hpp:100-113 | after `k` calls of `step` every counting routine is in the state its own count predicts, and the queue holds exactly the routines that still need passes |
| ExecutorTraces.CounterFuture | tst/thesoup/async/round_robin_threadpool.cc:92-121 | routine `i` is done after `k` calls of `step` exactly when `k` reaches its needed resumes, and its future then holds its result (and is empty before) |
| ExecutorTraces.RoundRobinTheorem | tst/thesoup/async/round_robin_threadpool.cc:84-124 | for any counting routines: after `k` calls of `step` each routine is done exactly when `k` reaches its needed resumes, its future then holds its result, and the queue (whose length `size` reports) holds exactly the unfinished-or-not-yet-swept routines in calling order |
| ExecutorTraces.SurvivorsMembers | headers/thesoup/async/round_robin_threadpool.hpp:104-107 | a routine is still queued after `k` passes exactly when it needs at least `k` passes |
| ExecutorTraces.SurvivorsBounds | tst/thesoup/async/round_robin_threadpool.cc:86-107 | the queue is full exactly while every routine still needs the pass count, and empty exactly when none does |
| ExecutorTraces.FourFull | tst/thesoup/async/round_robin_threadpool.cc:86-88 | in the first test the queue keeps all four routines for exactly the first three calls of `step` |
| ExecutorTraces.FourEmpty | tst/thesoup/async/round_robin_threadpool.cc:105-107 | in the first test the queue is empty from the tenth call of `step` on, and not before |
| ExecutorTraces.FourAtFirstDrop | tst/thesoup/async/round_robin_threadpool.cc:90-100 | when the size first drops, only the routine counting from 8 is done, with 2 |
| ExecutorTraces.FourAtEnd | tst/thesoup/async/round_robin_threadpool.cc:109-122 | once the queue is empty the four futures hold 2, 4, 6 and 8 |
| ExecutorTraces.PairEmpty | tst/thesoup/async/round_robin_threadpool.cc:143-145 | in the throwing test the queue is empty from the twelfth call of `step` on, and not before |
| ExecutorTraces.PairAtEnd | tst/thesoup/async/round_robin_threadpool.cc:149-153 | the well-behaved routine's future holds 10 and the throwing one's holds its `runtime_error` |
| ExecutorTraces.SpawnCounter | tst/thesoup/async/round_robin_threadpool.cc:59-62 | calling the next counting routine schedules it as the next handle |
| ExecutorTraces.StepWhileSize | tst/thesoup/async/round_robin_threadpool.cc:86-88 | `while (size() == s) step();` stops exactly after the call that drops the size |
| ExecutorTraces.StepWhileAny | tst/thesoup/async/round_robin_threadpool.cc:105-107 | `while (size() > 0) step();` stops exactly after the call that empties the queue |
| ExecutorTraces.FourRoutines | tst/thesoup/async/round_robin_threadpool.cc:57-124 | the executor's first test: size 4 after the calls; when the size first drops only the first future is ready (2); at the end the futures hold 2, 4, 6 and 8 |
| ExecutorTraces.ThrowingSibling | tst/thesoup/async/round_robin_threadpool.cc:136-155 | a throwing routine does not stop the sweep: its sibling completes with 10 and its own future holds the `runtime_error` |
| ExecutorTraces.TwiceTrace | tst/thesoup/async/round_robin_threadpool.cc:44-49 | the routine that awaits its executor twice is queued once, stays queued for two passes and leaves the queue on the third |
| ExecutorTraces.ScheduleTwiceSizes | tst/thesoup/async/round_robin_threadpool.cc:168-184 | the double-await test: `size` reads 1, 1, 1 and then 0 |
| ExecutorTraces.StepThenSize | headers/thesoup/async/round_robin_threadpool.hpp:100-125 | a call of `step` followed by `size` reports the length of the pass's surviving queue |
| ExecutorTraces.PassesNext | headers/thesoup/async/round_robin_threadpool.hpp:100-113 | `k + 1` calls of `step` are `k` calls followed by one more pass over the surviving queue |
| ExecutorTraces.TraceStart | tst/thesoup/async/round_robin_threadpool.cc:57-62 | before any `step`, the queue holds the routines as called, in order |
| ExecutorTraces.TraceNext | headers/thesoup/async/round_robin_threadpool.hpp:100-113 | after `k` steps the queue is well formed and the next step is one more pass |
| ExecutorTraces.SpawnFour | tst/thesoup/async/round_robin_threadpool.cc:55-62 | the first test's four routines, called in order on a new executor, give the queue and world the trace starts from |
| ExecutorTraces.SpawnPair | tst/thesoup/async/round_robin_threadpool.cc:134-142 | the throwing test's two routines, called in order on a new executor, give the trace's start |
| ExecutorTraces.SpawnTwice | tst/thesoup/async/round_robin_threadpool.cc:166-171 | calling the double-await routine on an empty executor queues it as handle 0, to stay for two passes and leave on the third |
| Coroutines.ResumeSelfContained | headers/thesoup/async/round_robin_threadpool.hpp:108-110 | resuming a frame that reads no other future depends on that frame alone |
| RoundRobin.QueueOkTail | headers/thesoup/async/round_robin_threadpool.hpp:102-112 | after handling the head of the queue the rest of the queue is still well formed |
| RoundRobin.TailUnchanged | headers/thesoup/async/round_robin_threadpool.hpp:102-112 | handling the head of the queue leaves the frames of every later handle unchanged (no handle is queued twice) |
| RoundRobin.StepDrop | headers/thesoup/async/round_robin_threadpool.hpp:104-107 | destroying and erasing a done head keeps the loop's promise: the pass still ends as `Sweep` of the original queue |
| RoundRobin.StepKeep | headers/thesoup/async/round_robin_threadpool.hpp:108-111 | resuming and keeping an unfinished head keeps the loop's promise |
| ExecutorTraces.UnfinishedSurvivors | tst/thesoup/async/round_robin_threadpool.cc:17-27 | after `k` passes, the queued counting routines that are still unfinished are exactly those needing at least `k + 1` resumes, in queue order |
| ExecutorTraces.SurvivorsAll | tst/thesoup/async/round_robin_threadpool.cc:59-62 | before any pass every routine survives |
| ExecutorTraces.TraceFromLaunch | tst/thesoup/async/round_robin_threadpool.cc:57-124 | after `k` steps each routine's state is as the counting argument says and the queue holds the survivors |
| ExecutorTraces.SweepOne | headers/thesoup/async/round_robin_threadpool.hpp:100-113 | a pass over a one-handle queue destroys a done frame and empties the queue, or resumes it once and keeps it |
| ExecutorTraces.Futures | tst/thesoup/async/round_robin_threadpool.cc:116-122 | reads the futures of the first `n` tasks, in handle order |
| ExecutorTraces.Spawned | tst/thesoup/async/round_robin_threadpool.cc:59-62 | calling one more counting routine keeps the older frames and the outside promises and leaves the new frame waiting at its first await, scheduled and not yet resumed |
| ExecutorTraces.LaunchFirstState | tst/thesoup/async/round_robin_threadpool.cc:59-62 | after calling the first `n` counting routines in order, each waits at its first await, scheduled and not yet resumed, and no outside promise exists |
| ExecutorTraces.LaunchFirstQueue | tst/thesoup/async/round_robin_threadpool.cc:59-62 | the first `n` routines called in order form a valid queue in the order they were called |
| ExecutorTraces.CountersPass | headers/thesoup/async/round_robin_threadpool.hpp:100-113 | one more call of `step` keeps every counting routine in the state its count predicts, and the queue equal to the routines that still need resumes |
| ExecutorTraces.SurvivorsOfAll | headers/thesoup/async/round_robin_threadpool.hpp:104-110 | of all routines, all are still queued after `k` passes exactly when each needs at least `k` resumes, and none exactly when each needs fewer |
| ExecutorTraces.TraceKept | tst/thesoup/async/round_robin_threadpool.cc:86-107 | after `k` calls of `step` the queue holds every routine exactly when each needs at least `k` resumes, and is empty exactly when each needs fewer |
| ExecutorTraces.FullWhile | tst/thesoup/async/round_robin_threadpool.cc:86-88 | the queue holds every routine for exactly as many calls of `step` as the routine needing the fewest resumes needs |
| ExecutorTraces.EmptyFrom | tst/thesoup/async/round_robin_threadpool.cc:105-107 | the queue is empty exactly from the call of `step` after the last resume of the routine needing the most |
| ExecutorTraces.Expected | tst/thesoup/async/round_robin_threadpool.cc:92-121 | the futures a set of counting routines predicts after `k` calls of `step`: each routine's result once it has had its resumes, empty before |
| ExecutorTraces.TraceFutures | tst/thesoup/async/round_robin_threadpool.cc:92-121 | after `k` calls of `step` every routine's future holds exactly what its needed resumes predict |
| ExecutorTraces.FourNeeds | tst/thesoup/async/round_robin_threadpool.cc:57-62 | the routines counting from 8, 6, 4 and 2 need 3, 5, 7 and 9 resumes |
| ExecutorTraces.FourExpected | tst/thesoup/async/round_robin_threadpool.cc:90-122 | after four calls only the routine counting from 8 holds its count 2; from ten calls on the futures hold 2, 4, 6 and 8 |
| ExecutorTraces.PairNeeds | tst/thesoup/async/round_robin_threadpool.cc:134-153 | the routine that does not throw needs 11 resumes and the one that throws needs 1; once both are done their futures hold 10 and the exception |
| Composers.FutureComposer.constructor | headers/thesoup/async/futures.hpp:194-196 | a composer holds its executor and its future and starts valid |
| Composers.FutureComposer.Compose | headers/thesoup/async/futures.hpp:232-233 | composing calls the helper coroutine, whose first await queues it at the back of the executor, and wraps the new task's future in a fresh valid composer |
| Composers.FutureComposer.Map | headers/thesoup/async/futures.hpp:230-234 | `map` moves this composer's future into a new `map_coroutine` task queued on the same executor and returns a composer over that task's future |
| Composers.FutureComposer.FlatMap | headers/thesoup/async/futures.hpp:266-270 | `flatmap` does the same with a `flatmap_coroutine` task |
| Composers.FutureComposer.Join | headers/thesoup/async/futures.hpp:296-299 | `join` moves this composer's future (left) and the other future (right) into a new `join_coroutine` task |
| Composers.FutureComposer.GetFuture | headers/thesoup/async/futures.hpp:340-347 | `get_future` hands the future out the first time and marks the composer invalid; every later call fails with `runtime_error("Invalid future.")` and changes nothing |
| Composers.Collect | headers/thesoup/async/futures.hpp:327-331 | the static `collect` queues a new `collect_coroutine` task over the inputs and wraps its future |
| CoroutineFacts.SettledByCells | headers/thesoup/async/types.hpp:116-123 | a world that keeps every satisfied frame future and outside promise keeps every satisfied future |
| CoroutineFacts.SettledTrans | headers/thesoup/async/types.hpp:116-123 | "no satisfied future changes" composes over successive steps |
| CoroutineFacts.ResumeSettles | headers/thesoup/async/types.hpp:116-123 | `resume()` writes at most the resumed frame's own, so far unsatisfied, future: a future is written once |
| CoroutineFacts.DestroySettles | headers/thesoup/async/round_robin_threadpool.hpp:104-105 | `destroy()` changes no future |
| CoroutineFacts.LaunchSettles | headers/thesoup/async/types.hpp:98-105 | calling a coroutine changes no existing future |
| CoroutineFacts.SetExternalSettles | tst/thesoup/async/functions.cc:121 | setting an unsatisfied outside promise changes no satisfied future |
| CoroutineFacts.BumpedSettled | headers/thesoup/async/round_robin_threadpool.hpp:109 | counting a resume changes no future |
| CoroutineFacts.MapOkStable | headers/thesoup/async/futures.hpp:87-97 | the `map_coroutine` frame invariant survives any change that keeps satisfied futures |
| CoroutineFacts.MapResume | headers/thesoup/async/futures.hpp:87-97 | one `resume()` of a `map_coroutine` frame keeps its invariant: the function is applied at most once, only to the input's value, never while the input is unset, and the frame completes with exactly its result, the exception it threw, or the input's exception |
| CoroutineFacts.FlatMapOkStable | headers/thesoup/async/futures.hpp:99-113 | the `flatmap_coroutine` frame invariant survives any change that keeps satisfied futures |
| CoroutineFacts.FlatMapResume | headers/thesoup/async/futures.hpp:99-113 | one `resume()` of a `flatmap_coroutine` frame keeps its invariant: the function is applied at most once, to the input's value, and the frame then waits on the returned future and completes with its contents |
| CoroutineFacts.JoinOkStable | headers/thesoup/async/futures.hpp:115-130 | the `join_coroutine` frame invariant survives any change that keeps satisfied futures |
| CoroutineFacts.JoinResume | headers/thesoup/async/futures.hpp:115-130 | one `resume()` of a `join_coroutine` frame keeps its invariant: it waits for left, then right, and completes with the pair or with an input's exception |
| CoroutineFacts.Values | headers/thesoup/async/futures.hpp:142-148 | the values held by a sequence of ready futures, in order |
| CoroutineFacts.CopiedStable | headers/thesoup/async/futures.hpp:142-148 | what `collect_coroutine` has copied stays a correct copy while satisfied futures keep their contents |
| CoroutineFacts.CopiedOneMore | headers/thesoup/async/futures.hpp:146-147 | writing the next ready input's value extends the copied prefix by one |
| CoroutineFacts.CollectFromSpec | headers/thesoup/async/futures.hpp:142-149 | a run of `collect_coroutine`'s loop copies every further ready input in order and stops at the first unset input (suspending there), at the first exception (rethrowing it) or at the end (returning Unit); it applies no function |
| CoroutineFacts.CollectOkStable | headers/thesoup/async/futures.hpp:132-150 | the `collect_coroutine` frame invariant survives any change that keeps satisfied futures |
| CoroutineFacts.CollectResume | headers/thesoup/async/futures.hpp:132-150 | one `resume()` of a `collect_coroutine` frame keeps its invariant |
| CoroutineFacts.FrameOkStable | headers/thesoup/async/futures.hpp:87-150 | every frame invariant survives any change that keeps satisfied futures |
| CoroutineFacts.OthersStayOk | headers/thesoup/async/futures.hpp:87-150 | frames left alone keep their invariants when the rest of the world only adds satisfied futures |
| CoroutineFacts.ResumeKeepsOk | headers/thesoup/async/round_robin_threadpool.hpp:109 | `resume()` keeps every frame's invariant |
| CoroutineFacts.DestroyKeepsOk | headers/thesoup/async/round_robin_threadpool.hpp:105 | `destroy()` keeps every frame's invariant |
| CoroutineFacts.LaunchKeepsOk | headers/thesoup/async/types.hpp:98-105 | calling a helper coroutine adds a frame that satisfies its invariant and keeps the others |
| CoroutineFacts.SetExternalKeepsOk | tst/thesoup/async/functions.cc:121 | setting an outside promise keeps every frame's invariant |
| CoroutineFacts.SweepKeepsOk | headers/thesoup/async/round_robin_threadpool.hpp:100-113 | a `step` keeps every frame's invariant and only adds satisfied futures |
| CoroutineFacts.PassesKeepOk | headers/thesoup/async/round_robin_threadpool.hpp:70-72 | any number of `step` calls keeps every frame's invariant and changes no satisfied future |
| CoroutineFacts.NoFramesOk | headers/thesoup/async/round_robin_threadpool.hpp:38 | a world with no frames satisfies the invariant |
| CoroutineFacts.MapCompletes | headers/thesoup/async/futures.hpp:92-96 | once the input holds a value `v`, the next `resume()` of a polling `map_coroutine` applies the function once, to `v`, and completes the task with its result or the exception it threw |
| CoroutineFacts.FlatMapCompletesInput | headers/thesoup/async/futures.hpp:104-112 | once the input holds `v` and the function throws on `v` or returns a ready future, the next `resume()` applies it once and completes the task with that exception or that future's contents |
| CoroutineFacts.FlatMapCompletesNext | headers/thesoup/async/futures.hpp:109-112 | a `flatmap_coroutine` waiting on the returned future completes at the next `resume()` once that future is ready, with its contents |
| CoroutineFacts.JoinCompletes | headers/thesoup/async/futures.hpp:120-129 | once both inputs are ready, the next `resume()` of a `join_coroutine` completes the task with the pair of their values, or the left exception, or else the right one |
| CoroutineFacts.CollectCompletes | headers/thesoup/async/futures.hpp:142-149 | once every input holds a value, the next `resume()` of a waiting `collect_coroutine` completes the task with Unit, all input values written in input order |
| CoroutineFacts.SweepHandles | headers/thesoup/async/round_robin_threadpool.hpp:100-113 | a `step` handles each queued frame once, in a world that has only gained satisfied futures and where that frame is unchanged, and leaves it as that one `resume()` or `destroy()` did |
| CoroutineFacts.MapStepCompletes | headers/thesoup/async/futures.hpp:87-97 | a queued `map_coroutine` whose input holds `v` is done after the next `step`, its future holding the function's result on `v` or the exception it threw |
| CoroutineFacts.FlatMapStepCompletes | headers/thesoup/async/futures.hpp:99-113 | a queued `flatmap_coroutine` whose input holds `v`, with the function throwing on `v` or returning a ready future, is done after the next `step` with that exception or that future's contents |
| CoroutineFacts.FlatMapNextStepCompletes | headers/thesoup/async/futures.hpp:109-112 | a queued `flatmap_coroutine` waiting on a ready returned future is done after the next `step`, holding its contents |
| CoroutineFacts.JoinStepCompletes | headers/thesoup/async/futures.hpp:115-130 | a queued `join_coroutine` with both inputs ready is done after the next `step`, holding their pair or the first exception, left before right |
| CoroutineFacts.CollectStepCompletes | headers/thesoup/async/futures.hpp:132-150 | a queued `collect_coroutine` whose inputs all hold values is done after the next `step`, holding Unit, with every input value written in order |
| CoroutineFacts.MapFuture | headers/thesoup/async/futures.hpp:87-97 | a `map_coroutine` future holds the function's result on the input's value or the exception the function threw on it (the function applied exactly once, to that value), or the input's own exception (the function never applied) |
| CoroutineFacts.FlatMapFuture | headers/thesoup/async/futures.hpp:99-113 | a `flatmap_coroutine` future holds the contents of the future the function returned for the input's value, the exception the function threw on it, or the input's exception; the function was applied at most once |
| CoroutineFacts.JoinFuture | headers/thesoup/async/futures.hpp:115-130 | a `join_coroutine` future holds the pair of the inputs' values, or, with both inputs ready, the left one's exception or else the right one's |
| CoroutineFacts.CollectFuture | headers/thesoup/async/futures.hpp:132-150 | a `collect_coroutine` future holds Unit once every input's value was written in input order, or the exception of the first input holding one, with exactly the values before it written |
| ComposerTraces.ToDecimalString | tst/thesoup/async/functions.cc:84-87 | `std::to_string` of an `int` starts with '-' exactly for negative numbers, and the digits after it read back as the number's magnitude |
| ComposerTraces.ToDecimal123 | tst/thesoup/async/functions.cc:127-128 | the test's map function turns 123 into "123" |
| ComposerTraces.Composed | tst/thesoup/async/functions.cc:98-103 | composing `map` then `flatmap` leaves both helper frames waiting on their inputs, the map task first |
| ComposerTraces.IdleStep | tst/thesoup/async/functions.cc:111-117 | while the first promise is unset a `step` only counts one resume of each frame: no function is applied and nothing becomes ready |
| ComposerTraces.TwoStep | headers/thesoup/async/round_robin_threadpool.hpp:102-112 | a pass over two unfinished frames resumes the first, then the second, and keeps both |
| ComposerTraces.MapStep | tst/thesoup/async/functions.cc:121-124 | the step after 123 is set applies the map function once, completing its frame with "123", and in the same pass the flat-map frame applies its function to "123" |
| ComposerTraces.DropStep | tst/thesoup/async/functions.cc:125-128 | the next step destroys and drops the finished map frame; the flat-map frame still waits on the returned future |
| ComposerTraces.FinalStep | tst/thesoup/async/functions.cc:132-138 | once the second promise holds `false`, one step completes the flat-map frame with `false` |
| ComposerTraces.ComposeChain | tst/thesoup/async/functions.cc:98-103 | building the chain on a new executor queues the map task then the flat-map task and hands out the flat-map task's future |
| ComposerTraces.IdleSteps | tst/thesoup/async/functions.cc:111-114 | any number of steps while the first promise is unset keep both frames waiting and only count resumes |
| ComposerTraces.MapFlatMapChain | tst/thesoup/async/functions.cc:96-139 | the composer test: not ready at first nor after four steps, with the map function never applied; one step after 123 is set it has been applied once; the flat-map function was applied once, to "123"; one step after the second promise gets `false` the chained future holds `false` |
| ComposerTraces.IdleOnce | tst/thesoup/async/functions.cc:111-114 | while the first promise is unset, one `step` resumes both frames once and changes nothing else |
| ComposerTraces.SetFirstAndStep | tst/thesoup/async/functions.cc:119-124 | after 123 is set, one `step` completes the `map` frame with 123 and lets the `flatmap` frame apply its function and wait for the future it returned; the queue is unchanged |
| ComposerTraces.DropMapFrame | tst/thesoup/async/functions.cc:125-128 | the next `step` destroys the finished `map` frame, drops it from the queue and resumes the `flatmap` frame once more |
| ComposerTraces.SetSecondAndStep | tst/thesoup/async/functions.cc:130-138 | after `false` is set on the second promise, one `step` completes the chained future with `false` |
| DisjointSets.Merged | headers/thesoup/types/disjoint_sets.hpp:144-150 | folding `sl2`'s set into `sl1`'s keeps the element universe (the leader map's keys) |
| DisjointSets.MergedClasses | headers/thesoup/types/disjoint_sets.hpp:143-151 | after a merge two elements share a leader exactly when they did before or both were in one of the two merged sets |
| DisjointSets.MergedCount | headers/thesoup/types/disjoint_sets.hpp:143-151 | merging two different sets removes exactly `sl2` from the leaders in use: one set fewer |
| DisjointSets.MergedSame | headers/thesoup/types/disjoint_sets.hpp:143 | a merge within one set leaves the leaders unchanged |
| DisjointSets.MergeKeepsPartition | headers/thesoup/types/disjoint_sets.hpp:143-151 | the merged `sets` and leader map still describe one partition: keys are the leaders, each leader in its own set, each element in its leader's set |
| DisjointSets.MembersOfSecond | headers/thesoup/types/disjoint_sets.hpp:145-150 | giving every member of the second set the first leader is the same as replacing the second leader by the first |
| DisjointSets.DisjointSets.LeadersAreKeys | headers/thesoup/types/disjoint_sets.hpp:52-53 | the keys of `sets` are exactly the leaders the leader map uses |
| DisjointSets.DisjointSets.constructor | headers/thesoup/types/disjoint_sets.hpp:85-95 | each distinct input element is its own leader, alone in its set; the size is the number of distinct elements |
| DisjointSets.DisjointSets.GetSetLeader | headers/thesoup/types/disjoint_sets.hpp:106-112 | fails with ELEMENT_DOES_NOT_EXIST exactly for an unknown element; otherwise returns the leader of the set containing it |
| DisjointSets.DisjointSets.Size | headers/thesoup/types/disjoint_sets.hpp:122-124 | `size` is the number of sets, one per distinct leader |
| DisjointSets.DisjointSets.MergeSets | headers/thesoup/types/disjoint_sets.hpp:136-154 | fails with ELEMENT_DOES_NOT_EXIST exactly when an element is unknown, changing nothing; otherwise every member of elem2's set gets elem1's leader, elem1's members keep theirs, the universe is unchanged, and the size drops by one exactly when the sets differed (a merge within one set is a successful no-op) |
| DisjointSets.DisjointSets.MergeDifferent | headers/thesoup/types/disjoint_sets.hpp:143-152 | two different sets become one led by `sl1`, `sl2` stops being a key, one set fewer, and the partition invariant holds |
| DisjointSets.DisjointSets.Relead | headers/thesoup/types/disjoint_sets.hpp:145-150 | the `for_each` gives every moved element the new leader and leaves every other element's leader |
| DisjointSets.MergeScenario | tst/thesoup/types/disjoint_sets.cc:11-60 | four singletons report size 4 and leaders a, b, c, d; after merging a with b and c with d the size is 2 and the leaders are a, a, c, c |
| DisjointSets.MergeFirst | tst/thesoup/types/disjoint_sets.cc:41 | merging a with b: size 3, b led by a |
| DisjointSets.MergeSecond | tst/thesoup/types/disjoint_sets.cc:42 | then merging c with d: size 2, d led by c |
| DisjointSets.UnknownScenario | tst/thesoup/types/disjoint_sets.cc:62-92 | querying or merging an unknown element fails with ELEMENT_DOES_NOT_EXIST in every position |
| Kruskal.Endpoints | headers/thesoup/algorithms/kruskal.hpp:69-76 | the vertex set holds both ends of every edge and nothing that is not an end of some edge |
| Kruskal.NoHeavierThan | headers/thesoup/algorithms/kruskal.hpp:26 | keeps exactly the edges weighing at most the bound (used to state minimum cost as the cycle condition) |
| Kruskal.CollectVertices | headers/thesoup/algorithms/kruskal.hpp:69-76 | the `for_each` over the copied edges inserts exactly the endpoints into the vertex set |
| Kruskal.Elements | headers/thesoup/algorithms/kruskal.hpp:87 | iterating the vertex set yields a sequence holding exactly its elements, each once, to build the disjoint sets from |
| Kruskal.SortByWeight | headers/thesoup/algorithms/kruskal.hpp:79-84 | the `std::sort` by `edge_type`: the result is in non-decreasing weight and a permutation of the input |
| Kruskal.Insert | headers/thesoup/algorithms/kruskal.hpp:79-84 | one insertion step keeps the edges sorted and adds exactly one copy of the new edge |
| Kruskal.InsertAt | headers/thesoup/algorithms/kruskal.hpp:79-84 | placing an edge after all lighter-or-equal ones and before the first heavier one keeps the order |
| Kruskal.InsertItems | headers/thesoup/algorithms/kruskal.hpp:79-84 | inserting at any position adds exactly that element to the multiset |
| Kruskal.ConnectedSameLeader | headers/thesoup/algorithms/kruskal.hpp:90 | when every edge lies inside one set, anything connected to `x` has `x`'s leader |
| Kruskal.SelectingStart | headers/thesoup/algorithms/kruskal.hpp:87-88 | singletons and no kept edge satisfy the selection invariant: equal leaders exactly when connected, a forest, edges plus sets count the vertices |
| Kruskal.SelectingSkip | headers/thesoup/algorithms/kruskal.hpp:90 | skipping an edge whose ends share a leader keeps the invariant |
| Kruskal.SelectingKeep | headers/thesoup/algorithms/kruskal.hpp:90-93 | keeping an edge between two leaders and merging their sets keeps the invariant: leaders still match connectivity, the new edge closed no cycle, one set fewer |
| Kruskal.KeepConnects | headers/thesoup/algorithms/kruskal.hpp:91-92 | after keeping an edge, any two vertices in either of the two joined sets are connected |
| Kruskal.CycleStart | headers/thesoup/algorithms/kruskal.hpp:88 | nothing seen, nothing kept: the cycle condition holds |
| Kruskal.CycleStep | headers/thesoup/algorithms/kruskal.hpp:89-94 | an edge no lighter than every kept edge keeps the cycle condition whether it is kept or its ends are already connected |
| Kruskal.SelectEdge | headers/thesoup/algorithms/kruskal.hpp:90-93 | keeps the edge exactly when its ends had different leaders, merging their sets; a skipped edge's ends were already connected; the invariant holds |
| Kruskal.SelectTurn | headers/thesoup/algorithms/kruskal.hpp:89-94 | one turn of the loop keeps the kept edges a subsequence of the sorted ones and keeps the cycle condition |
| Kruskal.SelectStep | headers/thesoup/algorithms/kruskal.hpp:89-94 | one loop iteration keeps the selection invariant, the subsequence relation and the cycle condition over one more sorted edge |
| Kruskal.Select | headers/thesoup/algorithms/kruskal.hpp:86-95 | the loop over sorted edges yields a subsequence of them that is a forest connecting exactly what the input connects and meets the cycle condition |
| Kruskal.SubsequenceBound | headers/thesoup/algorithms/kruskal.hpp:89-94 | every edge kept before position `i` of the sorted list weighs at most the edge at `i` |
| Kruskal.SubsequenceStep | headers/thesoup/algorithms/kruskal.hpp:91 | appending the current edge, or not, keeps the subsequence relation |
| Kruskal.SubsequenceFacts | headers/thesoup/algorithms/kruskal.hpp:91-95 | a subsequence of sorted edges is sorted and a sub-multiset of them |
| Kruskal.SameConnectivity | headers/thesoup/algorithms/kruskal.hpp:53-96 | the selected edges connect two endpoints exactly when the input edges do |
| Kruskal.OneTree | headers/thesoup/algorithms/kruskal.hpp:53-96 | when all vertices share one leader there is exactly one set |
| Kruskal.Kruskal | headers/thesoup/algorithms/kruskal.hpp:53-96 | the result is a sub-multiset of the input, sorted by weight, a forest (no edge closes a cycle) connecting exactly the pairs the input connects, with one edge fewer than vertices per tree (so a spanning tree of a connected input), and minimum: every input edge's ends are connected by result edges no heavier than it |
| SimpleGraph.InEdgesAdd | headers/thesoup/types/simplegraph.hpp:149-151 | adding a new neighbour to `from` adds exactly one incoming edge to its target and none elsewhere |
| SimpleGraph.InEdgesRemove | headers/thesoup/types/simplegraph.hpp:213-214 | erasing a present neighbour removes exactly one incoming edge from its target and none elsewhere |
| SimpleGraph.InEdgesIsolated | headers/thesoup/types/simplegraph.hpp:125-127 | a new vertex with no neighbours adds no incoming edge anywhere |
| SimpleGraph.AddKeepsConsistent | headers/thesoup/types/simplegraph.hpp:149-151 | inserting a new edge and incrementing the target's count keeps every count equal to its vertex's number of incoming edges |
| SimpleGraph.RemoveKeepsConsistent | headers/thesoup/types/simplegraph.hpp:213-214 | a present edge's target has a positive count (the decrement cannot underflow), and decrementing it keeps the counts exact |
| SimpleGraph.AddVertexKeepsConsistent | headers/thesoup/types/simplegraph.hpp:125-127 | a new vertex with count 0 keeps the counts exact |
| SimpleGraph.RemoveVertexKeepsConsistent | headers/thesoup/types/simplegraph.hpp:174-180 | erasing a vertex with no outgoing and no incoming edges keeps the counts exact |
| SimpleGraph.SimpleWeightedGraph.constructor | headers/thesoup/types/simplegraph.hpp:54-55 | a new graph has no vertices and no counts |
| SimpleGraph.SimpleWeightedGraph.GetNeighbours | headers/thesoup/types/simplegraph.hpp:67-81 | fails with NON_EXISTENT_VERTEX exactly for an unknown vertex; otherwise returns every neighbour of the vertex, each once |
| SimpleGraph.SimpleWeightedGraph.GetNeighboursOfType | headers/thesoup/types/simplegraph.hpp:95-112 | fails with NON_EXISTENT_VERTEX exactly for an unknown vertex; otherwise a vertex is returned exactly when an edge of the given type leads to it, and each such vertex once |
| SimpleGraph.SimpleWeightedGraph.InsertVertex | headers/thesoup/types/simplegraph.hpp:123-131 | always succeeds with the vertex; a new vertex gets no neighbours and count 0, an existing one changes nothing; counts stay exact |
| SimpleGraph.SimpleWeightedGraph.InsertEdge | headers/thesoup/types/simplegraph.hpp:142-158 | fails with NON_EXISTENT_VERTEX, changing nothing, exactly when an end is unknown; otherwise the neighbour is present afterwards and the target's count rises by one only if the edge was new; counts stay exact |
| SimpleGraph.SimpleWeightedGraph.DeleteVertex | headers/thesoup/types/simplegraph.hpp:168-185 | NON_EXISTENT_VERTEX for an unknown vertex, CONNECTED_VERTEX when it has outgoing or incoming edges (changing nothing), otherwise the vertex and its count are erased |
| SimpleGraph.SimpleWeightedGraph.DeleteEdge | headers/thesoup/types/simplegraph.hpp:200-220 | NON_EXISTENT_VERTEX for an unknown end, NON_EXISTENT_EDGE for a missing edge (changing nothing), otherwise the neighbour is erased and the target's count, which was positive, drops by one |
| IndexedGraph.Probe | headers/thesoup/types/indexedgraph.hpp:116-132 | the probe settles on an id whose slot is free or already holds the value; running out of attempts below `SIZE_MAX` is TOO_MANY_DUPLICATE_IDS |
| IndexedGraph.ProbeAgain | headers/thesoup/types/indexedgraph.hpp:118-129 | once the value is stored at the probed id, probing for it again finds that same id (interning is idempotent) |
| IndexedGraph.Put | headers/thesoup/types/indexedgraph.hpp:244-245 | `std::set::insert` of a neighbour, ordered by vertex only: the neighbour's vertex is present afterwards, a present vertex keeps its old edge type, nothing else changes |
| IndexedGraph.Drop | headers/thesoup/types/indexedgraph.hpp:286-287 | erasing a neighbour removes exactly that vertex from one set and changes nothing else |
| IndexedGraph.PutMirrored | headers/thesoup/types/indexedgraph.hpp:244-245 | inserting the outgoing and the matching incoming entry keeps the two adjacency views mirror images |
| IndexedGraph.DropMirrored | headers/thesoup/types/indexedgraph.hpp:286-287 | erasing both entries keeps the views mirrored |
| IndexedGraph.PutOk | headers/thesoup/types/indexedgraph.hpp:243-247 | inserting an edge between known vertices with a registered type keeps the graph invariant |
| IndexedGraph.DropOk | headers/thesoup/types/indexedgraph.hpp:285-290 | deleting an edge keeps the graph invariant |
| IndexedGraph.NewVertexOk | headers/thesoup/types/indexedgraph.hpp:164-165 | a new vertex with empty edge sets keeps the graph invariant |
| IndexedGraph.IsolatedVertexOk | headers/thesoup/types/indexedgraph.hpp:196-198 | erasing a vertex with no incoming and no outgoing edges keeps the graph invariant |
| IndexedGraph.DropAfterPut | headers/thesoup/types/indexedgraph.hpp:244-286 | deleting a freshly inserted neighbour restores the set |
| IndexedGraph.NeighbourOrder | headers/thesoup/types/indexedgraph.hpp:27-35 | `operator<` compares vertices only: it is a strict order whose equivalence is "same vertex", while `operator==` is full equality, so the two disagree |
| IndexedGraph.EquivalentButUnequal | headers/thesoup/types/indexedgraph.hpp:27-35 | two neighbours with the same vertex and different edge types are unequal yet neither is less |
| IndexedGraph.Smallest | headers/thesoup/types/indexedgraph.hpp:74-75 | picks the least id of a non-empty set (the next element of an ordered `std::set`) |
| IndexedGraph.Entries | headers/thesoup/types/indexedgraph.hpp:336 | copying a neighbour set yields exactly its entries in strictly increasing vertex order |
| IndexedGraph.VerticesOfType | headers/thesoup/types/indexedgraph.hpp:365-369 | the filter yields exactly the vertices reached by an edge of the given type, in increasing order |
| IndexedGraph.IndexedPropertyDiGraph.constructor | headers/thesoup/types/indexedgraph.hpp:82-84 | a new graph has empty indexes and adjacency, with the given hash functions |
| IndexedGraph.IndexedPropertyDiGraph.RegisterEdgeType | headers/thesoup/types/indexedgraph.hpp:114-133 | returns the probe's outcome; on success the type is stored at that id, on failure nothing changes; vertices and edges are untouched |
| IndexedGraph.IndexedPropertyDiGraph.InsertVertex | headers/thesoup/types/indexedgraph.hpp:156-176 | returns the probe's outcome; a new id gets the vertex and empty edge sets, a known one changes no edges, a failure changes nothing; the invariant holds |
| IndexedGraph.IndexedPropertyDiGraph.AddVertex | headers/thesoup/types/indexedgraph.hpp:164-165 | stores the vertex under a free id with empty edge sets and keeps the invariant |
| IndexedGraph.IndexedPropertyDiGraph.DeleteVertex | headers/thesoup/types/indexedgraph.hpp:188-202 | NON_EXISTENT_VERTEX for an unknown id, CONNECTED_VERTEX when it has incoming or outgoing edges (changing nothing), otherwise the vertex and its edge sets are erased |
| IndexedGraph.IndexedPropertyDiGraph.HydrateVertex | headers/thesoup/types/indexedgraph.hpp:213-222 | succeeds exactly for a stored id, with the stored vertex; otherwise NON_EXISTENT_VERTEX |
| IndexedGraph.IndexedPropertyDiGraph.HydrateEdgeType | headers/thesoup/types/indexedgraph.hpp:305-314 | succeeds exactly for a registered id, with the stored type; otherwise INVALID_EDGE_TYPE |
| IndexedGraph.IndexedPropertyDiGraph.InsertEdge | headers/thesoup/types/indexedgraph.hpp:234-249 | NON_EXISTENT_VERTEX for an unknown end, then INVALID_EDGE_TYPE for an unregistered type (changing nothing); otherwise both the outgoing and the incoming entry are inserted and the invariant holds |
| IndexedGraph.IndexedPropertyDiGraph.StoreEdge | headers/thesoup/types/indexedgraph.hpp:244-245 | inserts the mirrored pair of entries and keeps the invariant |
| IndexedGraph.IndexedPropertyDiGraph.DeleteEdge | headers/thesoup/types/indexedgraph.hpp:261-293 | NON_EXISTENT_VERTEX, then INVALID_EDGE_TYPE, then NON_EXISTENT_EDGE or BROKEN_EDGE by which entries are found (changing nothing); otherwise both entries are erased and the invariant holds |
| IndexedGraph.IndexedPropertyDiGraph.EraseEdge | headers/thesoup/types/indexedgraph.hpp:286-287 | erases the mirrored pair of entries and keeps the invariant |
| IndexedGraph.IndexedPropertyDiGraph.GetNeighbours | headers/thesoup/types/indexedgraph.hpp:328-340 | NON_EXISTENT_VERTEX exactly for an unknown id; otherwise exactly the outgoing neighbours, in increasing vertex order |
| IndexedGraph.IndexedPropertyDiGraph.GetNeighboursOfType | headers/thesoup/types/indexedgraph.hpp:354-373 | NON_EXISTENT_VERTEX, then INVALID_EDGE_TYPE; otherwise exactly the targets of outgoing edges of that type, each once, in increasing order |
| IndexedGraph.IndexedPropertyDiGraph.GetIncomingEdges | headers/thesoup/types/indexedgraph.hpp:388-400 | NON_EXISTENT_VERTEX exactly for an unknown id; otherwise exactly the incoming entries, in increasing vertex order, each matched by an outgoing edge of the same type |
| IndexedGraph.IndexedPropertyDiGraph.GetIncomingEdgesOfType | headers/thesoup/types/indexedgraph.hpp:414-433 | NON_EXISTENT_VERTEX, then INVALID_EDGE_TYPE; otherwise exactly the sources of incoming edges of that type, each once, in increasing order |
| IndexedGraph.InsertVertexTwice | tst/thesoup/types/indexedgraph.cc:62-70 | inserting the same vertex twice returns the same result both times, and the id hydrates to the vertex |
| IndexedGraph.RegisterEdgeTypeTwice | tst/thesoup/types/indexedgraph.cc:52-60 | registering the same edge type twice returns the same result both times, and the id hydrates to the type |
| IndexedGraph.DeleteEdgeOutcome | headers/thesoup/types/indexedgraph.hpp:276-291 | the intended decision: success exactly when both entries are found, NON_EXISTENT_EDGE exactly when neither is, BROKEN_EDGE exactly when one is |
| IndexedGraph.AsWrittenMissesBrokenEdge | headers/thesoup/types/indexedgraph.hpp:280 | with only the backward entry present between two different vertices, the test as written reports success where BROKEN_EDGE was meant |
| IndexedGraph.MirroredNeverBroken | headers/thesoup/types/indexedgraph.hpp:274-291 | in a mirrored graph both entries are found together, so the decision as written agrees with the intended one and BROKEN_EDGE never arises |
| IndexedGraph.Mix | headers/thesoup/types/indexedgraph.hpp:119-120 | the id tried for a value hashing to 0 at the first attempt is the combine's constant `0x9e3779b9` |
| IndexedGraph.DeleteEdgeOutcomeAsWritten | headers/thesoup/types/indexedgraph.hpp:274-291 | the decision as written: NON_EXISTENT_EDGE exactly when neither direction is found; for a self-loop it agrees with the intended decision; for two different vertices it succeeds exactly when the backward entry is found, whatever the forward one |
| GraphTraversals.Children | headers/thesoup/algorithms/graph_traversals.hpp:58-72 | the reported vertices, one per callback, in order |
| GraphTraversals.ChildrenAppend | headers/thesoup/algorithms/graph_traversals.hpp:72 | one more callback reports exactly one more vertex at the end |
| GraphTraversals.ChildrenSuffix | headers/thesoup/algorithms/graph_traversals.hpp:71-72 | the vertices reported from a position on, after more callbacks, are the earlier ones followed by the new ones |
| GraphTraversals.ReachedByGrow | headers/thesoup/algorithms/graph_traversals.hpp:72 | a vertex reported at some level stays reported as the trace grows |
| GraphTraversals.ExpandedGrow | headers/thesoup/algorithms/graph_traversals.hpp:61-75 | an expanded vertex stays expanded as the trace grows |
| GraphTraversals.TracedAppend | headers/thesoup/algorithms/graph_traversals.hpp:69-72 | reporting an unseen neighbour of an earlier report, one level deeper, keeps the trace invariant: start first, no repeats, levels non-decreasing, every report has an adjacent parent one level up |
| GraphTraversals.LevelsAreWalks | headers/thesoup/algorithms/graph_traversals.hpp:56-78 | every report's level is the length of some walk from the start to it |
| GraphTraversals.WalksReached | headers/thesoup/algorithms/graph_traversals.hpp:60-78 | once every report is expanded, every vertex on a walk from the start of length `d` is reported at a level of at most `d` |
| GraphTraversals.ReportedReachable | headers/thesoup/algorithms/graph_traversals.hpp:56-78 | everything the callback reports is reachable from the start |
| GraphTraversals.ShortestLevels | headers/thesoup/algorithms/graph_traversals.hpp:56-78 | with every walk covered, the reports are exactly the reachable vertices and each one's level is its shortest distance from the start |
| GraphTraversals.ExtendsStep | headers/thesoup/algorithms/graph_traversals.hpp:69-72 | reporting one more unseen neighbour keeps the inner loop's invariant |
| GraphTraversals.ExpandVertex | headers/thesoup/algorithms/graph_traversals.hpp:67-74 | the loop over one vertex's neighbours reports each unseen one once, marks it visited and queues it, after which every neighbour is reported at most one level deeper |
| GraphTraversals.SubsetSize | headers/thesoup/algorithms/graph_traversals.hpp:60 | a subset is no larger (the termination measure of the outer loop) |
| GraphTraversals.SmallerSet | headers/thesoup/algorithms/graph_traversals.hpp:60-70 | a strict subset is smaller: visiting a new vertex shrinks the unvisited part |
| GraphTraversals.SweepReady | headers/thesoup/algorithms/graph_traversals.hpp:61 | the next frontier vertex is still in place, at level `k`, and nothing deeper than `k + 1` has been reported |
| GraphTraversals.SweepStep | headers/thesoup/algorithms/graph_traversals.hpp:61-75 | expanding one more frontier vertex keeps the frontier loop's invariant |
| GraphTraversals.ExpandFrontier | headers/thesoup/algorithms/graph_traversals.hpp:61-77 | one pass over the frontier either fails with the error some fetched vertex gave, or expands every frontier vertex and returns the next frontier: exactly the newly visited vertices, all one level deeper |
| GraphTraversals.Bfs | headers/thesoup/algorithms/graph_traversals.hpp:44-80 | the callback trace starts at `start` with no parent, reports no vertex twice, each from an adjacent earlier one; a failure carries the error of a fetched vertex; on success the reports are exactly the vertices reachable from `start`, each at its shortest distance |
| Paging.Pow2 | headers/thesoup/types/vector_cache.hpp:61-67 | `1 << k` is at least 1, so pages and page tables are never empty |
| Paging.CeilDivStep | headers/thesoup/types/vector.hpp:87-91 | at a page boundary the next item opens a new page; inside a page it does not |
| Paging.PageInRange | headers/thesoup/types/vector.hpp:97-100 | an index below the size falls on an existing page, at an offset below the page length |
| Paging.FlattenAppend | headers/thesoup/types/vector.hpp:89-93 | appending a page appends its items to the contents |
| Paging.FlattenPage | headers/thesoup/types/vector.hpp:97-100 | with full pages before it, page `p` holds exactly the items from index `p * n` on |
| Paging.FlattenSize | headers/thesoup/types/vector.hpp:103-105 | full pages plus a last page hold `(pages - 1) * n + last` items |
| Paging.Decimal | headers/thesoup/types/vector_cache.hpp:136-137 | the size printed into the error message, as `std::to_string` prints it: decimal digits with no leading zero that read back as the size |
| Paging.Next | headers/thesoup/types/vector.hpp:143-144 | `++` moves the iterator one on in the same container, wrapping from 2^64 - 1 to 0 like `std::size_t` |
| Paging.Prev | headers/thesoup/types/vector.hpp:146-147 | `--` moves the iterator one back in the same container, wrapping from 0 to 2^64 - 1 |
| Paging.Plus | headers/thesoup/types/vector.hpp:149 | `+ val` and `+= val` move the iterator `val` on, modulo 2^64 |
| Paging.Minus | headers/thesoup/types/vector.hpp:150 | `- val` and `-= val` move the iterator `val` back, modulo 2^64 |
| Paging.Diff | headers/thesoup/types/vector.hpp:152 | `it - other` is a signed 64-bit distance, zero for equal indices |
| Paging.Equal | headers/thesoup/types/vector.hpp:156 | `==` holds exactly for the same container and index |
| Paging.NotEqual | headers/thesoup/types/vector.hpp:157 | `!=` holds exactly when the container or the index differs |
| Paging.Steps | headers/thesoup/types/vector_cache.hpp:229-230 | repeated `++` stays in the same container and yields a `std::size_t` index |
| Paging.Wrap | headers/thesoup/types/vector.hpp:143-155 | `std::size_t` arithmetic: the result is below 2^64 and equals the mathematical value when that is in range |
| Paging.Signed | headers/thesoup/types/vector.hpp:152 | a `std::size_t` read as `std::ptrdiff_t` lies in the signed 64-bit range and wraps back to the same bits |
| Paging.StepsUndo | headers/thesoup/types/vector.hpp:143-155 | `++` then `--`, and `+ val` then `- val`, return to the same iterator (and the other way round) |
| Paging.EqualityAgrees | headers/thesoup/types/vector.hpp:156-157 | iterator `==` is equality of container and index, and `!=` is its negation |
| Paging.DiffReversed | headers/thesoup/types/vector.hpp:152 | `it - other` is `other.idx - it.idx`, the reverse of the usual sign, so `other + (other - it)` lands on `it` |
| Paging.StepsIndex | headers/thesoup/types/vector.hpp:143 | `i` steps of `++` add `i` to the index |
| Paging.WrapShift | headers/thesoup/types/vector.hpp:143-150 | reducing an index modulo 2^64 before adding a step gives the same wrapped index as adding first |
| PartitionedVectors.Paged | headers/thesoup/types/vector.hpp:47-48 | the page layout: every page but the last holds `num_items_per_page` items, the last holds the rest and is not empty |
| PartitionedVectors.PageCount | headers/thesoup/types/vector.hpp:111-113 | the number of pages is `ceil(size / n)`, zero exactly for an empty vector |
| PartitionedVectors.ItemOnPage | headers/thesoup/types/vector.hpp:97-100 | item `idx` is on page `idx / n` at offset `idx - (idx / n) * n`, and that slot holds the item |
| PartitionedVectors.PageItems | headers/thesoup/types/vector.hpp:115-123 | page `p` holds the `min(n, size - p * n)` items from index `p * n` on |
| PartitionedVectors.LastPageItems | headers/thesoup/types/vector.hpp:115-123 | the last page holds the items from its first index to the end |
| PartitionedVectors.PushTarget | headers/thesoup/types/vector.hpp:87-89 | the page `size / n` is one past the last exactly when the size is a multiple of `n`; otherwise it is the last page and the offset is its length |
| PartitionedVectors.PushPaged | headers/thesoup/types/vector.hpp:86-95 | opening a page at a boundary, or else extending the last page, keeps the layout and appends the item |
| PartitionedVectors.PushNewPage | headers/thesoup/types/vector.hpp:89-93 | a new one-item page at a boundary keeps the layout and appends the item |
| PartitionedVectors.PushLastPage | headers/thesoup/types/vector.hpp:92-93 | writing into a non-full last page keeps the layout and appends the item |
| PartitionedVectors.PartitionedVector.constructor | headers/thesoup/types/vector.hpp:50-57 | an empty vector with no pages and `page_size / sizeof(T)` items per page |
| PartitionedVectors.PartitionedVector.Moved | headers/thesoup/types/vector.hpp:64-67 | the new vector takes the other's pages and size; the other is left empty |
| PartitionedVectors.PartitionedVector.MoveAssign | headers/thesoup/types/vector.hpp:70-82 | takes the other's pages and size and empties the other; assigning a vector to itself leaves it empty |
| PartitionedVectors.PartitionedVector.PushBack | headers/thesoup/types/vector.hpp:86-95 | the contents gain the item at the end, the size grows by one and the page count is `ceil(size / n)` |
| PartitionedVectors.PartitionedVector.At | headers/thesoup/types/vector.hpp:97-101 | `operator[]` on an index below the size returns the item at that index |
| PartitionedVectors.PartitionedVector.Size | headers/thesoup/types/vector.hpp:103-105 | the size is the number of items held |
| PartitionedVectors.PartitionedVector.NumPartitions | headers/thesoup/types/vector.hpp:111-113 | the number of pages is `ceil(size / n)`, zero exactly when empty |
| PartitionedVectors.PartitionedVector.Bytes | headers/thesoup/types/vector.hpp:107-109 | one `page_size` block per page |
| PartitionedVectors.PartitionedVector.GetPartition | headers/thesoup/types/vector.hpp:115-123 | `std::out_of_range("Partition absent.")` exactly past the last page; otherwise the page's items, a slice of the contents from `p * n` |
| PartitionedVectors.PartitionedVector.Begin | headers/thesoup/types/vector.hpp:160 | an iterator on this vector at index 0 |
| PartitionedVectors.PartitionedVector.End | headers/thesoup/types/vector.hpp:161 | an iterator on this vector at index `size` |
| PartitionedVectors.Deref | headers/thesoup/types/vector.hpp:140 | `*it` is the item at the iterator's index |
| PartitionedVectors.WalkFromBegin | headers/thesoup/types/vector.hpp:140-161 | walking from `begin()` with `++` meets every item in order, reaches `end()` after `size` steps, and `begin() - end()` is `size` |
| VectorCaches.PageOf | headers/thesoup/types/vector_cache.hpp:100 | the page number of an index never exceeds the index (the mask-and-shift, with `n = 2^offset_bits`, is division) |
| VectorCaches.OffsetOf | headers/thesoup/types/vector_cache.hpp:101 | the offset within a page is below the page length |
| VectorCaches.SlotOf | headers/thesoup/types/vector_cache.hpp:102 | the page table entry of a page is a valid slot, no larger than the page number |
| VectorCaches.SlotReplace | headers/thesoup/types/vector_cache.hpp:107-125 | replacing one slot after saving its page leaves every other page's items as they were |
| VectorCaches.SlotAppend | headers/thesoup/types/vector_cache.hpp:129-130 | writing into a resident page's slot leaves every other page's items as they were |
| VectorCaches.Fetch | headers/thesoup/types/vector_cache.hpp:148-167 | bringing a non-resident page in (saving the slot's valid page, loading the wanted one) keeps the cache invariant and changes no page's items |
| VectorCaches.Append | headers/thesoup/types/vector_cache.hpp:129-131 | with the target page resident it is the last, non-full page, and writing the item keeps the invariant and appends it to the contents |
| VectorCaches.NewPage | headers/thesoup/types/vector_cache.hpp:107-115 | a target page past the last one happens only at a page boundary; opening it (after saving the slot's page) keeps the invariant and appends the item |
| VectorCaches.AppendDone | headers/thesoup/types/vector_cache.hpp:129-131 | after the write the page count is `ceil(size / n)` and the slot holds the last page, which is the tail of the contents |
| VectorCaches.PushResident | headers/thesoup/types/vector_cache.hpp:105 | no swap needed: the cache is ready for the write |
| VectorCaches.PushLoad | headers/thesoup/types/vector_cache.hpp:116-125 | a swap for an existing page finds it in the store, and loading it makes the cache ready |
| VectorCaches.PushNew | headers/thesoup/types/vector_cache.hpp:111-115 | a swap for a new page makes the cache ready with an empty page |
| VectorCaches.PushReady | headers/thesoup/types/vector_cache.hpp:104-126 | whichever way the swap goes, the cache is ready for the write, only the target slot changed, and the store gained the slot's old page exactly when the swap happened |
| VectorCaches.SaverCalls | headers/thesoup/types/vector_cache.hpp:105-109 | while the table is not full the saver is never called; at a page boundary once every slot holds a page it always is |
| VectorCaches.FewPagesResident | headers/thesoup/types/vector_cache.hpp:100-105 | while there are no more pages than slots, every page sits in its own slot, so no page is ever out with the saver |
| VectorCaches.ResidentNeedsNoStore | headers/thesoup/types/vector_cache.hpp:88-92 | a cache whose pages are all resident keeps its invariant and its items with any store, the empty one of a cache with no saver or loader included |
| VectorCaches.PageStore.constructor | tst/thesoup/types/vector.cc:27-29 | the test database starts empty |
| VectorCaches.PageStore.Save | tst/thesoup/types/vector.cc:31-38 | saving stores (or replaces) the page under its number |
| VectorCaches.PageStore.Load | tst/thesoup/types/vector.cc:40-46 | loading succeeds exactly for a stored page, with its items; otherwise the error 1 |
| VectorCaches.VectorCache.constructor | headers/thesoup/types/vector_cache.hpp:51-81 | with `offset_bits + index_bits < 8`, a table of `2^index_bits` empty, invalid entries, no page and no item |
| VectorCaches.VectorCache.MovedAsWritten | headers/thesoup/types/vector_cache.hpp:88-92 | the move as written takes the table, size and page count, resets the other cache (size 0, 0 bytes), and leaves the new one without a saver or loader; while the other cache had no more pages than slots, the new one keeps the invariant and holds its items |
| VectorCaches.VectorCache.Moved | headers/thesoup/types/vector_cache.hpp:88-92 | the intended move also carries the saver and loader: the new cache holds the other's items and keeps its invariant; the other has no table, size 0 and 0 bytes |
| VectorCaches.VectorCache.SwapIn | headers/thesoup/types/vector_cache.hpp:104-126 | the page swap: the slot's valid page goes to the saver, then the slot gets a new empty page (one more page) or the page from the loader, marked valid |
| VectorCaches.VectorCache.WriteItem | headers/thesoup/types/vector_cache.hpp:129-131 | on a ready cache the item is written at the page offset, the contents gain it at the end, the size grows by one |
| VectorCaches.VectorCache.PushBack | headers/thesoup/types/vector_cache.hpp:99-132 | the contents gain the item at the end, the size grows by one, the page count is `ceil(size / n)`, and the store gained the slot's old page exactly when a swap was needed |
| VectorCaches.VectorCache.AppendSwapped | headers/thesoup/types/vector_cache.hpp:129-131 | after a swap of one slot, the write keeps the invariant and appends the item |
| VectorCaches.VectorCache.Reload | headers/thesoup/types/vector_cache.hpp:148-167 | a non-resident page is brought into its slot (the slot's page saved first), without changing the contents |
| VectorCaches.VectorCache.BringIn | headers/thesoup/types/vector_cache.hpp:144-168 | after a hit nothing changes; after a miss the page is loaded into its slot and the displaced page saved; the contents never change |
| VectorCaches.VectorCache.Index | headers/thesoup/types/vector_cache.hpp:134-171 | an index at or past the size throws `std::out_of_range` with the size in the message, changing nothing; otherwise returns the item at that index, with its page now resident |
| VectorCaches.VectorCache.GetPartition | headers/thesoup/types/vector_cache.hpp:185-209 | `std::out_of_range("Partition absent.")` exactly past the last page; otherwise that page's items, a slice of the contents from `p * n`, with the page resident |
| VectorCaches.VectorCache.ReadPage | headers/thesoup/types/vector_cache.hpp:189-208 | brings an existing page in and returns its `min(n, size - p * n)` items from the contents |
| VectorCaches.VectorCache.Size | headers/thesoup/types/vector_cache.hpp:173-175 | the size is the number of items held |
| VectorCaches.VectorCache.NumPartitions | headers/thesoup/types/vector_cache.hpp:181-183 | the page count is `ceil(size / n)`, zero exactly when empty |
| VectorCaches.VectorCache.Bytes | headers/thesoup/types/vector_cache.hpp:177-179 | `num_pages * page_size * sizeof(T)`, zero with no page |
| VectorCaches.VectorCache.Begin | headers/thesoup/types/vector_cache.hpp:246 | an iterator on this cache at index 0 |
| VectorCaches.VectorCache.End | headers/thesoup/types/vector_cache.hpp:247 | an iterator on this cache at index `size` |
| VectorCaches.BytesOfPages | headers/thesoup/types/vector_cache.hpp:177-183 | the bytes are `ceil(size / n)` full pages, and the pages hold at least the items and less than one page more |
| VectorCaches.Deref | headers/thesoup/types/vector_cache.hpp:226 | `*it` is the item at the iterator's index, and the contents do not change |
| VectorCaches.WalkFromBegin | headers/thesoup/types/vector_cache.hpp:229-247 | `size` steps of `++` from `begin()` reach `end()`, and `begin() - end()` is `size` |
| VectorCacheScenarios.PushOne | tst/thesoup/types/vector.cc:73-76 | one push into a cache with a database appends the item |
| VectorCacheScenarios.PushTwo | tst/thesoup/types/vector.cc:88-94 | two pushes append both items in order |
| VectorCacheScenarios.ReadTwo | tst/thesoup/types/vector.cc:96-101 | two reads return the items at `i` and `i + 1` |
| VectorCacheScenarios.HappyCase | tst/thesoup/types/vector.cc:57-109 | with 4 items per page: one push gives the item at 0, size 1 and 12 bytes; four more give items 1 to 4, size 5 and 24 bytes |
| VectorCacheScenarios.FourMore | tst/thesoup/types/vector.cc:88-109 | the four later pushes and the reads of indices 1 to 4, size 5 and two pages of bytes |
| VectorCacheScenarios.MoveCase | tst/thesoup/types/vector.cc:111-126 | after the move as written, the moved-to cache holds the item, size 1, 12 bytes; the moved-from cache has size 0 and 0 bytes |
| VectorCacheScenarios.Iterations | tst/thesoup/types/vector.cc:132-184 | `*it` follows `++`, `--`, `+= 2` and `-= 2` over five items; the range-for counts 5; `std::distance(end(), begin())` is 5 |
| VectorCacheScenarios.FiveItems | tst/thesoup/types/vector.cc:134-148 | the five-item cache of that test |
| VectorCacheScenarios.WalkAround | tst/thesoup/types/vector.cc:154-176 | the iterator moves visit items 0, 1, 2, 3, 2, 4, 2 |
| VectorCacheScenarios.OneToSeven | tst/thesoup/types/vector.cc:188-206 | the partitions test's cache holds 1 to 7 with 4 items per page |
| VectorCacheScenarios.Partitions | tst/thesoup/types/vector.cc:186-250 | two partitions, [1, 2, 3, 4] and [5, 6, 7]; asking for a third is `std::out_of_range("Partition absent.")` |
| VectorCacheScenarios.FillTable | tst/thesoup/types/vector.cc:267-279 | 32 pushes fill all 8 slots and save nothing; slot 0 holds page 0 = [0, 1, 2, 3] |
| VectorCacheScenarios.CountUp | tst/thesoup/types/vector.cc:272-274 | the loop pushes 0, 1, ..., i in order |
| VectorCacheScenarios.FirstPages | tst/thesoup/types/vector.cc:262-274 | the first 32 items go to pages 0 to 7, each in its own slot |
| VectorCacheScenarios.SwapTest | tst/thesoup/types/vector.cc:252-293 | the database is empty after 32 pushes; the 33rd swaps out page 0 = [0, 1, 2, 3] |
| VectorCacheScenarios.MoveAsWrittenLosesSaver | headers/thesoup/types/vector_cache.hpp:88-92 | after the move as written the cache has no saver, yet its next push must call one |
| VectorCacheScenarios.MoveThenGrow | headers/thesoup/types/vector_cache.hpp:88-92 | with the saver carried over, the moved cache's next push saves page 0 = [7] and the new item reads back at index 1 |

## Left out

- Threads: `RoundRobinCoroExecutor::start`, its mutex and its atomic run flag are not modelled; `step` is modelled as one single-threaded pass, and the `run` flag as a plain field.
- The blocking `FutureComposer<T, void, void>` specialisation (headers/thesoup/async/futures.hpp:381-555) and `collect_futures` (headers/thesoup/algorithms/utils.hpp) are not part of this model: both wait on threads.
- The composer's move constructor (headers/thesoup/async/futures.hpp:197-199) is not modelled; a `FutureComposer` is used through one reference.
- headers/thesoup/async/models.hpp, headers/thesoup/types/digraph.hpp and the hash combiner in headers/thesoup/types/graph.hpp are not part of this model; they declare interfaces and a hash helper with no behaviour of their own.
- thesoup/types/types.hpp is not part of this model; its `Result`, `Unit` and `Slice` are given as datatypes in `Common` and as page item sequences.
- `std::hash` and the user's functions (`map`, `flatmap` functions, `get_neighbours`, the visit callback) are parameters of the model; their bodies are not seen. A `map` or `flatmap` function returns a `Result` whose failure is the exception it throws, which the task's future then holds.
- A moved-from `std::future` (`NoState`, left behind by `map`, `flatmap`, `join` and `get_future` of a `FutureComposer`) is read as never ready, so a helper coroutine given one polls forever. In the source `is_ready` calls `wait_for` on a future with no shared state, which the C++ standard leaves undefined (common implementations throw `std::future_error`); the model does not capture that exception.
- Coroutine frames and `promise_type` objects are values in a `World`, so in-place update of a frame, aliasing of handles and the memory behind a frame are not modelled.
- Raw memory: `new`/`delete` of pages, `Slice` start pointers, the one-character `new char(page_size)` at headers/thesoup/types/vector.hpp:53 and the `delete` of an array are not modelled; a page is the sequence of items it holds.
- Logging to `std::cout` is left out.
- Edge weights are integers; floating-point weights and their rounding are not modelled.
- `std::size_t` overflow is modelled (with `Paging.Wrap`) only in iterator arithmetic; sizes and page counts elsewhere are unbounded.
- The bit masks and shifts of both paged vectors are modelled as division and remainder by powers of two, which give the same numbers for the widths the source allows.
- The `Result` returned by a saver or a loader is not inspected by the source. In the model `PageStore.Save` always succeeds, and `PageStore.Load`, which fails with 1 on a page it never saw, is proved never to be asked for such a page.
- VectorCaches.VectorCache: the saver and the loader, which the source takes as any two `std::function`s, are fixed to one `PageStore` whose loader returns what the saver last saved, as the tests' in-memory database does. `Index`, `GetPartition`, `ReadPage`, `Reload`, `BringIn` and `PushBack` are proved only for such a pair; a loader that returns other items, or a failed load whose `Result` the source ignores, would change what the source returns, and the model does not cover it.
- Writes through a reference returned by `operator[]`, `at` or an iterator are not modelled; the model returns the item's value.
- Use of a moved-from `VectorCache` or `PartitionedVector` other than reading its emptied fields is not modelled.
- `VectorCache`'s page load for an invalid slot (headers/thesoup/types/vector_cache.hpp:199-204 and the same branch of `operator[]`) cannot be taken for an existing page, whose slot is always valid; the model proves the branch dead instead of modelling it.
- `join` resumes its left input's result before its right one; C++ leaves the order of evaluation of the two `co_await`s unspecified, and the model fixes left first.
- IndexedGraph.Mix: states only the first id tried for a value hashing to 0; that different attempts give different ids for the same hash is not proved (64-bit bit-vector reasoning of that kind is beyond the solver's budget here), and the probing contracts are stated in terms of `Mix` without depending on it.
- `GraphTraversals.Bfs`: needs a ghost finite set of vertices closed under `get_neighbours` so that the traversal provably ends; a graph with infinitely many reachable vertices is not covered.
- `PartitionedVectors.PartitionedVector.PushBack`, `PartitionedVectors.PartitionedVector.At`, `PartitionedVectors.Deref` and `PartitionedVectors.WalkFromBegin` require at least one item per page: with `page_size < sizeof(T)` the source divides by `page_size / sizeof(T) == 0` (headers/thesoup/types/vector.hpp:50 and 87), which is undefined behaviour.
- `PartitionedVectors.Deref`: requires an index below the size; the source dereferences past the end without a check, which is undefined behaviour.
- `VectorCaches.Deref`: requires an index below the size, for the same reason.
- `VectorCaches.VectorCache.PushBack`: requires a page store whenever the push would call the saver; with empty `std::function`s the source throws `std::bad_function_call` out of a `noexcept` function, which ends the program (see Findings).
- `VectorCaches.VectorCache.constructor`: requires `page_offset_bits + page_index_bits < 8`, the source's `static_assert` against `sizeof(std::size_t)`; the model takes that bound as written.
- The `kruskal` test scenario (tst/thesoup/algorithms/kruskal.cc) is not restated as a concrete run; its promises (a spanning forest of minimum weight in which each kept edge joined two separate components) are stated for all inputs instead.
- In tst/thesoup/types/vector.cc the swap scenario is labelled as using a 2-bit index but sets `index_bits` to 3 (8 slots); the model follows the code.

## Findings

| source | as written | input that shows it | evidently intended | confidence | as-written member | corrected member |
|---|---|---|---|---|---|---|
| headers/thesoup/types/indexedgraph.hpp:280 | the second test of `delete_edge` compares the forward iterator with the end of the target vertex's outgoing set, so a missing forward entry between two different vertices is not seen; the fall-through at line 286 then calls `outgoing_edges.erase(it)` with `it` equal to `end()`, which is undefined behaviour, and `IndexedGraph.AsWrittenMissesBrokenEdge` renders that erase as success | an edge `a -> b`, `a != b`, whose backward entry is present and forward entry is missing; the class's own operations never reach such a state, since they keep the two entries mirrored (`IndexedGraph.MirroredNeverBroken`), so the defect is latent | report `BROKEN_EDGE` whenever exactly one of the two entries is found | not executed | IndexedGraph.AsWrittenMissesBrokenEdge | IndexedGraph.DeleteEdgeOutcome |
| headers/thesoup/types/vector_cache.hpp:88-92 | the move constructor moves the page table, size and page count but not the saver and loader | one item per page, one slot: push 7, move the cache, push again | the moved-to cache keeps the saver and the loader and goes on swapping pages | not executed | VectorCacheScenarios.MoveAsWrittenLosesSaver | VectorCacheScenarios.MoveThenGrow |

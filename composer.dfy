/**
 * The cooperative `FutureComposer` (thesoup/async/futures.hpp, and its twin
 * in thesoup/async/functions.hpp): a future together with the executor that
 * drives the coroutines composed onto it.  `map`, `flatmap` and `join` move
 * the composer's future into a new helper coroutine and wrap that
 * coroutine's future; `get_future` hands the future out once.
 */
module Composers {
  import opened Common
  import opened Promises
  import opened Coroutines
  import opened RoundRobin

  class FutureComposer {
    const executor: Executor
    var fut: FutureRef
    var isValid: bool

    constructor(executor: Executor, fut: FutureRef)
      ensures this.executor == executor && this.fut == fut && isValid
    {
      this.executor := executor;
      this.fut := fut;
      isValid := true;
    }

    /**
     * Launches `p`, whose first statement awaits the executor, and wraps its
     * future: the new task is queued at the back of the executor.
     */
    method Compose(w: World, p: Prog) returns (next: FutureComposer, w': World)
      requires executor.Valid() && QueueOk(w, executor.handles) && AtEntry(p)
      modifies executor
      ensures executor.Valid() && QueueOk(w', executor.handles)
      ensures w' == Launch(w, p).0
      ensures executor.handles == old(executor.handles) + [|w.frames|]
      ensures fresh(next) && next.executor == executor && next.fut == TaskFuture(|w.frames|) && next.isValid
    {
      LaunchAsksToBeScheduled(w, p);
      var t;
      w', t := Spawn(executor, w, p);
      next := new FutureComposer(executor, TaskFuture(t));
    }

    /** `map`: a `map_coroutine` over this composer's future, which is moved out. */
    method Map(w: World, f: MapFunction) returns (next: FutureComposer, w': World)
      requires executor.Valid() && QueueOk(w, executor.handles)
      modifies this, executor
      ensures executor.Valid() && QueueOk(w', executor.handles)
      ensures w' == Launch(w, MapProg(old(fut), f, MapEntry)).0
      ensures executor.handles == old(executor.handles) + [|w.frames|]
      ensures fresh(next) && next.executor == executor && next.fut == TaskFuture(|w.frames|) && next.isValid
      ensures fut == NoState && isValid == old(isValid)
    {
      next, w' := Compose(w, MapProg(fut, f, MapEntry));
      fut := NoState;
    }

    /** `flatmap`: a `flatmap_coroutine` over this composer's future, which is moved out. */
    method FlatMap(w: World, g: FlatMapFunction) returns (next: FutureComposer, w': World)
      requires executor.Valid() && QueueOk(w, executor.handles)
      modifies this, executor
      ensures executor.Valid() && QueueOk(w', executor.handles)
      ensures w' == Launch(w, FlatMapProg(old(fut), g, FlatMapEntry)).0
      ensures executor.handles == old(executor.handles) + [|w.frames|]
      ensures fresh(next) && next.executor == executor && next.fut == TaskFuture(|w.frames|) && next.isValid
      ensures fut == NoState && isValid == old(isValid)
    {
      next, w' := Compose(w, FlatMapProg(fut, g, FlatMapEntry));
      fut := NoState;
    }

    /** `join`: a `join_coroutine` over this composer's future (left) and `other` (right). */
    method Join(w: World, other: FutureRef) returns (next: FutureComposer, w': World)
      requires executor.Valid() && QueueOk(w, executor.handles)
      modifies this, executor
      ensures executor.Valid() && QueueOk(w', executor.handles)
      ensures w' == Launch(w, JoinProg(old(fut), other, JoinEntry)).0
      ensures executor.handles == old(executor.handles) + [|w.frames|]
      ensures fresh(next) && next.executor == executor && next.fut == TaskFuture(|w.frames|) && next.isValid
      ensures fut == NoState && isValid == old(isValid)
    {
      next, w' := Compose(w, JoinProg(fut, other, JoinEntry));
      fut := NoState;
    }

    /**
     * `get_future`: the first call hands the future out; every later call
     * throws `runtime_error("Invalid future.")` and changes nothing.
     */
    method GetFuture() returns (r: Result<FutureRef, Exception>)
      modifies this
      ensures old(isValid) ==> r == Success(old(fut)) && !isValid && fut == NoState
      ensures !old(isValid) ==> r == Failure(RuntimeError("Invalid future.")) && !isValid && fut == old(fut)
    {
      if !isValid {
        r := Failure(RuntimeError("Invalid future."));
      } else {
        isValid := false;
        r := Success(fut);
        fut := NoState;
      }
    }
  }

  /** The static `collect`: a `collect_coroutine` over `inputs`, wrapped in a new composer. */
  method Collect(exec: Executor, w: World, inputs: seq<FutureRef>) returns (next: FutureComposer, w': World)
    requires exec.Valid() && QueueOk(w, exec.handles)
    modifies exec
    ensures exec.Valid() && QueueOk(w', exec.handles)
    ensures w' == Launch(w, CollectProg(inputs, CollectEntry)).0
    ensures exec.handles == old(exec.handles) + [|w.frames|]
    ensures fresh(next) && next.executor == exec && next.fut == TaskFuture(|w.frames|) && next.isValid
  {
    var p := CollectProg(inputs, CollectEntry);
    LaunchAsksToBeScheduled(w, p);
    var t;
    w', t := Spawn(exec, w, p);
    next := new FutureComposer(exec, TaskFuture(t));
  }
}

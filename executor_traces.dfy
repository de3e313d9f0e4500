/**
 * What the executor's tests observe, proved for the model: coroutines that
 * count to ten finish in the order of the work they have left, each with
 * the right result; a coroutine that throws stores its exception without
 * disturbing its siblings; a coroutine that awaits its executor twice is
 * queued once.
 */
module ExecutorTraces {
  import opened Common
  import opened Promises
  import opened Coroutines
  import opened RoundRobin

  /** Number of `resume()` calls after which a counting routine is done. */
  function Need(start: int, throwing: bool): nat
  {
    if throwing then 1 else if start < 10 then 11 - start else 1
  }

  /** The result a counting routine leaves in its future. */
  function Outcome(start: int, throwing: bool): Cell
  {
    if throwing then Error(RuntimeError("error"))
    else Value(IntV(if start < 10 then 10 - start else 0))
  }

  function Min(a: nat, b: nat): nat { if a <= b then a else b }

  /** The frame of a counting routine after `r` resumes. */
  ghost predicate CounterAfter(f: Frame, start: int, throwing: bool, r: nat)
  {
    && r <= Need(start, throwing)
    && f.prog.Counter? && f.prog.start == start && f.prog.throwing == throwing
    && f.resumes == r && f.calls == [] && f.written == []
    && (r < Need(start, throwing) ==>
          && !f.done
          && f.promise == PromiseType(Scheduled, Empty)
          && f.prog.cpc == (if r == 0 then CounterAtExecutor else CounterAtUnit(start + r - 1, r)))
    && (r == Need(start, throwing) ==> f.done && f.promise.promise == Outcome(start, throwing))
  }

  /** One `resume()` moves a counting routine one iteration on; the last one stores its result. */
  lemma CounterResume(f: Frame, start: int, throwing: bool, r: nat)
    requires CounterAfter(f, start, throwing, r) && r < Need(start, throwing)
    ensures CounterAfter(ResumeAlone(f), start, throwing, r + 1)
    ensures ResumeAlone(f).destroyed == f.destroyed
  {
  }

  /** The world after calling the first `n` counting routines of `starts`/`throws` in order. */
  function LaunchFirst(starts: seq<int>, throws: seq<bool>, n: nat): (w: World)
    requires |starts| == |throws| && n <= |starts|
    ensures WellFormed(w) && |w.frames| == n
  {
    if n == 0 then World([], [])
    else Spawned(LaunchFirst(starts, throws, n - 1), starts[n - 1], throws[n - 1])
  }

  /** The world after calling one more counting routine: the new frame waits at its first await. */
  function Spawned(w: World, start: int, throwing: bool): (w': World)
    requires WellFormed(w)
    ensures WellFormed(w') && |w'.frames| == |w.frames| + 1 && w'.frames[..|w.frames|] == w.frames
    ensures w'.external == w.external
    ensures CounterSlot(w'.frames[|w.frames|], start, throwing, 0)
  {
    var w' := Launch(w, Counter(start, throwing, CounterEntry)).0;
    assert CounterAfter(w'.frames[|w.frames|], start, throwing, 0);
    w'
  }

  /** The world after calling all the counting routines `starts`/`throws` in order. */
  function LaunchCounters(starts: seq<int>, throws: seq<bool>): (w: World)
    requires |starts| == |throws|
    ensures WellFormed(w) && |w.frames| == |starts|
  {
    LaunchFirst(starts, throws, |starts|)
  }

  function Iota(n: nat): (r: seq<nat>)
    ensures |r| == n && forall i :: 0 <= i < n ==> r[i] == i
  {
    if n == 0 then [] else Iota(n - 1) + [n - 1]
  }

  /** Every counting routine of the world is in the state it reaches after `k` passes. */
  ghost predicate CountersAfter(w: World, starts: seq<int>, throws: seq<bool>, k: nat)
  {
    && |starts| == |throws| == |w.frames|
    && forall i :: 0 <= i < |w.frames| ==> CounterSlot(w.frames[i], starts[i], throws[i], k)
  }

  /** A counting routine after `k` passes: `Need` resumes at most, destroyed once the pass after its last resume is over. */
  ghost predicate CounterSlot(f: Frame, start: int, throwing: bool, k: nat)
  {
    && CounterAfter(f, start, throwing, Min(k, Need(start, throwing)))
    && (f.destroyed <==> k > Need(start, throwing))
  }

  /** Calling the first `n` routines in order leaves each one waiting at its first await, scheduled once. */
  lemma {:induction false} LaunchFirstState(starts: seq<int>, throws: seq<bool>, n: nat)
    requires |starts| == |throws| && n <= |starts|
    ensures LaunchFirst(starts, throws, n).external == []
    ensures forall i :: 0 <= i < n ==> CounterSlot(LaunchFirst(starts, throws, n).frames[i], starts[i], throws[i], 0)
    decreases n
  {
    if n > 0 {
      var w := LaunchFirst(starts, throws, n - 1);
      LaunchFirstState(starts, throws, n - 1);
      var w' := LaunchFirst(starts, throws, n);
      assert w'.frames[..n - 1] == w.frames;
      forall i | 0 <= i < n
        ensures CounterSlot(w'.frames[i], starts[i], throws[i], 0)
      {
        if i < n - 1 {
          assert w'.frames[..n - 1][i] == w'.frames[i];
        }
      }
    }
  }

  /** The first `n` routines called in order form a valid queue, in the order they were called. */
  lemma LaunchFirstQueue(starts: seq<int>, throws: seq<bool>, n: nat)
    requires |starts| == |throws| && n <= |starts|
    ensures QueueOk(LaunchFirst(starts, throws, n), Iota(n))
  {
    var w := LaunchFirst(starts, throws, n);
    LaunchFirstState(starts, throws, n);
    forall i | 0 <= i < n
      ensures !w.frames[i].destroyed && w.frames[i].promise.status != Pending
    {
      assert CounterSlot(w.frames[i], starts[i], throws[i], 0);
    }
  }

  /** Calling the routines in order leaves each one waiting at its first await, scheduled once. */
  lemma LaunchCountersState(starts: seq<int>, throws: seq<bool>)
    requires |starts| == |throws|
    ensures CountersAfter(LaunchCounters(starts, throws), starts, throws, 0)
    ensures LaunchCounters(starts, throws).external == []
  {
    LaunchFirstState(starts, throws, |starts|);
  }

  /** The routines called in order form a valid queue, in the order they were called. */
  lemma LaunchCountersQueue(starts: seq<int>, throws: seq<bool>)
    requires |starts| == |throws|
    ensures QueueOk(LaunchCounters(starts, throws), Iota(|starts|))
  {
    LaunchFirstQueue(starts, throws, |starts|);
  }

  /** The handles in `idx` whose routines need at least `k` passes. */
  function Survivors(idx: seq<nat>, starts: seq<int>, throws: seq<bool>, k: nat): (r: seq<nat>)
    requires |starts| == |throws| && forall j :: 0 <= j < |idx| ==> idx[j] < |starts|
  {
    if idx == [] then []
    else
      var rest := Survivors(idx[1..], starts, throws, k);
      if Need(starts[idx[0]], throws[idx[0]]) >= k then [idx[0]] + rest else rest
  }

  lemma {:induction false} SurvivorsMembers(idx: seq<nat>, starts: seq<int>, throws: seq<bool>, k: nat)
    requires |starts| == |throws| && forall j :: 0 <= j < |idx| ==> idx[j] < |starts|
    ensures forall u :: u in Survivors(idx, starts, throws, k) <==> u in idx && Need(starts[u], throws[u]) >= k
    decreases |idx|
  {
    if idx != [] {
      SurvivorsMembers(idx[1..], starts, throws, k);
    }
  }

  lemma {:induction false} UnfinishedSurvivors(w: World, idx: seq<nat>, starts: seq<int>, throws: seq<bool>, k: nat)
    requires CountersAfter(w, starts, throws, k)
    requires forall j :: 0 <= j < |idx| ==> idx[j] < |starts|
    ensures forall j :: 0 <= j < |Survivors(idx, starts, throws, k)| ==> Survivors(idx, starts, throws, k)[j] < |w.frames|
    ensures Unfinished(w, Survivors(idx, starts, throws, k)) == Survivors(idx, starts, throws, k + 1)
    decreases |idx|
  {
    if idx != [] {
      UnfinishedSurvivors(w, idx[1..], starts, throws, k);
    }
  }

  /**
   * One pass over counting routines: every routine that still needs passes
   * moves one iteration on, finished ones are destroyed and leave the queue,
   * and the queue stays in launch order.
   */
  lemma PassCounters(w: World, hs: seq<nat>, starts: seq<int>, throws: seq<bool>, k: nat)
    requires CountersAfter(w, starts, throws, k) && QueueOk(w, hs)
    requires hs == Survivors(Iota(|starts|), starts, throws, k)
    ensures CountersAfter(Sweep(w, hs).world, starts, throws, k + 1)
    ensures Sweep(w, hs).kept == Survivors(Iota(|starts|), starts, throws, k + 1)
  {
    var r := Sweep(w, hs);
    SweepFrames(w, hs);
    SweepKept(w, hs);
    UnfinishedSurvivors(w, Iota(|starts|), starts, throws, k);
    SurvivorsMembers(Iota(|starts|), starts, throws, k);
    forall i | 0 <= i < |w.frames|
      ensures CounterSlot(r.world.frames[i], starts[i], throws[i], k + 1)
    {
      var n := Need(starts[i], throws[i]);
      assert Iota(|starts|)[i] == i;
      if i in hs {
        SweepFrameAlone(w, hs, i);
        if k < n {
          CounterResume(w.frames[i], starts[i], throws[i], k);
        } else {
          assert r.world.frames[i] == w.frames[i].(destroyed := true);
        }
      } else {
        assert r.world.frames[i] == w.frames[i];
      }
    }
  }

  /** After `k` calls of `step` on counting routines that all start from their first await. */
  lemma {:induction false} CountersTrace(w: World, hs: seq<nat>, starts: seq<int>, throws: seq<bool>, k: nat)
    requires CountersAfter(w, starts, throws, 0) && QueueOk(w, hs)
    requires hs == Survivors(Iota(|starts|), starts, throws, 0)
    ensures CountersAfter(Passes(w, hs, k).world, starts, throws, k)
    ensures Passes(w, hs, k).kept == Survivors(Iota(|starts|), starts, throws, k)
    decreases k
  {
    if k > 0 {
      CountersTrace(w, hs, starts, throws, k - 1);
      CountersPass(w, hs, starts, throws, k - 1);
    }
  }

  /** One more call of `step` keeps the counting routines on their trace. */
  lemma CountersPass(w: World, hs: seq<nat>, starts: seq<int>, throws: seq<bool>, j: nat)
    requires QueueOk(w, hs)
    requires CountersAfter(Passes(w, hs, j).world, starts, throws, j)
    requires Passes(w, hs, j).kept == Survivors(Iota(|starts|), starts, throws, j)
    ensures CountersAfter(Passes(w, hs, j + 1).world, starts, throws, j + 1)
    ensures Passes(w, hs, j + 1).kept == Survivors(Iota(|starts|), starts, throws, j + 1)
  {
    var p := Passes(w, hs, j);
    PassCounters(p.world, p.kept, starts, throws, j);
    PassesNext(w, hs, j);
  }

  /** Every routine survives zero passes. */
  lemma {:induction false} SurvivorsAll(idx: seq<nat>, starts: seq<int>, throws: seq<bool>)
    requires |starts| == |throws| && forall j :: 0 <= j < |idx| ==> idx[j] < |starts|
    ensures Survivors(idx, starts, throws, 0) == idx
    decreases |idx|
  {
    if idx != [] {
      SurvivorsAll(idx[1..], starts, throws);
    }
  }

  /** After `k` calls of `step` on freshly called counting routines. */
  lemma TraceFromLaunch(starts: seq<int>, throws: seq<bool>, k: nat)
    requires |starts| == |throws|
    ensures QueueOk(LaunchCounters(starts, throws), Iota(|starts|))
    ensures CountersAfter(Passes(LaunchCounters(starts, throws), Iota(|starts|), k).world, starts, throws, k)
    ensures Passes(LaunchCounters(starts, throws), Iota(|starts|), k).kept == Survivors(Iota(|starts|), starts, throws, k)
  {
    LaunchCountersState(starts, throws);
    LaunchCountersQueue(starts, throws);
    SurvivorsAll(Iota(|starts|), starts, throws);
    CountersTrace(LaunchCounters(starts, throws), Iota(|starts|), starts, throws, k);
  }

  /** Routine `i` after `k` calls of `step`: done once `k` reaches its need, and then its future holds its result. */
  lemma CounterFuture(starts: seq<int>, throws: seq<bool>, k: nat, i: nat)
    requires |starts| == |throws| && i < |starts|
    ensures QueueOk(LaunchCounters(starts, throws), Iota(|starts|))
    ensures var w := Passes(LaunchCounters(starts, throws), Iota(|starts|), k).world;
      && |w.frames| == |starts|
      && (w.frames[i].done <==> k >= Need(starts[i], throws[i]))
      && Read(w, TaskFuture(i)) == (if k >= Need(starts[i], throws[i]) then Outcome(starts[i], throws[i]) else Empty)
  {
    TraceFromLaunch(starts, throws, k);
    var w := Passes(LaunchCounters(starts, throws), Iota(|starts|), k).world;
    assert CounterSlot(w.frames[i], starts[i], throws[i], k);
  }

  /**
   * The round-robin theorem: after `k` calls of `step` on counting routines
   * called in order, routine `i` is done exactly when `k` reaches the number
   * of resumes it needs, its future then holds its result, and the queue
   * (whose length `size` reports) holds exactly the routines needing at
   * least `k` resumes, in the order they were called.
   */
  lemma RoundRobinTheorem(starts: seq<int>, throws: seq<bool>, k: nat)
    requires |starts| == |throws|
    ensures QueueOk(LaunchCounters(starts, throws), Iota(|starts|))
    ensures var r := Passes(LaunchCounters(starts, throws), Iota(|starts|), k);
      && r.kept == Survivors(Iota(|starts|), starts, throws, k)
      && |r.world.frames| == |starts|
      && forall i :: 0 <= i < |starts| ==>
           && (r.world.frames[i].done <==> k >= Need(starts[i], throws[i]))
           && Read(r.world, TaskFuture(i)) == (if k >= Need(starts[i], throws[i]) then Outcome(starts[i], throws[i]) else Empty)
  {
    TraceFromLaunch(starts, throws, k);
    var r := Passes(LaunchCounters(starts, throws), Iota(|starts|), k);
    forall i | 0 <= i < |starts|
      ensures r.world.frames[i].done <==> k >= Need(starts[i], throws[i])
      ensures Read(r.world, TaskFuture(i)) == (if k >= Need(starts[i], throws[i]) then Outcome(starts[i], throws[i]) else Empty)
    {
      CounterFuture(starts, throws, k, i);
    }
  }

  /** Every routine survives exactly when all of them still need `k` passes; none survives exactly when none does. */
  lemma {:induction false} SurvivorsBounds(idx: seq<nat>, starts: seq<int>, throws: seq<bool>, k: nat)
    requires |starts| == |throws| && forall j :: 0 <= j < |idx| ==> idx[j] < |starts|
    ensures |Survivors(idx, starts, throws, k)| <= |idx|
    ensures |Survivors(idx, starts, throws, k)| == |idx| <==> forall j :: 0 <= j < |idx| ==> Need(starts[idx[j]], throws[idx[j]]) >= k
    ensures Survivors(idx, starts, throws, k) == [] <==> forall j :: 0 <= j < |idx| ==> Need(starts[idx[j]], throws[idx[j]]) < k
    ensures (forall j :: 0 <= j < |idx| ==> Need(starts[idx[j]], throws[idx[j]]) >= k) ==> Survivors(idx, starts, throws, k) == idx
    decreases |idx|
  {
    if idx != [] {
      SurvivorsBounds(idx[1..], starts, throws, k);
      assert forall j :: 1 <= j < |idx| ==> idx[j] == idx[1..][j - 1];
    }
  }

  /** One more call of `step` after `k` of them. */
  lemma {:induction false} PassesNext(w: World, hs: seq<nat>, k: nat)
    requires QueueOk(w, hs)
    ensures var p := Passes(w, hs, k);
      Passes(w, hs, k + 1) == Sweep(p.world, p.kept)
    decreases k
  {
    if k > 0 {
      SweepQueueOk(w, hs);
      var s := Sweep(w, hs);
      PassesNext(s.world, s.kept, k - 1);
    }
  }

  /** The routines of the executor's first test, and of its test with a throwing routine. */
  const FourStarts: seq<int> := [8, 6, 4, 2]
  const FourThrows: seq<bool> := [false, false, false, false]
  const PairStarts: seq<int> := [0, 0]
  const PairThrows: seq<bool> := [false, true]

  /** The futures of the first `n` routines. */
  function Futures(w: World, n: nat): (r: seq<Cell>)
    ensures |r| == n && forall i :: 0 <= i < n ==> r[i] == Read(w, TaskFuture(i))
  {
    seq(n, i requires 0 <= i => Read(w, TaskFuture(i)))
  }

  /** Queue and world after calling the routines in order and then `step` `k` times. */
  function Trace(starts: seq<int>, throws: seq<bool>, k: nat): SweepResult
    requires |starts| == |throws|
  {
    LaunchCountersQueue(starts, throws);
    Passes(LaunchCounters(starts, throws), Iota(|starts|), k)
  }

  /** Before any call of `step`: the routines as called, queued in order. */
  lemma TraceStart(starts: seq<int>, throws: seq<bool>)
    requires |starts| == |throws|
    ensures Trace(starts, throws, 0) == SweepResult(Iota(|starts|), LaunchFirst(starts, throws, |starts|))
  {
    var w := LaunchCounters(starts, throws);
    LaunchCountersQueue(starts, throws);
    assert Trace(starts, throws, 0) == Passes(w, Iota(|starts|), 0) == SweepResult(Iota(|starts|), w);
  }

  /** What `step` needs before, and gives after, its `k+1`-th call. */
  lemma TraceNext(starts: seq<int>, throws: seq<bool>, k: nat)
    requires |starts| == |throws|
    ensures QueueOk(Trace(starts, throws, k).world, Trace(starts, throws, k).kept)
    ensures Trace(starts, throws, k + 1) == Sweep(Trace(starts, throws, k).world, Trace(starts, throws, k).kept)
  {
    LaunchCountersQueue(starts, throws);
    PassesNext(LaunchCounters(starts, throws), Iota(|starts|), k);
  }

  /**
   * After `k` calls of `step` on routines called in order, the queue still
   * holds every routine exactly when each needs at least `k` resumes, and is
   * empty exactly when none does.
   */
  lemma TraceKept(starts: seq<int>, throws: seq<bool>, k: nat)
    requires |starts| == |throws|
    ensures |Trace(starts, throws, k).kept| == |starts| <==> forall i :: 0 <= i < |starts| ==> Need(starts[i], throws[i]) >= k
    ensures |Trace(starts, throws, k).kept| == 0 <==> forall i :: 0 <= i < |starts| ==> Need(starts[i], throws[i]) < k
  {
    TraceFromLaunch(starts, throws, k);
    SurvivorsOfAll(starts, throws, k);
  }

  /** Of all routines, every one survives `k` passes exactly when each needs `k`, and none exactly when none does. */
  lemma SurvivorsOfAll(starts: seq<int>, throws: seq<bool>, k: nat)
    requires |starts| == |throws|
    ensures |Survivors(Iota(|starts|), starts, throws, k)| == |starts| <==> forall i :: 0 <= i < |starts| ==> Need(starts[i], throws[i]) >= k
    ensures |Survivors(Iota(|starts|), starts, throws, k)| == 0 <==> forall i :: 0 <= i < |starts| ==> Need(starts[i], throws[i]) < k
  {
    var idx := Iota(|starts|);
    SurvivorsBounds(idx, starts, throws, k);
    if forall i :: 0 <= i < |starts| ==> Need(starts[i], throws[i]) >= k {
      forall j | 0 <= j < |idx| ensures Need(starts[idx[j]], throws[idx[j]]) >= k {
        assert idx[j] == j;
      }
    }
    if forall i :: 0 <= i < |starts| ==> Need(starts[i], throws[i]) < k {
      forall j | 0 <= j < |idx| ensures Need(starts[idx[j]], throws[idx[j]]) < k {
        assert idx[j] == j;
      }
    }
    if |Survivors(idx, starts, throws, k)| == |starts| {
      forall i | 0 <= i < |starts| ensures Need(starts[i], throws[i]) >= k {
        assert idx[i] == i;
      }
    }
    if |Survivors(idx, starts, throws, k)| == 0 {
      assert Survivors(idx, starts, throws, k) == [];
      forall i | 0 <= i < |starts| ensures Need(starts[i], throws[i]) < k {
        assert idx[i] == i;
      }
    }
  }

  /** The queue keeps every routine for exactly as many calls of `step` as the routine needing the fewest resumes needs. */
  lemma FullWhile(starts: seq<int>, throws: seq<bool>, k: nat, j: nat)
    requires |starts| == |throws| && j < |starts|
    requires forall i :: 0 <= i < |starts| ==> Need(starts[j], throws[j]) <= Need(starts[i], throws[i])
    ensures |Trace(starts, throws, k).kept| == |starts| <==> k <= Need(starts[j], throws[j])
  {
    TraceKept(starts, throws, k);
  }

  /** The queue is empty from the call of `step` after the last resume of the routine needing the most. */
  lemma EmptyFrom(starts: seq<int>, throws: seq<bool>, k: nat, j: nat)
    requires |starts| == |throws| && j < |starts|
    requires forall i :: 0 <= i < |starts| ==> Need(starts[i], throws[i]) <= Need(starts[j], throws[j])
    ensures |Trace(starts, throws, k).kept| == 0 <==> k > Need(starts[j], throws[j])
  {
    TraceKept(starts, throws, k);
  }

  /** What each routine's future holds after `k` calls of `step`, by the resumes it needs. */
  function Expected(starts: seq<int>, throws: seq<bool>, k: nat): (r: seq<Cell>)
    requires |starts| == |throws|
    ensures |r| == |starts|
    ensures forall i :: 0 <= i < |starts| ==> r[i] == if k >= Need(starts[i], throws[i]) then Outcome(starts[i], throws[i]) else Empty
  {
    seq(|starts|, i requires 0 <= i < |starts| => if k >= Need(starts[i], throws[i]) then Outcome(starts[i], throws[i]) else Empty)
  }

  /** After `k` calls of `step` the futures of the routines hold what their needed resumes predict. */
  lemma TraceFutures(starts: seq<int>, throws: seq<bool>, k: nat)
    requires |starts| == |throws|
    ensures Futures(Trace(starts, throws, k).world, |starts|) == Expected(starts, throws, k)
  {
    forall i | 0 <= i < |starts|
      ensures Read(Trace(starts, throws, k).world, TaskFuture(i))
        == (if k >= Need(starts[i], throws[i]) then Outcome(starts[i], throws[i]) else Empty)
    {
      CounterFuture(starts, throws, k, i);
    }
  }

  /** The first test's routines need 3, 5, 7 and 9 resumes. */
  lemma FourNeeds(starts: seq<int>, throws: seq<bool>)
    requires starts == FourStarts && throws == FourThrows
    ensures |starts| == |throws| == 4
    ensures Need(starts[0], throws[0]) == 3 && Need(starts[3], throws[3]) == 9
    ensures forall i :: 0 <= i < |starts| ==> 3 <= Need(starts[i], throws[i]) <= 9
  {
    assert Need(starts[1], throws[1]) == 5 && Need(starts[2], throws[2]) == 7;
  }

  /** The queue of the first test keeps all four routines for three calls of `step` exactly. */
  lemma FourFull(starts: seq<int>, throws: seq<bool>, k: nat)
    requires starts == FourStarts && throws == FourThrows
    ensures |Trace(starts, throws, k).kept| == 4 <==> k <= 3
  {
    FourNeeds(starts, throws);
    FullWhile(starts, throws, k, 0);
  }

  /** The queue of the first test is empty from the tenth call of `step` on. */
  lemma FourEmpty(starts: seq<int>, throws: seq<bool>, k: nat)
    requires starts == FourStarts && throws == FourThrows
    ensures |Trace(starts, throws, k).kept| == 0 <==> k >= 10
  {
    FourNeeds(starts, throws);
    EmptyFrom(starts, throws, k, 3);
  }

  /** The first test's expected futures after four calls of `step`, and from ten calls on. */
  lemma FourExpected(starts: seq<int>, throws: seq<bool>, k: nat)
    requires starts == FourStarts && throws == FourThrows
    ensures k == 4 ==> Expected(starts, throws, k) == [Value(IntV(2)), Empty, Empty, Empty]
    ensures k >= 10 ==> Expected(starts, throws, k) == [Value(IntV(2)), Value(IntV(4)), Value(IntV(6)), Value(IntV(8))]
  {
    FourNeeds(starts, throws);
    assert Need(starts[1], throws[1]) == 5 && Need(starts[2], throws[2]) == 7;
  }

  /** After four calls of `step` only the routine counting from 8 is done. */
  lemma FourAtFirstDrop(starts: seq<int>, throws: seq<bool>, k: nat)
    requires starts == FourStarts && throws == FourThrows && k == 4
    ensures Futures(Trace(starts, throws, k).world, 4) == [Value(IntV(2)), Empty, Empty, Empty]
  {
    FourExpected(starts, throws, k);
    TraceFutures(starts, throws, k);
  }

  /** From ten calls of `step` on all four futures hold their counts. */
  lemma FourAtEnd(starts: seq<int>, throws: seq<bool>, k: nat)
    requires starts == FourStarts && throws == FourThrows && k >= 10
    ensures Futures(Trace(starts, throws, k).world, 4) == [Value(IntV(2)), Value(IntV(4)), Value(IntV(6)), Value(IntV(8))]
  {
    FourExpected(starts, throws, k);
    TraceFutures(starts, throws, k);
  }

  /** The throwing test's routines need 11 resumes and 1; the expected futures once both are done. */
  lemma PairNeeds(starts: seq<int>, throws: seq<bool>, k: nat)
    requires starts == PairStarts && throws == PairThrows
    ensures |starts| == |throws| == 2
    ensures Need(starts[0], throws[0]) == 11
    ensures forall i :: 0 <= i < |starts| ==> Need(starts[i], throws[i]) <= 11
    ensures k >= 11 ==> Expected(starts, throws, k) == [Value(IntV(10)), Error(RuntimeError("error"))]
  {
    assert Need(starts[1], throws[1]) == 1;
  }

  /** The queue of the throwing test is empty from the twelfth call of `step` on. */
  lemma PairEmpty(starts: seq<int>, throws: seq<bool>, k: nat)
    requires starts == PairStarts && throws == PairThrows
    ensures |Trace(starts, throws, k).kept| == 0 <==> k >= 12
  {
    PairNeeds(starts, throws, k);
    EmptyFrom(starts, throws, k, 0);
  }

  /** Once the queue is empty, one future holds 10 and the other the routine's exception. */
  lemma PairAtEnd(starts: seq<int>, throws: seq<bool>, k: nat)
    requires starts == PairStarts && throws == PairThrows && k >= 11
    ensures Futures(Trace(starts, throws, k).world, 2) == [Value(IntV(10)), Error(RuntimeError("error"))]
  {
    PairNeeds(starts, throws, k);
    TraceFutures(starts, throws, k);
  }

  /** Spawns the `n`-th counting routine after the first `n`; it is scheduled as handle `n`. */
  method SpawnCounter(exec: Executor, w: World, starts: seq<int>, throws: seq<bool>, n: nat) returns (w': World)
    requires |starts| == |throws| && n < |starts|
    requires exec.Valid() && w == LaunchFirst(starts, throws, n) && exec.handles == Iota(n)
    modifies exec
    ensures exec.Valid() && w' == LaunchFirst(starts, throws, n + 1) && exec.handles == Iota(n + 1)
  {
    LaunchFirstQueue(starts, throws, n);
    LaunchAsksToBeScheduled(w, Counter(starts[n], throws[n], CounterEntry));
    var t;
    w', t := Spawn(exec, w, Counter(starts[n], throws[n], CounterEntry));
  }

  /** Spawns the first test's four routines, in order, on a new executor. */
  method SpawnFour() returns (exec: Executor, w: World, starts: seq<int>, throws: seq<bool>)
    ensures fresh(exec) && exec.Valid()
    ensures starts == FourStarts && throws == FourThrows
    ensures w == Trace(starts, throws, 0).world && exec.handles == Trace(starts, throws, 0).kept
  {
    starts, throws := FourStarts, FourThrows;
    exec := new Executor();
    w := World([], []);
    w := SpawnCounter(exec, w, starts, throws, 0);
    w := SpawnCounter(exec, w, starts, throws, 1);
    w := SpawnCounter(exec, w, starts, throws, 2);
    w := SpawnCounter(exec, w, starts, throws, 3);
    TraceStart(starts, throws);
  }

  /** Spawns the throwing test's two routines, in order, on a new executor. */
  method SpawnPair() returns (exec: Executor, w: World, starts: seq<int>, throws: seq<bool>)
    ensures fresh(exec) && exec.Valid()
    ensures starts == PairStarts && throws == PairThrows
    ensures w == Trace(starts, throws, 0).world && exec.handles == Trace(starts, throws, 0).kept
  {
    starts, throws := PairStarts, PairThrows;
    exec := new Executor();
    w := World([], []);
    w := SpawnCounter(exec, w, starts, throws, 0);
    w := SpawnCounter(exec, w, starts, throws, 1);
    TraceStart(starts, throws);
  }

  /**
   * `step` while `size()` is `s`, starting after `k0` calls, when the queue
   * holds `s` routines exactly until the `kEnd`-th call.
   */
  method StepWhileSize(exec: Executor, w: World, starts: seq<int>, throws: seq<bool>, s: nat, ghost k0: nat, ghost kEnd: nat)
    returns (w': World)
    requires |starts| == |throws| && k0 <= kEnd
    requires exec.Valid() && w == Trace(starts, throws, k0).world && exec.handles == Trace(starts, throws, k0).kept
    requires forall k :: k0 <= k <= kEnd ==> (|Trace(starts, throws, k).kept| == s <==> k < kEnd)
    modifies exec
    ensures exec.Valid() && w' == Trace(starts, throws, kEnd).world && exec.handles == Trace(starts, throws, kEnd).kept
  {
    w' := w;
    ghost var k := k0;
    while exec.Size() == s
      invariant exec.Valid() && k0 <= k <= kEnd
      invariant w' == Trace(starts, throws, k).world && exec.handles == Trace(starts, throws, k).kept
      decreases kEnd - k
    {
      TraceNext(starts, throws, k);
      w' := exec.Step(w');
      k := k + 1;
    }
  }

  /**
   * `step` while `size()` is positive, starting after `k0` calls, when the
   * queue is empty from the `kEnd`-th call on.
   */
  method StepWhileAny(exec: Executor, w: World, starts: seq<int>, throws: seq<bool>, ghost k0: nat, ghost kEnd: nat)
    returns (w': World)
    requires |starts| == |throws| && k0 <= kEnd
    requires exec.Valid() && w == Trace(starts, throws, k0).world && exec.handles == Trace(starts, throws, k0).kept
    requires forall k :: k0 <= k <= kEnd ==> (|Trace(starts, throws, k).kept| == 0 <==> k == kEnd)
    modifies exec
    ensures exec.Valid() && w' == Trace(starts, throws, kEnd).world && exec.handles == Trace(starts, throws, kEnd).kept
  {
    w' := w;
    ghost var k := k0;
    while exec.Size() > 0
      invariant exec.Valid() && k0 <= k <= kEnd
      invariant w' == Trace(starts, throws, k).world && exec.handles == Trace(starts, throws, k).kept
      decreases kEnd - k
    {
      TraceNext(starts, throws, k);
      w' := exec.Step(w');
      k := k + 1;
    }
  }

  /**
   * The executor's first test: four routines counting from 8, 6, 4 and 2
   * are called in that order; `step` is called while `size` is 4, then
   * while it is positive.  When `size` first drops, only the first routine
   * is done (with 2); at the end the four futures hold 2, 4, 6 and 8.
   */
  method FourRoutines() returns (initialSize: nat, firstDone: seq<Cell>, allDone: seq<Cell>)
    ensures initialSize == 4
    ensures firstDone == [Value(IntV(2)), Empty, Empty, Empty]
    ensures allDone == [Value(IntV(2)), Value(IntV(4)), Value(IntV(6)), Value(IntV(8))]
  {
    var exec, w, starts, throws := SpawnFour();
    FourFull(starts, throws, 0);
    initialSize := exec.Size();
    forall k | 0 <= k <= 4
      ensures |Trace(starts, throws, k).kept| == 4 <==> k < 4
    {
      FourFull(starts, throws, k);
    }
    w := StepWhileSize(exec, w, starts, throws, 4, 0, 4);
    FourAtFirstDrop(starts, throws, 4);
    firstDone := Futures(w, 4);
    forall k | 4 <= k <= 10
      ensures |Trace(starts, throws, k).kept| == 0 <==> k == 10
    {
      FourEmpty(starts, throws, k);
    }
    w := StepWhileAny(exec, w, starts, throws, 4, 10);
    FourAtEnd(starts, throws, 10);
    allDone := Futures(w, 4);
  }

  /**
   * The executor's test with a throwing routine: after stepping until
   * `size` is 0, the well-behaved routine's future holds 10 and the
   * throwing one's holds its `runtime_error`.
   */
  method ThrowingSibling() returns (results: seq<Cell>)
    ensures results == [Value(IntV(10)), Error(RuntimeError("error"))]
  {
    var exec, w, starts, throws := SpawnPair();
    forall k | 0 <= k <= 12
      ensures |Trace(starts, throws, k).kept| == 0 <==> k == 12
    {
      PairEmpty(starts, throws, k);
    }
    w := StepWhileAny(exec, w, starts, throws, 0, 12);
    PairAtEnd(starts, throws, 12);
    results := Futures(w, 2);
  }

  /** A pass over a queue of one handle: destroyed and dropped if done, otherwise resumed and kept. */
  lemma SweepOne(w: World, t: nat)
    requires QueueOk(w, [t])
    ensures Sweep(w, [t]) == if w.frames[t].done then SweepResult([], Destroy(w, t)) else SweepResult([t], Resume(w, t).0)
  {
    assert [t][1..] == [];
  }

  /** A queue holding only handle 0 that keeps it for two passes and is empty after the third. */
  ghost predicate ThreePasses(w: World)
  {
    && QueueOk(w, [0])
    && var r1 := Sweep(w, [0]);
    && r1.kept == [0] && QueueOk(r1.world, r1.kept)
    && var r2 := Sweep(r1.world, r1.kept);
    && r2.kept == [0] && QueueOk(r2.world, r2.kept)
    && Sweep(r2.world, r2.kept).kept == []
  }

  /** The queue sizes of the double-await test, after each call of `step`. */
  lemma TwiceTrace(w: World)
    requires w == Launch(World([], []), ScheduleTwice(TwiceEntry)).0
    ensures ThreePasses(w)
  {
    LaunchAsksToBeScheduled(World([], []), ScheduleTwice(TwiceEntry));
    assert w.frames[0].prog == ScheduleTwice(TwiceAtFirst);
    SweepOne(w, 0);
    SweepQueueOk(w, [0]);
    var w1 := Resume(w, 0).0;
    ResumeSelfContained(w, 0);
    assert w1.frames[0].prog == ScheduleTwice(TwiceAtSecond) && !w1.frames[0].done;
    SweepOne(w1, 0);
    SweepQueueOk(w1, [0]);
    var w2 := Resume(w1, 0).0;
    ResumeSelfContained(w1, 0);
    assert w2.frames[0].done;
    SweepOne(w2, 0);
  }

  /**
   * The executor's double-await test: a routine that awaits its executor
   * twice is queued once; `size` reads 1 after the call and after the first
   * two calls of `step`, and 0 after the third, which destroys the
   * finished routine.
   */
  method ScheduleTwiceSizes() returns (sizes: seq<nat>)
    ensures sizes == [1, 1, 1, 0]
  {
    var exec := new Executor();
    var w := SpawnTwice(exec);
    var n;
    ghost var r1 := Sweep(w, [0]);
    ghost var r2 := Sweep(r1.world, r1.kept);
    sizes := [exec.Size()];
    w, n := StepThenSize(exec, w, r1);
    sizes := sizes + [n];
    w, n := StepThenSize(exec, w, r2);
    sizes := sizes + [n];
    w, n := StepThenSize(exec, w, Sweep(r2.world, r2.kept));
    sizes := sizes + [n];
  }

  /** Calling the double-await routine on an empty executor queues it as handle 0. */
  method SpawnTwice(exec: Executor) returns (w: World)
    requires exec.Valid() && exec.handles == []
    modifies exec
    ensures exec.Valid() && exec.handles == [0] && ThreePasses(w)
  {
    var t;
    LaunchAsksToBeScheduled(World([], []), ScheduleTwice(TwiceEntry));
    w, t := Spawn(exec, World([], []), ScheduleTwice(TwiceEntry));
    TwiceTrace(w);
  }

  /** One call of `step` followed by `size`, for a pass whose result `r` is known. */
  method StepThenSize(exec: Executor, w: World, ghost r: SweepResult) returns (w': World, n: nat)
    requires exec.Valid() && QueueOk(w, exec.handles) && r == Sweep(w, exec.handles)
    modifies exec
    ensures exec.Valid() && w' == r.world && exec.handles == r.kept && n == |r.kept|
  {
    w' := exec.Step(w);
    n := exec.Size();
  }
}

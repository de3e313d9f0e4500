/**
 * The map/flat-map chain that the library's composer tests drive by hand
 * (tst/thesoup/async/functions.cc): a composer over an integer future is
 * mapped with `std::to_string` and flat-mapped onto a second, boolean
 * future; the executor is stepped while the two outside promises are set
 * one after the other.
 */
module ComposerTraces {
  import opened Common
  import opened Promises
  import opened Coroutines
  import opened RoundRobin
  import opened Composers
  import Paging

  /** `std::to_string` on an `int`: an optional '-' and the digits of the magnitude. */
  function ToDecimalString(n: int): (s: string)
    ensures |s| >= 1
    ensures n < 0 <==> s[0] == '-'
    ensures n < 0 ==> |s| >= 2 && forall i :: 1 <= i < |s| ==> '0' <= s[i] <= '9'
    ensures n < 0 ==> Paging.DigitsValue(s[1..]) == -n
    ensures n >= 0 ==> (forall i :: 0 <= i < |s| ==> '0' <= s[i] <= '9') && Paging.DigitsValue(s) == n
  {
    if n < 0 then
      var m := Paging.Decimal(-n);
      assert ("-" + m)[1..] == m;
      "-" + m
    else Paging.Decimal(n)
  }

  /** The test's map function: an integer to its decimal string. */
  function ToDecimal(v: Val): Result<Val, Exception>
  {
    Success(if v.IntV? then StrV(ToDecimalString(v.i)) else v)
  }

  /** The test's flat-map function: whatever its argument, the future of the second outside promise. */
  function ToSecondPromise(v: Val): Result<FutureRef, Exception>
  {
    Success(External(1))
  }

  /** The map frame, waiting for the first outside promise. */
  function MapWaiting(r: nat): Frame
  {
    Frame(PromiseType(Scheduled, Empty), MapProg(External(0), ToDecimal, MapPolling), false, false, r, [], [])
  }

  /** The map frame after it applied the function to 123. */
  function MapFinished(r: nat, destroyed: bool): Frame
  {
    Frame(PromiseType(Complete, Value(StrV("123"))), MapProg(External(0), ToDecimal, MapPolling), true, destroyed, r, [IntV(123)], [])
  }

  /** The flat-map frame, waiting for the map frame's future. */
  function FlatMapWaitingInput(r: nat): Frame
  {
    Frame(PromiseType(Scheduled, Empty), FlatMapProg(TaskFuture(0), ToSecondPromise, FlatMapPollingInput), false, false, r, [], [])
  }

  /** The flat-map frame after it applied its function to "123", waiting for the returned future. */
  function FlatMapWaitingNext(r: nat): Frame
  {
    Frame(PromiseType(Scheduled, Empty), FlatMapProg(TaskFuture(0), ToSecondPromise, FlatMapPollingNext(External(1))),
          false, false, r, [StrV("123")], [])
  }

  lemma ToDecimal123()
    ensures ToDecimal(IntV(123)) == Success(StrV("123"))
  {
    assert Paging.Decimal(1) == "1";
    assert Paging.Decimal(12) == "12";
    assert ToDecimalString(123) == "123";
  }

  /** Composing `map` then `flatmap` leaves both frames waiting, the map task queued first. */
  lemma Composed(w0: World)
    requires w0 == World([], [Empty, Empty])
    ensures var w1 := Launch(w0, MapProg(External(0), ToDecimal, MapEntry)).0;
      Launch(w1, FlatMapProg(TaskFuture(0), ToSecondPromise, FlatMapEntry)).0
        == World([MapWaiting(0), FlatMapWaitingInput(0)], [Empty, Empty])
  {
  }

  /** While the first promise is unset a step only counts one resume of each frame: nothing is applied. */
  lemma IdleStep(r0: nat, r1: nat)
    ensures var w := World([MapWaiting(r0), FlatMapWaitingInput(r1)], [Empty, Empty]);
      QueueOk(w, [0, 1])
      && Sweep(w, [0, 1]) == SweepResult([0, 1], World([MapWaiting(r0 + 1), FlatMapWaitingInput(r1 + 1)], [Empty, Empty]))
  {
    var w := World([MapWaiting(r0), FlatMapWaitingInput(r1)], [Empty, Empty]);
    assert QueueOk(w, [0, 1]);
    var w1 := World([MapWaiting(r0 + 1), FlatMapWaitingInput(r1)], [Empty, Empty]);
    var w2 := World([MapWaiting(r0 + 1), FlatMapWaitingInput(r1 + 1)], [Empty, Empty]);
    TwoStep(w, w1, w2);
  }

  /** Two-frame worlds are equal when their frames and outside promises are. */
  lemma SameWorld(a: World, b: World)
    requires |a.frames| == 2 && |b.frames| == 2 && a.frames[0] == b.frames[0] && a.frames[1] == b.frames[1]
    requires a.external == b.external
    ensures a == b
  {
    assert a.frames == b.frames;
  }

  /** A pass over the queue [0, 1] of a world whose two frames are unfinished resumes frame 0, then frame 1. */
  lemma TwoStep(w: World, w1: World, w2: World)
    requires QueueOk(w, [0, 1]) && |w.frames| == 2 && !w.frames[0].done && !w.frames[1].done
    requires Resume(w, 0).0 == w1
    requires !w1.frames[1].done && Resume(w1, 1).0 == w2
    ensures Sweep(w, [0, 1]) == SweepResult([0, 1], w2)
  {
    assert [0, 1][1..] == [1] && [1][1..] == [];
    assert StepHead(w, [0, 1]) == w1;
    QueueOkTail(w, [0, 1]);
    assert StepHead(w1, [1]) == w2;
  }

  /**
   * The step after 123 is set: the map frame applies its function once and
   * completes with "123", and in the same pass the flat-map frame applies
   * its own function to "123" and starts waiting on the returned future.
   */
  lemma MapStep(r0: nat, r1: nat)
    ensures var w := World([MapWaiting(r0), FlatMapWaitingInput(r1)], [Value(IntV(123)), Empty]);
      QueueOk(w, [0, 1])
      && Sweep(w, [0, 1]) == SweepResult([0, 1], World([MapFinished(r0 + 1, false), FlatMapWaitingNext(r1 + 1)], [Value(IntV(123)), Empty]))
  {
    var w := World([MapWaiting(r0), FlatMapWaitingInput(r1)], [Value(IntV(123)), Empty]);
    assert QueueOk(w, [0, 1]);
    ToDecimal123();
    var w1 := World([MapFinished(r0 + 1, false), FlatMapWaitingInput(r1)], [Value(IntV(123)), Empty]);
    var w2 := World([MapFinished(r0 + 1, false), FlatMapWaitingNext(r1 + 1)], [Value(IntV(123)), Empty]);
    SameWorld(Resume(w, 0).0, w1);
    SameWorld(Resume(w1, 1).0, w2);
    TwoStep(w, w1, w2);
  }

  /** The next step destroys and drops the finished map frame; the flat-map frame still waits. */
  lemma DropStep(r0: nat, r1: nat)
    ensures var w := World([MapFinished(r0, false), FlatMapWaitingNext(r1)], [Value(IntV(123)), Empty]);
      QueueOk(w, [0, 1])
      && Sweep(w, [0, 1]) == SweepResult([1], World([MapFinished(r0, true), FlatMapWaitingNext(r1 + 1)], [Value(IntV(123)), Empty]))
  {
    var w := World([MapFinished(r0, false), FlatMapWaitingNext(r1)], [Value(IntV(123)), Empty]);
    assert QueueOk(w, [0, 1]);
    assert [0, 1][1..] == [1] && [1][1..] == [];
    var w1 := World([MapFinished(r0, true), FlatMapWaitingNext(r1)], [Value(IntV(123)), Empty]);
    assert StepHead(w, [0, 1]) == w1;
    QueueOkTail(w, [0, 1]);
    SameWorld(StepHead(w1, [1]), World([MapFinished(r0, true), FlatMapWaitingNext(r1 + 1)], [Value(IntV(123)), Empty]));
  }

  /** Once the second promise holds `false`, one step completes the flat-map frame with it. */
  lemma FinalStep(r0: nat, r1: nat)
    ensures var w := World([MapFinished(r0, true), FlatMapWaitingNext(r1)], [Value(IntV(123)), Value(BoolV(false))]);
      QueueOk(w, [1])
      && Sweep(w, [1]).kept == [1]
      && Read(Sweep(w, [1]).world, TaskFuture(1)) == Value(BoolV(false))
      && Sweep(w, [1]).world.frames[1].done
  {
    var w := World([MapFinished(r0, true), FlatMapWaitingNext(r1)], [Value(IntV(123)), Value(BoolV(false))]);
    assert QueueOk(w, [1]);
    assert [1][1..] == [];
    assert StepHead(w, [1]) == Resume(w, 1).0;
  }

  /** Composes `map(to_string)` and then `flatmap` onto the first outside promise's future and takes the chained future. */
  method ComposeChain() returns (exec: Executor, w: World, fut: FutureRef)
    ensures fresh(exec) && exec.Valid() && exec.handles == [0, 1]
    ensures w == World([MapWaiting(0), FlatMapWaitingInput(0)], [Empty, Empty]) && fut == TaskFuture(1)
  {
    exec := new Executor();
    w := World([], [Empty, Empty]);
    var c0 := new FutureComposer(exec, External(0));
    var c1, c2;
    c1, w := c0.Map(w, ToDecimal);
    c2, w := c1.FlatMap(w, ToSecondPromise);
    var r := c2.GetFuture();
    fut := if r.Success? then r.value else NoState;
    Composed(World([], [Empty, Empty]));
  }

  /** One step while the first promise is unset. */
  method IdleOnce(exec: Executor, w: World, r: nat) returns (w': World)
    requires exec.Valid() && exec.handles == [0, 1]
    requires w == World([MapWaiting(r), FlatMapWaitingInput(r)], [Empty, Empty])
    modifies exec
    ensures exec.Valid() && exec.handles == [0, 1]
    ensures w' == World([MapWaiting(r + 1), FlatMapWaitingInput(r + 1)], [Empty, Empty])
  {
    IdleStep(r, r);
    w' := exec.Step(w);
  }

  /** `n` steps while the first promise is unset. */
  method IdleSteps(exec: Executor, w: World, k: nat, n: nat) returns (w': World)
    requires exec.Valid() && exec.handles == [0, 1]
    requires w == World([MapWaiting(k), FlatMapWaitingInput(k)], [Empty, Empty])
    modifies exec
    ensures exec.Valid() && exec.handles == [0, 1]
    ensures w' == World([MapWaiting(k + n), FlatMapWaitingInput(k + n)], [Empty, Empty])
  {
    w' := w;
    var j := 0;
    while j < n
      invariant j <= n && exec.Valid() && exec.handles == [0, 1]
      invariant w' == World([MapWaiting(k + j), FlatMapWaitingInput(k + j)], [Empty, Empty])
    {
      w' := IdleOnce(exec, w', k + j);
      j := j + 1;
    }
  }

  /** 123 is set after four idle steps, then one step: the map frame completes and the flat-map frame applies its function. */
  method SetFirstAndStep(exec: Executor, w: World) returns (w': World)
    requires exec.Valid() && exec.handles == [0, 1]
    requires w == World([MapWaiting(4), FlatMapWaitingInput(4)], [Empty, Empty])
    modifies exec
    ensures exec.Valid() && exec.handles == [0, 1]
    ensures w' == World([MapFinished(5, false), FlatMapWaitingNext(5)], [Value(IntV(123)), Empty])
  {
    var w1 := SetExternal(w, 0, IntV(123));
    SameWorld(w1, World([MapWaiting(4), FlatMapWaitingInput(4)], [Value(IntV(123)), Empty]));
    MapStep(4, 4);
    w' := exec.Step(w1);
  }

  /** The step that destroys the finished map frame and drops it from the queue. */
  method DropMapFrame(exec: Executor, w: World) returns (w': World)
    requires exec.Valid() && exec.handles == [0, 1]
    requires w == World([MapFinished(5, false), FlatMapWaitingNext(5)], [Value(IntV(123)), Empty])
    modifies exec
    ensures exec.Valid() && exec.handles == [1]
    ensures w' == World([MapFinished(5, true), FlatMapWaitingNext(6)], [Value(IntV(123)), Empty])
  {
    DropStep(5, 5);
    w' := exec.Step(w);
  }

  /** `false` is set on the second promise, then one step completes the chained future with it. */
  method SetSecondAndStep(exec: Executor, w: World) returns (w': World)
    requires exec.Valid() && exec.handles == [1]
    requires w == World([MapFinished(5, true), FlatMapWaitingNext(6)], [Value(IntV(123)), Empty])
    modifies exec
    ensures Read(w', TaskFuture(1)) == Value(BoolV(false))
  {
    var w1 := SetExternal(w, 1, BoolV(false));
    SameWorld(w1, World([MapFinished(5, true), FlatMapWaitingNext(6)], [Value(IntV(123)), Value(BoolV(false))]));
    FinalStep(5, 6);
    w' := exec.Step(w1);
  }

  /**
   * The test's trace: the chained future is not ready at first nor after
   * four steps, in which the map function is never applied; one step after
   * 123 is set the map function has been applied once; the flat-map
   * function was applied once, to "123"; one step after the second promise
   * gets `false` the chained future holds `false`.
   */
  method MapFlatMapChain() returns (readyAtFirst: bool, readyAfterFour: bool, mapCallsAfterFour: nat,
                                     mapCallsAfterSet: nat, flatMapArgs: seq<Val>, final: Cell)
    ensures !readyAtFirst && !readyAfterFour && mapCallsAfterFour == 0 && mapCallsAfterSet == 1
    ensures flatMapArgs == [StrV("123")] && final == Value(BoolV(false))
  {
    var exec, w, fut := ComposeChain();
    readyAtFirst := IsReady(w, fut);

    w := IdleSteps(exec, w, 0, 4);
    readyAfterFour := IsReady(w, fut);
    mapCallsAfterFour := |w.frames[0].calls|;

    w := SetFirstAndStep(exec, w);
    mapCallsAfterSet := |w.frames[0].calls|;

    w := DropMapFrame(exec, w);
    flatMapArgs := w.frames[1].calls;

    w := SetSecondAndStep(exec, w);
    final := Read(w, fut);
  }
}

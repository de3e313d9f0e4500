/**
 * Coroutine frames as explicit state machines.
 *
 * A `SingleValueCoroTask` coroutine runs, each time it is resumed, from the
 * suspension point it stopped at to the next `co_await` (or to its end).  A
 * `Prog` is such a body together with its program counter and locals; the
 * bodies modelled are the helper coroutines of thesoup/async/futures.hpp
 * (`map_coroutine`, `flatmap_coroutine`, `join_coroutine`,
 * `collect_coroutine`; thesoup/async/functions.hpp holds the same bodies)
 * and the routines that the executor's tests drive.
 *
 * All frames and the promises held outside coroutines form a `World`.  A
 * `std::future` is a `FutureRef` naming the cell it reads.
 */
module Coroutines {
  import opened Common
  import opened Promises

  /** The shared state a `std::future` reads. */
  datatype FutureRef =
    | TaskFuture(task: nat)     // the future of a coroutine task
    | External(slot: nat)       // the future of a promise held outside any coroutine
    | Made(cell: Cell)          // a future made already satisfied (`make_ready_future`, `make_bad_future`)
    | NoState                   // a moved-from future, with no shared state: read as never ready

  /**
   * A user's `map` function, applied to a value: its result, or the
   * exception it throws (which leaves the coroutine body).
   */
  type MapFunction = Val -> Result<Val, Exception>

  /** A user's `flatmap` function: the future it returns, or the exception it throws. */
  type FlatMapFunction = Val -> Result<FutureRef, Exception>

  datatype CounterPc = CounterEntry | CounterAtExecutor | CounterAtUnit(i: int, acc: int)
  datatype TwicePc = TwiceEntry | TwiceAtFirst | TwiceAtSecond
  datatype MapPc = MapEntry | MapPolling
  datatype FlatMapPc = FlatMapEntry | FlatMapPollingInput | FlatMapPollingNext(next: FutureRef)
  datatype JoinPc = JoinEntry | JoinPollingLeft | JoinPollingRight
  datatype CollectPc = CollectEntry | CollectPolling(index: nat)

  /** A coroutine body with its program counter and locals. */
  datatype Prog =
      /** `my_routine(start)` (throwing = false) and `my_throwable_routine(throwing)` (start = 0) of the executor tests. */
    | Counter(start: int, throwing: bool, cpc: CounterPc)
      /** `my_routine_accidental_schedule_twice`: awaits its executor twice, then returns Unit. */
    | ScheduleTwice(tpc: TwicePc)
    | MapProg(input: FutureRef, f: MapFunction, mpc: MapPc)
    | FlatMapProg(input: FutureRef, g: FlatMapFunction, fpc: FlatMapPc)
    | JoinProg(left: FutureRef, right: FutureRef, jpc: JoinPc)
    | CollectProg(inputs: seq<FutureRef>, kpc: CollectPc)

  /** Where a run of the body stopped. */
  datatype Suspension =
    | AwaitUnit                 // `co_await Unit::unit`
    | AwaitExecutor             // `co_await executor`
    | Returned(v: Val)          // `co_return v`
    | Threw(e: Exception)       // an exception left the body

  /**
   * One run of a body: the new program counter, where it stopped, the
   * arguments the user's function was applied to, and the values written
   * through `collect_coroutine`'s output iterator.
   */
  datatype Segment = Segment(next: Prog, how: Suspension, calls: seq<Val>, written: seq<Val>)

  /** A coroutine frame; `resumes` counts the calls of `resume()` on its handle. */
  datatype Frame = Frame(
    promise: PromiseType,
    prog: Prog,
    done: bool,
    destroyed: bool,
    resumes: nat,
    calls: seq<Val>,
    written: seq<Val>)

  /** The frames (indexed by handle) and the promises held outside coroutines. */
  datatype World = World(frames: seq<Frame>, external: seq<Cell>)

  /** The shared state a future reads in world `w`; nothing is ever stored for a missing one. */
  function Read(w: World, r: FutureRef): Cell
  {
    match r
    case TaskFuture(t) => if t < |w.frames| then w.frames[t].promise.promise else Empty
    case External(k) => if k < |w.external| then w.external[k] else Empty
    case Made(c) => c
    case NoState => Empty
  }

  /** `is_ready`: the future holds a value or an exception. */
  predicate IsReady(w: World, r: FutureRef): (b: bool)
    ensures b <==> Read(w, r).Value? || Read(w, r).Error?
    ensures r.NoState? ==> !b
    ensures r.Made? ==> (b <==> !r.cell.Empty?)
  {
    !Read(w, r).Empty?
  }

  /** `make_ready_future(v)`. */
  function MakeReadyFuture(v: Val): (r: FutureRef)
    ensures forall w :: IsReady(w, r) && Read(w, r) == Value(v)
  {
    Made(Value(v))
  }

  /** `make_bad_future(e)`. */
  function MakeBadFuture(e: Exception): (r: FutureRef)
    ensures forall w :: IsReady(w, r) && Read(w, r) == Error(e)
  {
    Made(Error(e))
  }

  /** `future.get()` on a ready future: the value, or the stored exception rethrown. */
  function Get(c: Cell): (r: Suspension)
    requires !c.Empty?
    ensures r.Returned? || r.Threw?
    ensures r.Returned? <==> c.Value?
    ensures c.Value? ==> r.v == c.v
    ensures c.Error? ==> r.e == c.e
  {
    if c.Value? then Returned(c.v) else Threw(c.e)
  }

  /**
   * `q` is the body `p` at some program counter: the same coroutine, called
   * with the same arguments.
   */
  ghost predicate SameBody(p: Prog, q: Prog)
  {
    match p
    case Counter(start, throwing, _) => q.Counter? && q.start == start && q.throwing == throwing
    case ScheduleTwice(_) => q.ScheduleTwice?
    case MapProg(input, f, _) => q.MapProg? && q.input == input && q.f == f
    case FlatMapProg(input, g, _) => q.FlatMapProg? && q.input == input && q.g == g
    case JoinProg(left, right, _) => q.JoinProg? && q.left == left && q.right == right
    case CollectProg(inputs, _) => q.CollectProg? && q.inputs == inputs
  }

  /**
   * The loop of `my_routine` from index `i` with accumulator `acc`: below 10
   * it counts once more and awaits `Unit`; from 10 on it returns the count.
   */
  function CounterLoop(p: Prog, i: int, acc: int): (r: Segment)
    requires p.Counter?
    ensures SameBody(p, r.next) && r.calls == [] && r.written == []
    ensures r.how.AwaitUnit? <==> i < 10
    ensures i < 10 ==> r.next.cpc == CounterAtUnit(i, acc + 1)
    ensures i >= 10 ==> r.how == Returned(IntV(acc))
  {
    if i < 10 then Segment(p.(cpc := CounterAtUnit(i, acc + 1)), AwaitUnit, [], [])
    else Segment(p, Returned(IntV(acc)), [], [])
  }

  /** `collect_coroutine`'s loop from input `k`: copies every ready input in order, suspends on the first one that is not. */
  function CollectFrom(w: World, p: Prog, k: nat, written: seq<Val>): (r: Segment)
    requires p.CollectProg? && k <= |p.inputs|
    ensures SameBody(p, r.next) && r.calls == []
    ensures r.how.Returned? || r.how.Threw? || r.how.AwaitUnit?
    ensures written <= r.written && k + |r.written| - |written| <= |p.inputs|
    ensures forall j :: |written| <= j < |r.written| ==> Read(w, p.inputs[k + j - |written|]) == Value(r.written[j])
    ensures r.how.Returned? ==> r.how.v == UnitV && k + |r.written| - |written| == |p.inputs|
    ensures r.how.AwaitUnit? ==>
      (k + |r.written| - |written| < |p.inputs|
       && Read(w, p.inputs[k + |r.written| - |written|]).Empty?
       && r.next.kpc == CollectPolling(k + |r.written| - |written|))
    ensures r.how.Threw? ==>
      (k + |r.written| - |written| < |p.inputs|
       && Read(w, p.inputs[k + |r.written| - |written|]) == Error(r.how.e))
    decreases |p.inputs| - k
  {
    if k == |p.inputs| then Segment(p, Returned(UnitV), [], written)
    else
      var c := Read(w, p.inputs[k]);
      match c
      case Empty => Segment(p.(kpc := CollectPolling(k)), AwaitUnit, [], written)
      case Error(e) => Segment(p, Threw(e), [], written)
      case Value(v) => CollectFrom(w, p, k + 1, written + [v])
  }

  /** `flatmap_coroutine`'s second loop: waits for the future the function returned. */
  function FlatMapWaitNext(w: World, p: Prog, next: FutureRef, calls: seq<Val>): (r: Segment)
    requires p.FlatMapProg?
    ensures SameBody(p, r.next) && r.calls == calls && r.written == []
    ensures r.how.AwaitUnit? <==> !IsReady(w, next)
    ensures r.how.AwaitUnit? ==> r.next.fpc == FlatMapPollingNext(next)
    ensures Read(w, next).Value? ==> r.how == Returned(Read(w, next).v)
    ensures Read(w, next).Error? ==> r.how == Threw(Read(w, next).e)
  {
    var c := Read(w, next);
    if c.Empty? then Segment(p.(fpc := FlatMapPollingNext(next)), AwaitUnit, calls, [])
    else Segment(p, Get(c), calls, [])
  }

  /** `join_coroutine` once the left input is ready: waits for the right one, then reads left before right. */
  function JoinWaitRight(w: World, p: Prog): (r: Segment)
    requires p.JoinProg? && IsReady(w, p.left)
    ensures SameBody(p, r.next) && r.calls == [] && r.written == []
    ensures r.how.AwaitUnit? <==> !IsReady(w, p.right)
    ensures r.how.AwaitUnit? ==> r.next.jpc == JoinPollingRight
    ensures r.how.Returned? <==> Read(w, p.left).Value? && Read(w, p.right).Value?
    ensures r.how.Returned? ==> r.how.v == PairV(Read(w, p.left).v, Read(w, p.right).v)
    ensures r.how.Threw? && Read(w, p.left).Error? ==> r.how.e == Read(w, p.left).e
    ensures r.how.Threw? && Read(w, p.left).Value? ==> Read(w, p.right) == Error(r.how.e)
  {
    var l := Read(w, p.left);
    var r := Read(w, p.right);
    if r.Empty? then Segment(p.(jpc := JoinPollingRight), AwaitUnit, [], [])
    else if l.Error? then Segment(p, Threw(l.e), [], [])
    else if r.Error? then Segment(p, Threw(r.e), [], [])
    else Segment(p, Returned(PairV(l.v, r.v)), [], [])
  }

  /**
   * Runs body `p` from its program counter to its next suspension point or
   * its end. The body stays the same coroutine with the same arguments; a
   * helper awaits its executor only at its entry; the user's function is
   * applied at most once per run, only by `map` and `flatmap`, and only to
   * the value of their input; only `collect` writes values out.
   */
  function Run(w: World, p: Prog): (r: Segment)
    ensures SameBody(p, r.next)
    ensures r.how.AwaitExecutor? ==> p.ScheduleTwice? || AtEntry(p)
    ensures |r.calls| <= 1
    ensures r.calls != [] ==> (p.MapProg? || p.FlatMapProg?) && Read(w, p.input) == Value(r.calls[0])
    ensures !p.CollectProg? ==> r.written == []
  {
    match p
    case Counter(start, throwing, pc) =>
      (match pc
       case CounterEntry => Segment(p.(cpc := CounterAtExecutor), AwaitExecutor, [], [])
       case CounterAtExecutor =>
         if throwing then Segment(p, Threw(RuntimeError("error")), [], [])
         else CounterLoop(p, start, 0)
       case CounterAtUnit(i, acc) => CounterLoop(p, i + 1, acc))
    case ScheduleTwice(pc) =>
      (match pc
       case TwiceEntry => Segment(ScheduleTwice(TwiceAtFirst), AwaitExecutor, [], [])
       case TwiceAtFirst => Segment(ScheduleTwice(TwiceAtSecond), AwaitExecutor, [], [])
       case TwiceAtSecond => Segment(p, Returned(UnitV), [], []))
    case MapProg(input, f, pc) =>
      (match pc
       case MapEntry => Segment(p.(mpc := MapPolling), AwaitExecutor, [], [])
       case MapPolling =>
         var c := Read(w, input);
         if c.Empty? then Segment(p, AwaitUnit, [], [])
         else if c.Error? then Segment(p, Threw(c.e), [], [])
         else
           (match f(c.v)
            case Success(u) => Segment(p, Returned(u), [c.v], [])
            case Failure(e) => Segment(p, Threw(e), [c.v], [])))
    case FlatMapProg(input, g, pc) =>
      (match pc
       case FlatMapEntry => Segment(p.(fpc := FlatMapPollingInput), AwaitExecutor, [], [])
       case FlatMapPollingInput =>
         var c := Read(w, input);
         if c.Empty? then Segment(p, AwaitUnit, [], [])
         else if c.Error? then Segment(p, Threw(c.e), [], [])
         else
           (match g(c.v)
            case Success(next) => FlatMapWaitNext(w, p, next, [c.v])
            case Failure(e) => Segment(p, Threw(e), [c.v], []))
       case FlatMapPollingNext(next) => FlatMapWaitNext(w, p, next, []))
    case JoinProg(left, right, pc) =>
      (match pc
       case JoinEntry => Segment(p.(jpc := JoinPollingLeft), AwaitExecutor, [], [])
       case JoinPollingLeft =>
         if !IsReady(w, left) then Segment(p, AwaitUnit, [], [])
         else JoinWaitRight(w, p)
       case JoinPollingRight =>
         if !IsReady(w, left) then Segment(p, AwaitUnit, [], [])
         else JoinWaitRight(w, p))
    case CollectProg(inputs, pc) =>
      (match pc
       case CollectEntry => Segment(p.(kpc := CollectPolling(0)), AwaitExecutor, [], [])
       case CollectPolling(k) =>
         if k <= |inputs| then CollectFrom(w, p, k, [])
         else Segment(p, Returned(UnitV), [], []))
  }

  /**
   * What the frame's `promise_type` does at the point where the body stopped:
   * `await_transform` for the two awaits, `return_value` or
   * `unhandled_exception` followed by `final_suspend` at the end.  The
   * boolean is true when the frame asks its executor to schedule it.
   */
  function Settle(f: Frame, s: Suspension): (r: (Frame, bool))
    requires !f.done && f.promise.promise.Empty?
    ensures r.0.prog == f.prog && r.0.resumes == f.resumes && !r.0.destroyed == !f.destroyed
    ensures r.0.done <==> (s.Returned? || s.Threw?)
    ensures r.0.done || r.0.promise.promise.Empty?
    ensures s.Returned? ==> r.0.promise.promise == Value(s.v) && r.0.promise.status == Complete
    ensures s.Threw? ==> r.0.promise.promise == Error(s.e) && r.0.promise.status == f.promise.status
    ensures r.1 <==> s.AwaitExecutor? && f.promise.status == Pending
    ensures f.promise.status != Pending ==> r.0.promise.status != Pending
  {
    match s
    case AwaitUnit => (f, false)
    case AwaitExecutor =>
      var (p, asked) := f.promise.AwaitExecutor();
      (f.(promise := p), asked)
    case Returned(v) => (f.(promise := f.promise.ReturnValue(v), done := true), false)
    case Threw(e) => (f.(promise := f.promise.UnhandledException(e), done := true), false)
  }

  /** The invariant every reachable world keeps: a frame is done exactly when its future is satisfied. */
  ghost predicate WellFormed(w: World)
  {
    forall t :: 0 <= t < |w.frames| ==>
      (w.frames[t].done <==> !w.frames[t].promise.promise.Empty?) &&
      (w.frames[t].destroyed ==> w.frames[t].done)
  }

  /** Runs frame `t` to its next suspension point and lets its promise react. */
  function Advance(w: World, t: nat): (r: (World, bool))
    requires t < |w.frames| && !w.frames[t].done && w.frames[t].promise.promise.Empty?
    ensures |r.0.frames| == |w.frames| && r.0.external == w.external
    ensures w.frames[t].calls <= r.0.frames[t].calls && |r.0.frames[t].calls| <= |w.frames[t].calls| + 1
    ensures w.frames[t].written <= r.0.frames[t].written
  {
    var f := w.frames[t];
    var seg := Run(w, f.prog);
    var (f', asked) := Settle(f.(prog := seg.next, calls := f.calls + seg.calls, written := f.written + seg.written), seg.how);
    (w.(frames := w.frames[t := f']), asked)
  }

  /**
   * `handle.resume()` on a frame that is not done.  Only that frame changes,
   * and a frame that has already been scheduled never asks again.
   */
  function Resume(w: World, t: nat): (r: (World, bool))
    requires WellFormed(w) && t < |w.frames| && !w.frames[t].done
    ensures WellFormed(r.0)
    ensures |r.0.frames| == |w.frames| && r.0.external == w.external
    ensures forall u :: 0 <= u < |w.frames| && u != t ==> r.0.frames[u] == w.frames[u]
    ensures r.0.frames[t].resumes == w.frames[t].resumes + 1
    ensures r.0.frames[t].destroyed == w.frames[t].destroyed
    ensures w.frames[t].promise.status != Pending ==> !r.1 && r.0.frames[t].promise.status != Pending
  {
    var w1 := w.(frames := w.frames[t := w.frames[t].(resumes := w.frames[t].resumes + 1)]);
    Advance(w1, t)
  }

  /** A resume leaves the frame the same coroutine, called with the same arguments. */
  lemma ResumeKeepsBody(w: World, t: nat)
    requires WellFormed(w) && t < |w.frames| && !w.frames[t].done
    ensures SameBody(w.frames[t].prog, Resume(w, t).0.frames[t].prog)
  {
  }

  /** `handle.destroy()` on a finished frame. */
  function Destroy(w: World, t: nat): (r: World)
    requires WellFormed(w) && t < |w.frames| && w.frames[t].done
    ensures WellFormed(r)
    ensures |r.frames| == |w.frames| && r.external == w.external && r.frames[t].destroyed
    ensures r.frames[t].promise == w.frames[t].promise && r.frames[t].resumes == w.frames[t].resumes
    ensures forall u :: 0 <= u < |w.frames| && u != t ==> r.frames[u] == w.frames[u]
  {
    w.(frames := w.frames[t := w.frames[t].(destroyed := true)])
  }

  /**
   * Calling a coroutine: a new frame is made PENDING with an unsatisfied
   * promise and, since `initial_suspend` never suspends, runs at once to its
   * first suspension point.  Returns the new world, the handle, and whether
   * the frame asked to be scheduled.
   */
  function Launch(w: World, p: Prog): (r: (World, nat, bool))
    requires WellFormed(w)
    ensures WellFormed(r.0)
    ensures r.1 == |w.frames| && |r.0.frames| == |w.frames| + 1 && r.0.frames[..|w.frames|] == w.frames
    ensures r.0.external == w.external
    ensures !r.0.frames[r.1].destroyed && r.0.frames[r.1].resumes == 0
    ensures r.2 ==> r.0.frames[r.1].promise.status == Scheduled
  {
    var w1 := w.(frames := w.frames + [Frame(PromiseType(Pending, Empty), p, false, false, 0, [], [])]);
    var (w2, asked) := Advance(w1, |w.frames|);
    assert w2.frames[..|w.frames|] == w.frames;
    (w2, |w.frames|, asked)
  }

  /** The body has not started yet: its program counter is at the function's entry. */
  predicate AtEntry(p: Prog)
  {
    match p
    case Counter(_, _, pc) => pc.CounterEntry?
    case ScheduleTwice(pc) => pc.TwiceEntry?
    case MapProg(_, _, pc) => pc.MapEntry?
    case FlatMapProg(_, _, pc) => pc.FlatMapEntry?
    case JoinProg(_, _, pc) => pc.JoinEntry?
    case CollectProg(_, pc) => pc.CollectEntry?
  }

  /**
   * Every modelled body starts with `co_await executor`: calling it leaves a
   * frame that is not done, has asked to be scheduled, and now waits at that
   * await with nothing applied and nothing written.
   */
  lemma LaunchAsksToBeScheduled(w: World, p: Prog)
    requires WellFormed(w) && AtEntry(p)
    ensures var (w', t, asked) := Launch(w, p);
      && asked
      && !w'.frames[t].done
      && w'.frames[t].promise == PromiseType(Scheduled, Empty)
      && w'.frames[t].calls == [] && w'.frames[t].written == []
      && !AtEntry(w'.frames[t].prog)
  {
  }

  /** Bodies that read no future: their runs do not depend on the rest of the world. */
  predicate SelfContained(p: Prog)
  {
    p.Counter? || p.ScheduleTwice?
  }

  /** `resume()` on a frame whose body reads no future, computed from the frame alone. */
  function ResumeAlone(f: Frame): Frame
    requires SelfContained(f.prog) && !f.done && f.promise.promise.Empty?
  {
    Advance(World([f.(resumes := f.resumes + 1)], []), 0).0.frames[0]
  }

  lemma ResumeSelfContained(w: World, t: nat)
    requires WellFormed(w) && t < |w.frames| && !w.frames[t].done && SelfContained(w.frames[t].prog)
    ensures Resume(w, t).0.frames[t] == ResumeAlone(w.frames[t])
  {
  }

  /** Sets the value of the promise held outside the coroutines in slot `k` (`promise.set_value`). */
  function SetExternal(w: World, k: nat, v: Val): (r: World)
    requires k < |w.external| && w.external[k].Empty?
    ensures r.frames == w.frames && |r.external| == |w.external|
    ensures Read(r, External(k)) == Value(v)
    ensures forall j :: 0 <= j < |w.external| && j != k ==> r.external[j] == w.external[j]
  {
    w.(external := w.external[k := Value(v)])
  }
}

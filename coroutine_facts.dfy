/**
 * What the helper coroutines of thesoup/async/futures.hpp (and their twins
 * in thesoup/async/functions.hpp) promise, as an invariant of every frame
 * that every operation on the world keeps:
 *
 *  - `map_coroutine` applies its function at most once, only to the value
 *    of its input, and completes with exactly the function's result or the
 *    exception it threw; an exception in the input is passed on without
 *    applying the function;
 *  - `flatmap_coroutine` applies its function at most once, to the value
 *    of its input, waits on the future it returned and completes with that
 *    future's contents, or with the exception the function threw;
 *  - `join_coroutine` waits for its left input, then its right one, and
 *    completes with the pair of their values;
 *  - `collect_coroutine` writes the values of its inputs through the output
 *    iterator in input order, each exactly once, and completes with Unit
 *    once all are written.
 *
 * The facts are stated against the futures the frame read; futures are
 * write-once (`Settled`), so they stay true as the world moves on.
 *
 * Each helper also finishes: once the futures it waits on are ready, the
 * next `resume()` (and so the next `step` of an executor that queues it)
 * completes its task with the value or exception the promises above name.
 */
module CoroutineFacts {
  import opened Common
  import opened Promises
  import opened Coroutines
  import opened RoundRobin

  /** Every future that is satisfied in `w` reads the same in `w'`. */
  ghost predicate Settled(w: World, w': World)
  {
    forall r :: !Read(w, r).Empty? ==> Read(w', r) == Read(w, r)
  }

  lemma SettledByCells(w: World, w': World)
    requires |w.frames| <= |w'.frames| && |w.external| <= |w'.external|
    requires forall t :: 0 <= t < |w.frames| && !w.frames[t].promise.promise.Empty? ==>
      w'.frames[t].promise.promise == w.frames[t].promise.promise
    requires forall k :: 0 <= k < |w.external| && !w.external[k].Empty? ==> w'.external[k] == w.external[k]
    ensures Settled(w, w')
  {
    forall r | !Read(w, r).Empty?
      ensures Read(w', r) == Read(w, r)
    {
      match r
      case TaskFuture(t) =>
      case External(k) =>
      case Made(c) =>
      case NoState =>
    }
  }

  lemma SettledTrans(w1: World, w2: World, w3: World)
    requires Settled(w1, w2) && Settled(w2, w3)
    ensures Settled(w1, w3)
  {
  }

  /** `resume()` satisfies at most the resumed frame's own future, which was unsatisfied. */
  lemma ResumeSettles(w: World, t: nat)
    requires WellFormed(w) && t < |w.frames| && !w.frames[t].done
    ensures Settled(w, Resume(w, t).0)
  {
    SettledByCells(w, Resume(w, t).0);
  }

  lemma DestroySettles(w: World, t: nat)
    requires WellFormed(w) && t < |w.frames| && w.frames[t].done
    ensures Settled(w, Destroy(w, t))
  {
    SettledByCells(w, Destroy(w, t));
  }

  lemma LaunchSettles(w: World, p: Prog)
    requires WellFormed(w)
    ensures Settled(w, Launch(w, p).0)
  {
    var w' := Launch(w, p).0;
    forall t | 0 <= t < |w.frames|
      ensures w'.frames[t] == w.frames[t]
    {
      assert w'.frames[..|w.frames|][t] == w'.frames[t];
    }
    SettledByCells(w, w');
  }

  lemma SetExternalSettles(w: World, k: nat, v: Val)
    requires k < |w.external| && w.external[k].Empty?
    ensures Settled(w, SetExternal(w, k, v))
  {
    SettledByCells(w, SetExternal(w, k, v));
  }


  /** The world `resume()` hands to the body: only the resume count of frame `t` differs. */
  function Bumped(w: World, t: nat): World
    requires t < |w.frames|
  {
    w.(frames := w.frames[t := w.frames[t].(resumes := w.frames[t].resumes + 1)])
  }

  /** Counting a resume changes no future, in either direction. */
  lemma BumpedSettled(w: World, t: nat)
    requires t < |w.frames|
    ensures Settled(Bumped(w, t), w) && Settled(w, Bumped(w, t))
  {
    forall r ensures Read(Bumped(w, t), r) == Read(w, r) {
    }
  }

  /** The cell a task's future ends with when its body ends with the user function's outcome. */
  function Outcome(r: Result<Val, Exception>): Cell
  {
    match r
    case Success(u) => Value(u)
    case Failure(e) => Error(e)
  }

  /** The cell a `flatmap_coroutine` task ends with after its function's outcome: the returned future's contents, or the exception thrown. */
  function FlatMapOutcome(w: World, r: Result<FutureRef, Exception>): Cell
  {
    match r
    case Success(next) => Read(w, next)
    case Failure(e) => Error(e)
  }

  // ---------------------------------------------------------------- map

  /**
   * A `map_coroutine` frame: no call before it completes; completing with a
   * value means exactly one call, on the input's value, which returned
   * that value; completing with an exception means either the input held
   * it and the function was never called, or the one call, on the input's
   * value, threw it.
   */
  ghost predicate MapOk(w: World, f: Frame)
    requires f.prog.MapProg?
  {
    && (!f.done ==> f.calls == [])
    && (f.promise.promise.Value? ==>
          |f.calls| == 1 && Read(w, f.prog.input) == Value(f.calls[0])
          && f.prog.f(f.calls[0]) == Success(f.promise.promise.v))
    && (f.promise.promise.Error? ==>
          || (f.calls == [] && Read(w, f.prog.input) == Error(f.promise.promise.e))
          || (|f.calls| == 1 && Read(w, f.prog.input) == Value(f.calls[0])
              && f.prog.f(f.calls[0]) == Failure(f.promise.promise.e)))
  }

  lemma MapOkStable(w: World, w': World, f: Frame)
    requires f.prog.MapProg? && MapOk(w, f) && Settled(w, w')
    ensures MapOk(w', f)
  {
    if f.promise.promise.Value? || f.promise.promise.Error? {
      assert !Read(w, f.prog.input).Empty?;
    }
  }

  /** One `resume()` of a `map_coroutine` frame keeps `MapOk`. */
  lemma MapResume(w: World, t: nat)
    requires WellFormed(w) && t < |w.frames| && !w.frames[t].done
    requires w.frames[t].prog.MapProg? && MapOk(w, w.frames[t])
    ensures Resume(w, t).0.frames[t].prog.MapProg? && MapOk(w, Resume(w, t).0.frames[t])
  {
    var w1 := Bumped(w, t);
    BumpedSettled(w, t);
    assert MapOk(w1, Resume(w, t).0.frames[t]);
    MapOkStable(w1, w, Resume(w, t).0.frames[t]);
  }

  // ------------------------------------------------------------ flatmap

  /**
   * A `flatmap_coroutine` frame: the function is applied at most once, to
   * the input's value; while the frame waits on the returned future that
   * future is the function's result; completing means the input's
   * exception, or the exception the function threw, or else the returned
   * future's contents.
   */
  ghost predicate FlatMapOk(w: World, f: Frame)
    requires f.prog.FlatMapProg?
  {
    && |f.calls| <= 1
    && (|f.calls| == 1 ==> Read(w, f.prog.input) == Value(f.calls[0]))
    && (!f.done && f.prog.fpc.FlatMapPollingNext? ==> |f.calls| == 1 && f.prog.g(f.calls[0]) == Success(f.prog.fpc.next))
    && (!f.done && !f.prog.fpc.FlatMapPollingNext? ==> f.calls == [])
    && (f.promise.promise.Value? ==>
          |f.calls| == 1 && f.prog.g(f.calls[0]).Success? && Read(w, f.prog.g(f.calls[0]).value) == f.promise.promise)
    && (f.promise.promise.Error? ==>
          if f.calls == [] then Read(w, f.prog.input) == f.promise.promise
          else FlatMapOutcome(w, f.prog.g(f.calls[0])) == f.promise.promise)
  }

  lemma FlatMapOkStable(w: World, w': World, f: Frame)
    requires f.prog.FlatMapProg? && FlatMapOk(w, f) && Settled(w, w')
    ensures FlatMapOk(w', f)
  {
    if |f.calls| == 1 {
      assert !Read(w, f.prog.input).Empty?;
    }
    if f.promise.promise.Value? || f.promise.promise.Error? {
      if f.calls == [] {
        assert !Read(w, f.prog.input).Empty?;
      } else if f.prog.g(f.calls[0]).Success? {
        assert !Read(w, f.prog.g(f.calls[0]).value).Empty?;
      }
    }
  }

  lemma FlatMapResume(w: World, t: nat)
    requires WellFormed(w) && t < |w.frames| && !w.frames[t].done
    requires w.frames[t].prog.FlatMapProg? && FlatMapOk(w, w.frames[t])
    ensures Resume(w, t).0.frames[t].prog.FlatMapProg? && FlatMapOk(w, Resume(w, t).0.frames[t])
  {
    var w1 := Bumped(w, t);
    BumpedSettled(w, t);
    assert FlatMapOk(w1, Resume(w, t).0.frames[t]);
    FlatMapOkStable(w1, w, Resume(w, t).0.frames[t]);
  }

  // --------------------------------------------------------------- join

  /**
   * A `join_coroutine` frame: it waits on the right input only once the
   * left one is ready; completing with a value means both inputs held
   * values and the result is their pair; completing with an exception
   * means both were ready and the left one's exception, or else the right
   * one's, was rethrown.
   */
  ghost predicate JoinOk(w: World, f: Frame)
    requires f.prog.JoinProg?
  {
    var l := Read(w, f.prog.left);
    var r := Read(w, f.prog.right);
    && f.calls == []
    && (!f.done && f.prog.jpc.JoinPollingRight? ==> !l.Empty?)
    && (f.promise.promise.Value? ==> l.Value? && r.Value? && f.promise.promise.v == PairV(l.v, r.v))
    && (f.promise.promise.Error? ==>
          !r.Empty? && (l == f.promise.promise || (l.Value? && r == f.promise.promise)))
  }

  lemma JoinOkStable(w: World, w': World, f: Frame)
    requires f.prog.JoinProg? && JoinOk(w, f) && Settled(w, w')
    ensures JoinOk(w', f)
  {
    var l := Read(w, f.prog.left);
    var r := Read(w, f.prog.right);
    if !l.Empty? {
      assert Read(w', f.prog.left) == l;
    }
    if !r.Empty? {
      assert Read(w', f.prog.right) == r;
    }
  }

  lemma JoinResume(w: World, t: nat)
    requires WellFormed(w) && t < |w.frames| && !w.frames[t].done
    requires w.frames[t].prog.JoinProg? && JoinOk(w, w.frames[t])
    ensures Resume(w, t).0.frames[t].prog.JoinProg? && JoinOk(w, Resume(w, t).0.frames[t])
  {
    var w1 := Bumped(w, t);
    BumpedSettled(w, t);
    assert JoinOk(w1, Resume(w, t).0.frames[t]);
    JoinOkStable(w1, w, Resume(w, t).0.frames[t]);
  }

  // ------------------------------------------------------------ collect

  /** Every future of `rs` holds a value. */
  ghost predicate AllValues(w: World, rs: seq<FutureRef>)
  {
    forall i :: 0 <= i < |rs| ==> Read(w, rs[i]).Value?
  }

  /** The values held by the futures `rs`, in order. */
  function Values(w: World, rs: seq<FutureRef>): (vs: seq<Val>)
    requires AllValues(w, rs)
    ensures |vs| == |rs| && forall i :: 0 <= i < |rs| ==> Value(vs[i]) == Read(w, rs[i])
  {
    seq(|rs|, i requires 0 <= i < |rs| => Read(w, rs[i]).v)
  }

  /** The first `j` inputs hold values, and `written` is those values in input order. */
  ghost predicate CopiedUpTo(w: World, inputs: seq<FutureRef>, j: nat, written: seq<Val>)
  {
    j <= |inputs| && AllValues(w, inputs[..j]) && written == Values(w, inputs[..j])
  }

  lemma CopiedStable(w: World, w': World, inputs: seq<FutureRef>, j: nat, written: seq<Val>)
    requires CopiedUpTo(w, inputs, j, written) && Settled(w, w')
    ensures CopiedUpTo(w', inputs, j, written)
  {
    forall i | 0 <= i < j
      ensures Read(w', inputs[..j][i]) == Read(w, inputs[..j][i])
    {
      assert !Read(w, inputs[..j][i]).Empty?;
    }
  }

  lemma CopiedOneMore(w: World, inputs: seq<FutureRef>, j: nat, written: seq<Val>, v: Val)
    requires CopiedUpTo(w, inputs, j, written) && j < |inputs| && Read(w, inputs[j]) == Value(v)
    ensures CopiedUpTo(w, inputs, j + 1, written + [v])
  {
    var pre := inputs[..j + 1];
    assert pre == inputs[..j] + [inputs[j]];
    assert AllValues(w, pre);
    assert Values(w, pre) == written + [v];
  }

  /**
   * `collect_coroutine`'s loop from input `k`, the frame having written
   * `base` before this run and `acc` during it: it copies every further
   * ready input in order and stops at the first that is not ready
   * (suspending there), holds an exception (rethrowing it), or at the end
   * (returning Unit).  It never applies a function.
   */
  lemma {:induction false} CollectFromSpec(w: World, p: Prog, k: nat, base: seq<Val>, acc: seq<Val>)
    requires p.CollectProg? && k <= |p.inputs| && CopiedUpTo(w, p.inputs, k, base + acc)
    ensures var s := CollectFrom(w, p, k, acc);
      var n := |base + s.written|;
      && s.calls == [] && s.next.CollectProg? && s.next.inputs == p.inputs
      && CopiedUpTo(w, p.inputs, n, base + s.written)
      && match s.how
         case Returned(v) => v == UnitV && n == |p.inputs|
         case AwaitUnit => n < |p.inputs| && Read(w, p.inputs[n]).Empty? && s.next.kpc == CollectPolling(n)
         case Threw(e) => n < |p.inputs| && Read(w, p.inputs[n]) == Error(e)
         case AwaitExecutor => false
    decreases |p.inputs| - k
  {
    if k < |p.inputs| {
      var c := Read(w, p.inputs[k]);
      if c.Value? {
        CopiedOneMore(w, p.inputs, k, base + acc, c.v);
        assert base + (acc + [c.v]) == (base + acc) + [c.v];
        assert CollectFrom(w, p, k, acc) == CollectFrom(w, p, k + 1, acc + [c.v]);
        CollectFromSpec(w, p, k + 1, base, acc + [c.v]);
      }
    }
  }

  /**
   * A `collect_coroutine` frame: while it waits at input `k` it has written
   * exactly the values of the first `k` inputs; completing with Unit means
   * it wrote the values of all inputs, in order; completing with an
   * exception means the first input that did not hold a value held that
   * exception, and the ones before it were written.
   */
  ghost predicate CollectOk(w: World, f: Frame)
    requires f.prog.CollectProg?
  {
    var inputs := f.prog.inputs;
    && f.calls == []
    && (!f.done && f.prog.kpc.CollectEntry? ==> f.written == [])
    && (!f.done && f.prog.kpc.CollectPolling? ==>
          f.prog.kpc.index == |f.written| && CopiedUpTo(w, inputs, |f.written|, f.written))
    && (f.promise.promise.Value? ==> f.promise.promise.v == UnitV && CopiedUpTo(w, inputs, |inputs|, f.written))
    && (f.promise.promise.Error? ==>
          |f.written| < |inputs| && CopiedUpTo(w, inputs, |f.written|, f.written)
          && Read(w, inputs[|f.written|]) == f.promise.promise)
  }

  lemma CollectOkStable(w: World, w': World, f: Frame)
    requires f.prog.CollectProg? && CollectOk(w, f) && Settled(w, w')
    ensures CollectOk(w', f)
  {
    var inputs := f.prog.inputs;
    if !f.done && f.prog.kpc.CollectPolling? {
      CopiedStable(w, w', inputs, |f.written|, f.written);
    }
    if f.promise.promise.Value? {
      CopiedStable(w, w', inputs, |inputs|, f.written);
    }
    if f.promise.promise.Error? {
      CopiedStable(w, w', inputs, |f.written|, f.written);
      assert !Read(w, inputs[|f.written|]).Empty?;
    }
  }

  lemma CollectResume(w: World, t: nat)
    requires WellFormed(w) && t < |w.frames| && !w.frames[t].done
    requires w.frames[t].prog.CollectProg? && CollectOk(w, w.frames[t])
    ensures Resume(w, t).0.frames[t].prog.CollectProg? && CollectOk(w, Resume(w, t).0.frames[t])
  {
    var f := w.frames[t];
    var w1 := Bumped(w, t);
    BumpedSettled(w, t);
    match f.prog.kpc
    case CollectEntry =>
      assert CollectOk(w1, Resume(w, t).0.frames[t]);
    case CollectPolling(k) =>
      CopiedStable(w, w1, f.prog.inputs, k, f.written);
      assert f.written + [] == f.written;
      CollectFromSpec(w1, f.prog, k, f.written, []);
      assert CollectOk(w1, Resume(w, t).0.frames[t]);
    CollectOkStable(w1, w, Resume(w, t).0.frames[t]);
  }

  // -------------------------------------------------------------- world

  /** The invariant of one frame, by the body it runs; the executor tests' own routines have none here. */
  ghost predicate FrameOk(w: World, f: Frame)
  {
    match f.prog
    case MapProg(_, _, _) => MapOk(w, f)
    case FlatMapProg(_, _, _) => FlatMapOk(w, f)
    case JoinProg(_, _, _) => JoinOk(w, f)
    case CollectProg(_, _) => CollectOk(w, f)
    case _ => true
  }

  /** Every frame of the world keeps the promise of the helper coroutine it runs. */
  ghost predicate WorldOk(w: World)
  {
    WellFormed(w) && forall t :: 0 <= t < |w.frames| ==> FrameOk(w, w.frames[t])
  }

  lemma FrameOkStable(w: World, w': World, f: Frame)
    requires FrameOk(w, f) && Settled(w, w')
    ensures FrameOk(w', f)
  {
    match f.prog
    case MapProg(_, _, _) => MapOkStable(w, w', f);
    case FlatMapProg(_, _, _) => FlatMapOkStable(w, w', f);
    case JoinProg(_, _, _) => JoinOkStable(w, w', f);
    case CollectProg(_, _) => CollectOkStable(w, w', f);
    case _ =>
  }

  /** The frames of `w` outside `changed` are frames of `w'`, and `w'` only adds satisfied futures. */
  lemma OthersStayOk(w: World, w': World, changed: set<nat>)
    requires WorldOk(w) && WellFormed(w') && Settled(w, w') && |w.frames| <= |w'.frames|
    requires forall u :: 0 <= u < |w.frames| && u !in changed ==> w'.frames[u] == w.frames[u]
    requires forall u :: 0 <= u < |w'.frames| && (u in changed || u >= |w.frames|) ==> FrameOk(w', w'.frames[u])
    ensures WorldOk(w')
  {
    forall u | 0 <= u < |w'.frames|
      ensures FrameOk(w', w'.frames[u])
    {
      if u < |w.frames| && u !in changed {
        FrameOkStable(w, w', w.frames[u]);
      }
    }
  }

  /** `resume()` keeps every frame's invariant. */
  lemma ResumeKeepsOk(w: World, t: nat)
    requires WorldOk(w) && t < |w.frames| && !w.frames[t].done
    ensures WorldOk(Resume(w, t).0)
  {
    var w' := Resume(w, t).0;
    var f := w.frames[t];
    ResumeSettles(w, t);
    match f.prog {
      case MapProg(_, _, _) => MapResume(w, t);
      case FlatMapProg(_, _, _) => FlatMapResume(w, t);
      case JoinProg(_, _, _) => JoinResume(w, t);
      case CollectProg(_, _) => CollectResume(w, t);
      case _ =>
    }
    assert FrameOk(w, w'.frames[t]);
    FrameOkStable(w, w', w'.frames[t]);
    OthersStayOk(w, w', {t});
  }

  /** `destroy()` keeps every frame's invariant. */
  lemma DestroyKeepsOk(w: World, t: nat)
    requires WorldOk(w) && t < |w.frames| && w.frames[t].done
    ensures WorldOk(Destroy(w, t))
  {
    var w' := Destroy(w, t);
    DestroySettles(w, t);
    assert FrameOk(w, w'.frames[t]);
    FrameOkStable(w, w', w'.frames[t]);
    OthersStayOk(w, w', {t});
  }

  /** Calling a helper coroutine adds a frame that keeps its invariant. */
  lemma LaunchKeepsOk(w: World, p: Prog)
    requires WorldOk(w) && AtEntry(p)
    ensures WorldOk(Launch(w, p).0)
  {
    var w' := Launch(w, p).0;
    LaunchSettles(w, p);
    var f := w'.frames[|w.frames|];
    if p.CollectProg? {
      assert CopiedUpTo(w', p.inputs, 0, []);
    }
    assert FrameOk(w', f);
    forall u | 0 <= u < |w.frames|
      ensures w'.frames[u] == w.frames[u]
    {
      assert w'.frames[..|w.frames|][u] == w'.frames[u];
    }
    OthersStayOk(w, w', {});
  }

  /** Setting an outside promise keeps every frame's invariant. */
  lemma SetExternalKeepsOk(w: World, k: nat, v: Val)
    requires WorldOk(w) && k < |w.external| && w.external[k].Empty?
    ensures WorldOk(SetExternal(w, k, v))
  {
    SetExternalSettles(w, k, v);
    OthersStayOk(w, SetExternal(w, k, v), {});
  }

  /** A pass of the executor keeps every frame's invariant and only adds satisfied futures. */
  lemma {:induction false} SweepKeepsOk(w: World, hs: seq<nat>)
    requires QueueOk(w, hs) && WorldOk(w)
    ensures WorldOk(Sweep(w, hs).world) && Settled(w, Sweep(w, hs).world)
    decreases |hs|
  {
    if hs != [] {
      QueueOkTail(w, hs);
      var w1 := StepHead(w, hs);
      if w.frames[hs[0]].done {
        DestroyKeepsOk(w, hs[0]);
        DestroySettles(w, hs[0]);
      } else {
        ResumeKeepsOk(w, hs[0]);
        ResumeSettles(w, hs[0]);
      }
      SweepKeepsOk(w1, hs[1..]);
      SettledTrans(w, w1, Sweep(w1, hs[1..]).world);
    }
  }

  /** Any number of passes keeps every frame's invariant. */
  lemma {:induction false} PassesKeepOk(w: World, hs: seq<nat>, k: nat)
    requires QueueOk(w, hs) && WorldOk(w)
    ensures WorldOk(Passes(w, hs, k).world) && Settled(w, Passes(w, hs, k).world)
    decreases k
  {
    if k > 0 {
      SweepQueueOk(w, hs);
      SweepKeepsOk(w, hs);
      var s := Sweep(w, hs);
      PassesKeepOk(s.world, s.kept, k - 1);
      SettledTrans(w, s.world, Passes(s.world, s.kept, k - 1).world);
    }
  }

  /** A world with no frames yet keeps the invariant trivially: it is where every run starts. */
  lemma NoFramesOk(external: seq<Cell>)
    ensures WorldOk(World([], external))
  {
  }

  /**
   * What a `map_coroutine` task's future can hold: the function's result on
   * the input's value, or the input's own exception (the function not
   * applied), or the exception the function threw on the input's value;
   * the function was applied at most once.
   */
  lemma MapFuture(w: World, t: nat)
    requires WorldOk(w) && t < |w.frames| && w.frames[t].prog.MapProg?
    ensures var f := w.frames[t]; var c := Read(w, TaskFuture(t)); var i := Read(w, f.prog.input);
      && |f.calls| <= 1
      && (c.Value? ==> i.Value? && f.prog.f(i.v) == Success(c.v) && f.calls == [i.v])
      && (c.Error? ==> (i == c && f.calls == []) || (i.Value? && f.prog.f(i.v) == Failure(c.e) && f.calls == [i.v]))
  {
    assert FrameOk(w, w.frames[t]);
  }

  /**
   * What a `flatmap_coroutine` task's future can hold: the contents of the
   * future the function returned for the input's value, or the input's own
   * exception, or the exception the function threw on the input's value;
   * the function was applied at most once.
   */
  lemma FlatMapFuture(w: World, t: nat)
    requires WorldOk(w) && t < |w.frames| && w.frames[t].prog.FlatMapProg?
    ensures var f := w.frames[t]; var c := Read(w, TaskFuture(t)); var i := Read(w, f.prog.input);
      && |f.calls| <= 1
      && (c.Value? ==> i.Value? && f.calls == [i.v] && f.prog.g(i.v).Success? && Read(w, f.prog.g(i.v).value) == c)
      && (c.Error? ==>
            || i == c
            || (i.Value? && f.calls == [i.v] && f.prog.g(i.v) == Failure(c.e))
            || (i.Value? && f.calls == [i.v] && f.prog.g(i.v).Success? && Read(w, f.prog.g(i.v).value) == c))
  {
    assert FrameOk(w, w.frames[t]);
  }

  /**
   * What a `join_coroutine` task's future can hold: the pair of its inputs'
   * values, or, with both inputs ready, the left one's exception or else
   * the right one's.
   */
  lemma JoinFuture(w: World, t: nat)
    requires WorldOk(w) && t < |w.frames| && w.frames[t].prog.JoinProg?
    ensures var f := w.frames[t]; var c := Read(w, TaskFuture(t));
      var l := Read(w, f.prog.left); var r := Read(w, f.prog.right);
      && (c.Value? ==> l.Value? && r.Value? && c.v == PairV(l.v, r.v))
      && (c.Error? ==> !l.Empty? && !r.Empty? && (l == c || (l.Value? && r == c)))
  {
    assert FrameOk(w, w.frames[t]);
  }

  /**
   * What a `collect_coroutine` task's future can hold: Unit once the values
   * of all inputs were written in input order, or the exception of the
   * first input that held one, with the values before it written.
   */
  lemma CollectFuture(w: World, t: nat)
    requires WorldOk(w) && t < |w.frames| && w.frames[t].prog.CollectProg?
    ensures var f := w.frames[t]; var c := Read(w, TaskFuture(t)); var inputs := f.prog.inputs;
      && (c.Value? ==> c.v == UnitV && AllValues(w, inputs) && f.written == Values(w, inputs))
      && (c.Error? ==>
            |f.written| < |inputs| && AllValues(w, inputs[..|f.written|])
            && f.written == Values(w, inputs[..|f.written|]) && Read(w, inputs[|f.written|]) == c)
  {
    var f := w.frames[t];
    assert FrameOk(w, f);
    assert f.prog.inputs[..|f.prog.inputs|] == f.prog.inputs;
  }
  // ----------------------------------------------------------- progress

  /**
   * A `map_coroutine` polling an input that holds a value: the next
   * `resume()` applies the function once, to that value, and completes
   * the task with what the function returns or throws.
   */
  lemma MapCompletes(w: World, t: nat, v: Val)
    requires WellFormed(w) && t < |w.frames| && !w.frames[t].done
    requires w.frames[t].prog.MapProg? && w.frames[t].prog.mpc == MapPolling
    requires Read(w, w.frames[t].prog.input) == Value(v)
    ensures var w' := Resume(w, t).0;
      && w'.frames[t].done
      && w'.frames[t].calls == w.frames[t].calls + [v]
      && Read(w', TaskFuture(t)) == Outcome(w.frames[t].prog.f(v))
  {
    BumpedSettled(w, t);
  }

  /**
   * A `flatmap_coroutine` polling its input once that input holds a value,
   * and the function either throws or returns a future that is ready: the
   * next `resume()` applies the function once and completes the task with
   * the thrown exception or the returned future's contents.
   */
  lemma FlatMapCompletesInput(w: World, t: nat, v: Val)
    requires WellFormed(w) && t < |w.frames| && !w.frames[t].done
    requires w.frames[t].prog.FlatMapProg? && w.frames[t].prog.fpc == FlatMapPollingInput
    requires Read(w, w.frames[t].prog.input) == Value(v)
    requires w.frames[t].prog.g(v).Success? ==> IsReady(w, w.frames[t].prog.g(v).value)
    ensures var w' := Resume(w, t).0;
      && w'.frames[t].done
      && w'.frames[t].calls == w.frames[t].calls + [v]
      && Read(w', TaskFuture(t)) == FlatMapOutcome(w, w.frames[t].prog.g(v))
  {
    BumpedSettled(w, t);
  }

  /**
   * A `flatmap_coroutine` waiting on the future its function returned: once
   * that future is ready, the next `resume()` completes the task with its
   * contents.
   */
  lemma FlatMapCompletesNext(w: World, t: nat, next: FutureRef)
    requires WellFormed(w) && t < |w.frames| && !w.frames[t].done
    requires w.frames[t].prog.FlatMapProg? && w.frames[t].prog.fpc == FlatMapPollingNext(next)
    requires IsReady(w, next)
    ensures var w' := Resume(w, t).0;
      && w'.frames[t].done
      && w'.frames[t].calls == w.frames[t].calls
      && Read(w', TaskFuture(t)) == Read(w, next)
  {
    BumpedSettled(w, t);
  }

  /**
   * A `join_coroutine` past its first await, with both inputs ready: the
   * next `resume()` completes the task with the pair of their values, or
   * the left input's exception, or else the right one's.
   */
  lemma JoinCompletes(w: World, t: nat)
    requires WellFormed(w) && t < |w.frames| && !w.frames[t].done
    requires w.frames[t].prog.JoinProg? && !w.frames[t].prog.jpc.JoinEntry?
    requires IsReady(w, w.frames[t].prog.left) && IsReady(w, w.frames[t].prog.right)
    ensures var w' := Resume(w, t).0; var l := Read(w, w.frames[t].prog.left); var r := Read(w, w.frames[t].prog.right);
      && w'.frames[t].done
      && Read(w', TaskFuture(t)) == if l.Error? then l else if r.Error? then r else Value(PairV(l.v, r.v))
  {
    BumpedSettled(w, t);
  }

  /**
   * A `collect_coroutine` waiting at some input, once every input holds a
   * value: the next `resume()` writes the remaining values and completes
   * the task with Unit, all values of the inputs having been written in
   * input order.
   */
  lemma CollectCompletes(w: World, t: nat)
    requires WellFormed(w) && t < |w.frames| && !w.frames[t].done
    requires w.frames[t].prog.CollectProg? && w.frames[t].prog.kpc.CollectPolling?
    requires CollectOk(w, w.frames[t]) && AllValues(w, w.frames[t].prog.inputs)
    ensures var w' := Resume(w, t).0;
      && w'.frames[t].done
      && Read(w', TaskFuture(t)) == Value(UnitV)
      && w'.frames[t].written == Values(w, w.frames[t].prog.inputs)
  {
    var f := w.frames[t];
    var inputs := f.prog.inputs;
    var w1 := Bumped(w, t);
    BumpedSettled(w, t);
    CopiedStable(w, w1, inputs, |f.written|, f.written);
    assert f.written + [] == f.written;
    CollectFromSpec(w1, f.prog, |f.written|, f.written, []);
    var s := CollectFrom(w1, f.prog, |f.written|, []);
    var n := |f.written + s.written|;
    assert s.how == Returned(UnitV) by {
      if n < |inputs| {
        assert Read(w1, inputs[n]) == Read(w, inputs[n]);
        assert Read(w, inputs[n]).Value?;
      }
    }
    assert Resume(w, t).0.frames[t].written == f.written + s.written;
    CopiedStable(w1, w, inputs, n, f.written + s.written);
    assert inputs[..|inputs|] == inputs;
  }

  /** `u` appears in `hs` after its head. */
  lemma InTail(hs: seq<nat>, u: nat)
    requires u in hs && hs[0] != u
    ensures u in hs[1..]
  {
    var i :| 0 <= i < |hs| && hs[i] == u;
    assert hs[1..][i - 1] == u;
  }

  /** The world a pass over `hs` has reached when it comes to handle `u`. */
  function WorldAt(w: World, hs: seq<nat>, u: nat): World
    requires QueueOk(w, hs) && u in hs
    decreases |hs|
  {
    if hs[0] == u then w
    else
      QueueOkTail(w, hs);
      InTail(hs, u);
      WorldAt(StepHead(w, hs), hs[1..], u)
  }

  /**
   * A pass handles each queued frame once, in a world that has only gained
   * satisfied futures since the pass began and in which that frame is
   * still as it was; nothing later in the pass touches it again.
   */
  lemma {:induction false} SweepHandles(w: World, hs: seq<nat>, u: nat)
    requires QueueOk(w, hs) && u in hs
    ensures var m := WorldAt(w, hs, u); var r := Sweep(w, hs).world;
      && WellFormed(m) && Settled(w, m) && |m.frames| == |w.frames| && m.frames[u] == w.frames[u]
      && |r.frames| == |w.frames|
      && (w.frames[u].done ==> r.frames[u] == Destroy(m, u).frames[u])
      && (!w.frames[u].done ==> r.frames[u] == Resume(m, u).0.frames[u])
    decreases |hs|
  {
    QueueOkTail(w, hs);
    var w1 := StepHead(w, hs);
    SweepFrames(w1, hs[1..]);
    if hs[0] == u {
      TailUnchanged(w, hs);
      assert u !in hs[1..];
    } else {
      InTail(hs, u);
      TailUnchanged(w, hs);
      if w.frames[hs[0]].done {
        DestroySettles(w, hs[0]);
      } else {
        ResumeSettles(w, hs[0]);
      }
      SweepHandles(w1, hs[1..], u);
      SettledTrans(w, w1, WorldAt(w1, hs[1..], u));
    }
  }

  /**
   * A queued `map_coroutine` whose input holds a value: the next `step`
   * completes its task with what the function returns or throws.
   */
  lemma MapStepCompletes(w: World, hs: seq<nat>, t: nat, v: Val)
    requires QueueOk(w, hs) && t in hs && !w.frames[t].done
    requires w.frames[t].prog.MapProg? && w.frames[t].prog.mpc == MapPolling
    requires Read(w, w.frames[t].prog.input) == Value(v)
    ensures var w' := Sweep(w, hs).world;
      t < |w'.frames| && w'.frames[t].done && Read(w', TaskFuture(t)) == Outcome(w.frames[t].prog.f(v))
  {
    SweepHandles(w, hs, t);
    MapCompletes(WorldAt(w, hs, t), t, v);
  }

  /**
   * A queued `flatmap_coroutine` whose input holds a value and whose
   * function throws on it or returns a ready future: the next `step`
   * completes its task with the exception or that future's contents.
   */
  lemma FlatMapStepCompletes(w: World, hs: seq<nat>, t: nat, v: Val)
    requires QueueOk(w, hs) && t in hs && !w.frames[t].done
    requires w.frames[t].prog.FlatMapProg? && w.frames[t].prog.fpc == FlatMapPollingInput
    requires Read(w, w.frames[t].prog.input) == Value(v)
    requires w.frames[t].prog.g(v).Success? ==> IsReady(w, w.frames[t].prog.g(v).value)
    ensures var w' := Sweep(w, hs).world;
      && t < |w'.frames| && w'.frames[t].done
      && Read(w', TaskFuture(t)) == FlatMapOutcome(w, w.frames[t].prog.g(v))
  {
    SweepHandles(w, hs, t);
    var m := WorldAt(w, hs, t);
    var g := w.frames[t].prog.g;
    if g(v).Success? {
      assert Read(m, g(v).value) == Read(w, g(v).value);
    }
    FlatMapCompletesInput(m, t, v);
  }

  /** A queued `flatmap_coroutine` whose returned future is ready: the next `step` completes its task with its contents. */
  lemma FlatMapNextStepCompletes(w: World, hs: seq<nat>, t: nat, next: FutureRef)
    requires QueueOk(w, hs) && t in hs && !w.frames[t].done
    requires w.frames[t].prog.FlatMapProg? && w.frames[t].prog.fpc == FlatMapPollingNext(next)
    requires IsReady(w, next)
    ensures var w' := Sweep(w, hs).world;
      t < |w'.frames| && w'.frames[t].done && Read(w', TaskFuture(t)) == Read(w, next)
  {
    SweepHandles(w, hs, t);
    var m := WorldAt(w, hs, t);
    assert Read(m, next) == Read(w, next);
    FlatMapCompletesNext(m, t, next);
  }

  /**
   * A queued `join_coroutine` whose inputs are both ready: the next `step`
   * completes its task with their pair, or the left exception, or else the
   * right one.
   */
  lemma JoinStepCompletes(w: World, hs: seq<nat>, t: nat)
    requires QueueOk(w, hs) && t in hs && !w.frames[t].done
    requires w.frames[t].prog.JoinProg? && !w.frames[t].prog.jpc.JoinEntry?
    requires IsReady(w, w.frames[t].prog.left) && IsReady(w, w.frames[t].prog.right)
    ensures var w' := Sweep(w, hs).world; var l := Read(w, w.frames[t].prog.left); var r := Read(w, w.frames[t].prog.right);
      && t < |w'.frames| && w'.frames[t].done
      && Read(w', TaskFuture(t)) == if l.Error? then l else if r.Error? then r else Value(PairV(l.v, r.v))
  {
    SweepHandles(w, hs, t);
    var m := WorldAt(w, hs, t);
    var p := w.frames[t].prog;
    assert Read(m, p.left) == Read(w, p.left);
    assert Read(m, p.right) == Read(w, p.right);
    JoinCompletes(m, t);
  }

  /**
   * A queued `collect_coroutine` keeping its invariant, once every input
   * holds a value: the next `step` completes its task with Unit, every
   * input's value written in input order.
   */
  lemma CollectStepCompletes(w: World, hs: seq<nat>, t: nat)
    requires QueueOk(w, hs) && t in hs && !w.frames[t].done
    requires w.frames[t].prog.CollectProg? && w.frames[t].prog.kpc.CollectPolling?
    requires CollectOk(w, w.frames[t]) && AllValues(w, w.frames[t].prog.inputs)
    ensures var w' := Sweep(w, hs).world;
      && t < |w'.frames| && w'.frames[t].done && Read(w', TaskFuture(t)) == Value(UnitV)
      && w'.frames[t].written == Values(w, w.frames[t].prog.inputs)
  {
    SweepHandles(w, hs, t);
    var m := WorldAt(w, hs, t);
    var f := w.frames[t];
    CollectOkStable(w, m, f);
    forall i | 0 <= i < |f.prog.inputs|
      ensures Read(m, f.prog.inputs[i]) == Read(w, f.prog.inputs[i])
    {
    }
    CollectCompletes(m, t);
  }
}

/**
 * The `promise_type` of `SingleValueCoroTask` (thesoup/async/types.hpp): the
 * part of a coroutine frame that remembers whether the coroutine has been
 * handed to an executor, and the `std::promise` through which its single
 * result (a value or an exception) reaches the task's `std::future`.
 *
 * A future's shared state is a write-once `Cell`.  Values are dynamically
 * typed (`Val`) so that one executor can drive coroutines of different
 * result types, as the library's executor does.
 */
module Promises {
  import opened Common

  /** A value carried by a future. */
  datatype Val =
    | IntV(i: int)
    | StrV(s: string)
    | BoolV(b: bool)
    | PairV(fst: Val, snd: Val)
    | UnitV

  /** Shared state of a `std::promise`/`std::future` pair. */
  datatype Cell = Empty | Value(v: Val) | Error(e: Exception)

  /** `promise_type::Status`. */
  datatype Status = Pending | Scheduled | Complete

  /** Position of a status in the order PENDING < SCHEDULED < COMPLETE. */
  function Rank(s: Status): nat
  {
    match s
    case Pending => 0
    case Scheduled => 1
    case Complete => 2
  }

  /** The two mutable fields of `promise_type`. */
  datatype PromiseType = PromiseType(status: Status, promise: Cell)
  {
    /**
     * `await_transform(executor)`: the first time the coroutine awaits its
     * executor it asks to be scheduled; later awaits leave everything alone.
     * The boolean is true when `schedule` is called.
     */
    function AwaitExecutor(): (r: (PromiseType, bool))
      ensures r.1 <==> status == Pending
      ensures r.0.promise == promise
      ensures r.0.status != Pending
      ensures status != Pending ==> r.0 == this
    {
      if status == Pending then (PromiseType(Scheduled, promise), true)
      else (this, false)
    }

    /** `return_value`: the task completes and its future becomes ready with `v`. */
    function ReturnValue(v: Val): (p: PromiseType)
      requires promise.Empty?
      ensures p.status == Complete
      ensures p.promise.Value? && p.promise.v == v
    {
      PromiseType(Complete, Value(v))
    }

    /**
     * `unhandled_exception`: the exception is stored in the future; the
     * status is left as it was (it does not become COMPLETE).
     */
    function UnhandledException(e: Exception): (p: PromiseType)
      requires promise.Empty?
      ensures p.status == status
      ensures p.promise.Error? && p.promise.e == e
    {
      PromiseType(status, Error(e))
    }
  }

  /** What a coroutine does to its promise when it reaches a suspension point or ends. */
  datatype PromiseEvent =
    | AwaitUnitEvent
    | AwaitExecutorEvent
    | ReturnEvent(v: Val)
    | ThrowEvent(e: Exception)

  /** A life of a coroutine: awaits, optionally followed by one final event. */
  predicate WellOrdered(evs: seq<PromiseEvent>)
  {
    forall i :: 0 <= i < |evs| - 1 ==> evs[i].AwaitUnitEvent? || evs[i].AwaitExecutorEvent?
  }

  /** Applies the events in order; the count is how often `schedule` was called. */
  function Replay(p: PromiseType, evs: seq<PromiseEvent>): (r: (PromiseType, nat))
    requires p.promise.Empty? && WellOrdered(evs)
    decreases |evs|
  {
    if evs == [] then (p, 0)
    else
      match evs[0]
      case AwaitUnitEvent =>
        Replay(p, evs[1..])
      case AwaitExecutorEvent =>
        var (q, asked) := p.AwaitExecutor();
        var (final, n) := Replay(q, evs[1..]);
        (final, n + if asked then 1 else 0)
      case ReturnEvent(v) => (p.ReturnValue(v), 0)
      case ThrowEvent(e) => (p.UnhandledException(e), 0)
  }

  /**
   * Over any life of a coroutine, `schedule` is called at most once: exactly
   * when the coroutine starts PENDING and awaits its executor at least once.
   * The status never moves backwards, and the future is written only by the
   * final event.
   */
  lemma {:induction false} ScheduledAtMostOnce(p: PromiseType, evs: seq<PromiseEvent>)
    requires p.promise.Empty? && WellOrdered(evs)
    ensures Replay(p, evs).1 <= 1
    ensures Replay(p, evs).1 == 1 <==> p.status == Pending && AwaitExecutorEvent in evs
    ensures Rank(Replay(p, evs).0.status) >= Rank(p.status)
    ensures Replay(p, evs).0.promise.Empty? <==> (evs == [] || !(evs[|evs| - 1].ReturnEvent? || evs[|evs| - 1].ThrowEvent?))
    decreases |evs|
  {
    if evs != [] {
      assert WellOrdered(evs[1..]);
      match evs[0]
      case AwaitUnitEvent =>
        ScheduledAtMostOnce(p, evs[1..]);
        assert evs == [evs[0]] + evs[1..];
      case AwaitExecutorEvent =>
        var (q, asked) := p.AwaitExecutor();
        ScheduledAtMostOnce(q, evs[1..]);
        assert evs == [evs[0]] + evs[1..];
      case ReturnEvent(v) =>
      case ThrowEvent(e) =>
    }
  }
}

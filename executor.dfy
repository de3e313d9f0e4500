/**
 * `RoundRobinCoroExecutor` (thesoup/async/round_robin_threadpool.hpp): a
 * queue of coroutine handles that `step` walks once, destroying and removing
 * the finished ones and resuming every other one exactly once, in queue
 * order.
 *
 * The executor's own state (the handle list, the open-task counter and the
 * run flag) is a class; the coroutine frames it resumes are the value
 * `World` of module Coroutines, handed to `Step` and returned by it.
 */
module RoundRobin {
  import opened Common
  import opened Promises
  import opened Coroutines

  predicate Distinct(hs: seq<nat>)
  {
    forall i, j :: 0 <= i < j < |hs| ==> hs[i] != hs[j]
  }

  /**
   * The queue invariant: every queued handle names a live frame that has
   * already been scheduled, and no handle is queued twice.
   */
  ghost predicate QueueOk(w: World, hs: seq<nat>)
  {
    WellFormed(w) && Distinct(hs) &&
    forall i :: 0 <= i < |hs| ==>
      hs[i] < |w.frames| && !w.frames[hs[i]].destroyed && w.frames[hs[i]].promise.status != Pending
  }

  /** The handles of `hs` whose frames are not done, in queue order. */
  function Unfinished(w: World, hs: seq<nat>): seq<nat>
    requires forall i :: 0 <= i < |hs| ==> hs[i] < |w.frames|
  {
    if hs == [] then []
    else if w.frames[hs[0]].done then Unfinished(w, hs[1..])
    else [hs[0]] + Unfinished(w, hs[1..])
  }

  /** The world after `step` has dealt with the first queued handle. */
  function StepHead(w: World, hs: seq<nat>): (r: World)
    requires QueueOk(w, hs) && hs != []
    ensures |r.frames| == |w.frames| && r.external == w.external
    ensures forall u :: 0 <= u < |w.frames| && u != hs[0] ==> r.frames[u] == w.frames[u]
    ensures w.frames[hs[0]].done ==> r.frames[hs[0]].destroyed && r.frames[hs[0]].resumes == w.frames[hs[0]].resumes
    ensures !w.frames[hs[0]].done ==> !r.frames[hs[0]].destroyed && r.frames[hs[0]].resumes == w.frames[hs[0]].resumes + 1
  {
    if w.frames[hs[0]].done then Destroy(w, hs[0]) else Resume(w, hs[0]).0
  }

  datatype SweepResult = SweepResult(kept: seq<nat>, world: World)

  lemma QueueOkTail(w: World, hs: seq<nat>)
    requires QueueOk(w, hs) && hs != []
    ensures QueueOk(StepHead(w, hs), hs[1..])
  {
    var w1 := StepHead(w, hs);
    forall i | 0 <= i < |hs| - 1
      ensures hs[1..][i] < |w1.frames| && w1.frames[hs[1..][i]] == w.frames[hs[1..][i]]
    {
      assert hs[i + 1] != hs[0];
    }
  }

  /** One pass of `step` over the queue `hs`, as a specification. */
  function Sweep(w: World, hs: seq<nat>): (r: SweepResult)
    requires QueueOk(w, hs)
    decreases |hs|
  {
    if hs == [] then SweepResult([], w)
    else
      QueueOkTail(w, hs);
      var r := Sweep(StepHead(w, hs), hs[1..]);
      if w.frames[hs[0]].done then r
      else SweepResult([hs[0]] + r.kept, r.world)
  }

  lemma UnfinishedAgree(w1: World, w2: World, hs: seq<nat>)
    requires forall i :: 0 <= i < |hs| ==> hs[i] < |w1.frames| && hs[i] < |w2.frames| && w1.frames[hs[i]].done == w2.frames[hs[i]].done
    ensures Unfinished(w1, hs) == Unfinished(w2, hs)
  {
    if hs != [] {
      UnfinishedAgree(w1, w2, hs[1..]);
    }
  }

  /** The handles still queued after a pass are exactly the unfinished ones, in queue order. */
  lemma {:induction false} SweepKept(w: World, hs: seq<nat>)
    requires QueueOk(w, hs)
    ensures Sweep(w, hs).kept == Unfinished(w, hs)
    decreases |hs|
  {
    if hs != [] {
      QueueOkTail(w, hs);
      var w1 := StepHead(w, hs);
      SweepKept(w1, hs[1..]);
      TailUnchanged(w, hs);
      UnfinishedAgree(w, w1, hs[1..]);
    }
  }

  /** Dealing with the head of the queue changes no frame named by the rest of the queue. */
  lemma TailUnchanged(w: World, hs: seq<nat>)
    requires QueueOk(w, hs) && hs != []
    ensures forall u :: u in hs[1..] ==> u != hs[0] && StepHead(w, hs).frames[u] == w.frames[u]
  {
    forall u | u in hs[1..] ensures u != hs[0] {
      var i :| 0 <= i < |hs[1..]| && hs[1..][i] == u;
      assert hs[i + 1] == u;
    }
  }

  /**
   * Each queued frame is resumed exactly once if it was unfinished and
   * destroyed without being resumed if it was finished; frames outside the
   * queue and the external promises do not change.
   */
  lemma {:induction false} SweepFrames(w: World, hs: seq<nat>)
    requires QueueOk(w, hs)
    ensures var r := Sweep(w, hs);
      && |r.world.frames| == |w.frames| && r.world.external == w.external
      && (forall u :: 0 <= u < |w.frames| && u !in hs ==> r.world.frames[u] == w.frames[u])
      && (forall u :: u in hs ==>
            && r.world.frames[u].resumes == w.frames[u].resumes + (if w.frames[u].done then 0 else 1)
            && (r.world.frames[u].destroyed <==> w.frames[u].done)
            && r.world.frames[u].promise.status != Pending)
    decreases |hs|
  {
    if hs != [] {
      var t := hs[0];
      QueueOkTail(w, hs);
      var w1 := StepHead(w, hs);
      SweepFrames(w1, hs[1..]);
      TailUnchanged(w, hs);
      var r := Sweep(w, hs);
      assert r.world == Sweep(w1, hs[1..]).world;
      forall u | u in hs
        ensures r.world.frames[u].resumes == w.frames[u].resumes + (if w.frames[u].done then 0 else 1)
        ensures r.world.frames[u].destroyed <==> w.frames[u].done
        ensures r.world.frames[u].promise.status != Pending
      {
        if u != t {
          assert u in hs[1..] by {
            var i :| 0 <= i < |hs| && hs[i] == u;
            assert hs[1..][i - 1] == u;
          }
        } else {
          assert t !in hs[1..];
        }
      }
    }
  }

  /** A pass keeps the queue invariant. */
  lemma {:induction false} SweepQueueOk(w: World, hs: seq<nat>)
    requires QueueOk(w, hs)
    ensures QueueOk(Sweep(w, hs).world, Sweep(w, hs).kept)
    decreases |hs|
  {
    if hs != [] {
      var t := hs[0];
      QueueOkTail(w, hs);
      var w1 := StepHead(w, hs);
      SweepQueueOk(w1, hs[1..]);
      var r := Sweep(w, hs);
      var r1 := Sweep(w1, hs[1..]);
      if !w.frames[t].done {
        TailUnchanged(w, hs);
        SweepFrames(w1, hs[1..]);
        SweepKept(w1, hs[1..]);
        UnfinishedSubset(w1, hs[1..]);
        assert t !in hs[1..];
        assert r.kept == [t] + r1.kept;
        forall i | 0 <= i < |r.kept|
          ensures r.kept[i] < |r.world.frames| && !r.world.frames[r.kept[i]].destroyed
          ensures r.world.frames[r.kept[i]].promise.status != Pending
        {
          if i > 0 {
            assert r.kept[i] == r1.kept[i - 1];
          }
        }
      }
    }
  }

  lemma UnfinishedSubset(w: World, hs: seq<nat>)
    requires forall i :: 0 <= i < |hs| ==> hs[i] < |w.frames|
    ensures forall u :: u in Unfinished(w, hs) ==> u in hs
  {
    if hs != [] {
      UnfinishedSubset(w, hs[1..]);
    }
  }

  /**
   * In a pass, a queued unfinished frame whose body reads no future ends up
   * exactly as one `resume()` of it alone leaves it, and a finished frame is
   * only marked destroyed: the other tasks of the queue do not interfere.
   */
  lemma {:induction false} SweepFrameAlone(w: World, hs: seq<nat>, u: nat)
    requires QueueOk(w, hs) && u in hs
    ensures |Sweep(w, hs).world.frames| == |w.frames|
    ensures !w.frames[u].done && SelfContained(w.frames[u].prog) ==>
      Sweep(w, hs).world.frames[u] == ResumeAlone(w.frames[u])
    ensures w.frames[u].done ==>
      Sweep(w, hs).world.frames[u] == w.frames[u].(destroyed := true)
    decreases |hs|
  {
    SweepFrames(w, hs);
    QueueOkTail(w, hs);
    var w1 := StepHead(w, hs);
    TailUnchanged(w, hs);
    if hs[0] == u {
      SweepFrames(w1, hs[1..]);
      if !w.frames[u].done && SelfContained(w.frames[u].prog) {
        ResumeSelfContained(w, u);
      }
    } else {
      assert u in hs[1..] by {
        var i :| 0 <= i < |hs| && hs[i] == u;
        assert hs[1..][i - 1] == u;
      }
      SweepFrameAlone(w1, hs[1..], u);
    }
  }


  /** A pass over a queue whose head is finished: the head is destroyed and dropped. */
  lemma SweepDropsFinished(w: World, hs: seq<nat>)
    requires hs != [] && QueueOk(w, hs) && w.frames[hs[0]].done
    ensures QueueOk(Destroy(w, hs[0]), hs[1..])
    ensures Sweep(w, hs) == Sweep(Destroy(w, hs[0]), hs[1..])
  {
    QueueOkTail(w, hs);
  }

  /** A pass over a queue whose head is unfinished: the head is resumed and kept in front. */
  lemma SweepKeepsUnfinished(w: World, hs: seq<nat>)
    requires hs != [] && QueueOk(w, hs) && !w.frames[hs[0]].done
    ensures QueueOk(Resume(w, hs[0]).0, hs[1..])
    ensures Sweep(w, hs).kept == [hs[0]] + Sweep(Resume(w, hs[0]).0, hs[1..]).kept
    ensures Sweep(w, hs).world == Sweep(Resume(w, hs[0]).0, hs[1..]).world
  {
    QueueOkTail(w, hs);
  }

  /** The loop invariant of `step` survives removing a finished head. */
  lemma StepDrop(r: SweepResult, pre: seq<nat>, w: World, rest: seq<nat>)
    requires rest != [] && QueueOk(w, rest) && w.frames[rest[0]].done
    requires r == SweepResult(pre + Sweep(w, rest).kept, Sweep(w, rest).world)
    ensures QueueOk(Destroy(w, rest[0]), rest[1..])
    ensures r == SweepResult(pre + Sweep(Destroy(w, rest[0]), rest[1..]).kept, Sweep(Destroy(w, rest[0]), rest[1..]).world)
  {
    SweepDropsFinished(w, rest);
  }

  /** The loop invariant of `step` survives resuming an unfinished head. */
  lemma StepKeep(r: SweepResult, pre: seq<nat>, w: World, rest: seq<nat>)
    requires rest != [] && QueueOk(w, rest) && !w.frames[rest[0]].done
    requires r == SweepResult(pre + Sweep(w, rest).kept, Sweep(w, rest).world)
    ensures QueueOk(Resume(w, rest[0]).0, rest[1..])
    ensures r == SweepResult((pre + [rest[0]]) + Sweep(Resume(w, rest[0]).0, rest[1..]).kept, Sweep(Resume(w, rest[0]).0, rest[1..]).world)
  {
    SweepKeepsUnfinished(w, rest);
    var k1 := Sweep(Resume(w, rest[0]).0, rest[1..]).kept;
    assert pre + ([rest[0]] + k1) == (pre + [rest[0]]) + k1;
  }

  /** `k` successive calls of `step`, as a specification. */
  function Passes(w: World, hs: seq<nat>, k: nat): (r: SweepResult)
    requires QueueOk(w, hs)
    ensures QueueOk(r.world, r.kept)
    decreases k
  {
    if k == 0 then SweepResult(hs, w)
    else
      SweepQueueOk(w, hs);
      var s := Sweep(w, hs);
      Passes(s.world, s.kept, k - 1)
  }


  /** The executor: its queue of handles, its open-task counter and its run flag. */
  class Executor {
    var handles: seq<nat>
    var numOpenTasks: nat
    var run: bool

    /** The counter always equals the length of the queue. */
    ghost predicate Valid()
      reads this
    {
      numOpenTasks == |handles|
    }

    constructor()
      ensures Valid() && handles == [] && run
    {
      handles := [];
      numOpenTasks := 0;
      run := true;
    }

    /** `schedule`: appends the handle and counts one more open task. */
    method Schedule(h: nat)
      requires Valid()
      modifies this
      ensures Valid() && handles == old(handles) + [h] && run == old(run)
    {
      handles := handles + [h];
      numOpenTasks := numOpenTasks + 1;
    }

    /** `stop`: clears the run flag and nothing else. */
    method Stop()
      modifies this
      ensures !run && handles == old(handles) && numOpenTasks == old(numOpenTasks)
    {
      run := false;
    }

    /** `size`: the number of queued tasks, finished-but-not-yet-removed ones included. */
    function Size(): (n: nat)
      requires Valid()
      reads this
      ensures n == |handles|
    {
      numOpenTasks
    }

    /**
     * The body of `step`'s loop at iterator position `i`: a done frame is
     * destroyed and erased, an unfinished one is resumed and the iterator
     * advances.  What is left of the pass is unchanged.
     */
    method StepAt(w: World, i: nat) returns (w': World, i': nat)
      requires Valid() && i < |handles| && QueueOk(w, handles[i..])
      modifies this
      ensures Valid() && run == old(run)
      ensures i' <= |handles| && |handles| - i' < old(|handles|) - i
      ensures QueueOk(w', handles[i'..])
      ensures handles[..i'] + Sweep(w', handles[i'..]).kept == old(handles[..i]) + Sweep(w, old(handles[i..])).kept
      ensures Sweep(w', handles[i'..]).world == Sweep(w, old(handles[i..])).world
    {
      var t := handles[i];
      ghost var rest := handles[i..];
      ghost var pre := handles[..i];
      assert rest[1..] == handles[i + 1..];
      if w.frames[t].done {
        StepDrop(SweepResult(pre + Sweep(w, rest).kept, Sweep(w, rest).world), pre, w, rest);
        w' := Destroy(w, t);
        handles := handles[..i] + handles[i + 1..];
        numOpenTasks := numOpenTasks - 1;
        assert handles[..i] == pre && handles[i..] == rest[1..];
        i' := i;
      } else {
        StepKeep(SweepResult(pre + Sweep(w, rest).kept, Sweep(w, rest).world), pre, w, rest);
        w' := Resume(w, t).0;
        assert handles[..i + 1] == pre + [t];
        i' := i + 1;
      }
    }

    /** `step`: one pass over the queue, proved against `Sweep`. */
    method Step(w: World) returns (w': World)
      requires Valid() && QueueOk(w, handles)
      modifies this
      ensures Valid() && run == old(run)
      ensures handles == Sweep(w, old(handles)).kept && w' == Sweep(w, old(handles)).world
    {
      ghost var h0 := handles;
      w' := w;
      var i := 0;
      while i < |handles|
        invariant Valid() && 0 <= i <= |handles| && run == old(run)
        invariant QueueOk(w', handles[i..])
        invariant Sweep(w, h0) == SweepResult(handles[..i] + Sweep(w', handles[i..]).kept, Sweep(w', handles[i..]).world)
        decreases |handles| - i
      {
        w', i := StepAt(w', i);
      }
      assert handles[..i] == handles;
    }
  }

  /**
   * Calling a coroutine whose first statement awaits `exec`: the frame is
   * made, runs to its first suspension point and, when it asks, is scheduled.
   */
  method Spawn(exec: Executor, w: World, p: Prog) returns (w': World, t: nat)
    requires exec.Valid() && QueueOk(w, exec.handles)
    modifies exec
    ensures exec.Valid() && exec.run == old(exec.run)
    ensures w' == Launch(w, p).0 && t == Launch(w, p).1
    ensures exec.handles == old(exec.handles) + (if Launch(w, p).2 then [t] else [])
    ensures QueueOk(w', exec.handles)
  {
    var asked;
    w', t, asked := Launch(w, p).0, Launch(w, p).1, Launch(w, p).2;
    if asked {
      exec.Schedule(t);
    }
    assert forall i :: 0 <= i < |old(exec.handles)| ==> old(exec.handles)[i] < |w.frames| && w'.frames[old(exec.handles)[i]] == w.frames[old(exec.handles)[i]];
  }
}

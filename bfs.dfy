/**
 * `thesoup::algorithms::bfs` (thesoup/algorithms/graph_traversals.hpp): a
 * breadth-first traversal that asks the graph for the neighbours of each
 * vertex of the current frontier, marks every vertex it has not seen yet,
 * collects those into the next frontier and reports each of them, together
 * with the vertex it was found from, to a visit callback.
 *
 * The graph is seen only through `get_neighbours`, a parameter `g` that
 * answers a neighbour list or an error for every vertex. The calls of the
 * visit callback are returned, in order, as the `trace`. Every report also
 * carries a ghost `level`: the number of frontier swaps before it was made.
 */
module GraphTraversals {
  import opened Common
  import opened GraphTypes

  /** One call `visit_callback(parent, child)`; the start vertex has no parent. */
  datatype Visit<V> = Visit(parent: Option<V>, child: V)

  /** The children of a trace, in the order they were reported. */
  function Children<V>(trace: seq<Visit<V>>): (r: seq<V>)
    ensures |r| == |trace|
    ensures forall i :: 0 <= i < |trace| ==> r[i] == trace[i].child
  {
    seq(|trace|, i requires 0 <= i < |trace| => trace[i].child)
  }

  lemma ChildrenAppend<V>(trace: seq<Visit<V>>, x: Visit<V>)
    ensures Children(trace + [x]) == Children(trace) + [x.child]
  {
  }

  lemma ChildrenSuffix<V>(trace: seq<Visit<V>>, trace': seq<Visit<V>>, i: int)
    requires trace <= trace' && 0 <= i <= |trace|
    ensures Children(trace'[i..]) == Children(trace[i..]) + Children(trace'[|trace|..])
  {
  }

  /** `v` is in the neighbour list that `get_neighbours(u)` answers. */
  ghost predicate Adjacent<V, E, Err>(g: V -> Result<seq<Neighbour<V, E>>, Err>, u: V, v: V) {
    g(u).Success? && exists n :: n in g(u).value && n.vertex == v
  }

  /** `vertices` holds every neighbour of each of its members: a finite graph. */
  ghost predicate Closed<V, E, Err>(g: V -> Result<seq<Neighbour<V, E>>, Err>, vertices: set<V>) {
    forall u, n :: u in vertices && g(u).Success? && n in g(u).value ==> n.vertex in vertices
  }

  /** `p` is a walk: each vertex is a neighbour of the one before it. */
  ghost predicate IsWalk<V, E, Err>(g: V -> Result<seq<Neighbour<V, E>>, Err>, p: seq<V>) {
    |p| >= 1 && forall i :: 0 <= i < |p| - 1 ==> Adjacent(g, p[i], p[i + 1])
  }

  /** Some walk of `d` steps leads from `start` to `v`. */
  ghost predicate WalkOfLength<V(!new), E, Err>(g: V -> Result<seq<Neighbour<V, E>>, Err>, start: V, v: V, d: int) {
    exists p :: IsWalk(g, p) && p[0] == start && p[|p| - 1] == v && |p| == d + 1
  }

  /** Some walk leads from `start` to `v`. */
  ghost predicate Reachable<V(!new), E, Err>(g: V -> Result<seq<Neighbour<V, E>>, Err>, start: V, v: V) {
    exists p :: IsWalk(g, p) && p[0] == start && p[|p| - 1] == v
  }

  /** The `visited` set holds exactly the vertices reported so far. */
  ghost predicate Marks<V(!new)>(visited: set<V>, trace: seq<Visit<V>>) {
    forall v :: v in visited <==> v in Children(trace)
  }

  /** Report `i` names as parent an earlier report one level shallower, whose neighbour it is. */
  ghost predicate HasParent<V, E, Err>(g: V -> Result<seq<Neighbour<V, E>>, Err>, trace: seq<Visit<V>>, levels: seq<int>, i: int) {
    0 <= i < |trace| && |levels| == |trace| &&
    exists j :: 0 <= j < i && trace[i].parent == Some(trace[j].child) && levels[i] == levels[j] + 1
                && Adjacent(g, trace[j].child, trace[i].child)
  }

  /**
   * What every prefix of the callback trace satisfies: the start vertex is
   * reported first and without parent, no vertex is reported twice, levels
   * never decrease, and every later report comes from an earlier one.
   */
  ghost predicate Traced<V, E, Err>(g: V -> Result<seq<Neighbour<V, E>>, Err>, start: V, trace: seq<Visit<V>>, levels: seq<int>) {
    |trace| >= 1 && |levels| == |trace|
    && trace[0] == Visit(None, start) && levels[0] == 0
    && (forall i, j :: 0 <= i < j < |trace| ==> trace[i].child != trace[j].child)
    && (forall i, j :: 0 <= i <= j < |trace| ==> levels[i] <= levels[j])
    && (forall i :: 0 < i < |trace| ==> HasParent(g, trace, levels, i))
  }

  /** `v` has been reported at a level of at most `d`. */
  ghost predicate ReachedBy<V>(trace: seq<Visit<V>>, levels: seq<int>, v: V, d: int) {
    exists j :: 0 <= j < |trace| && j < |levels| && trace[j].child == v && levels[j] <= d
  }

  /** Report `i` has been expanded: its neighbours were fetched and all reported at most one level deeper. */
  ghost predicate Expanded<V, E, Err>(g: V -> Result<seq<Neighbour<V, E>>, Err>, trace: seq<Visit<V>>, levels: seq<int>, i: int) {
    0 <= i < |trace| && i < |levels| && g(trace[i].child).Success? &&
    forall n :: n in g(trace[i].child).value ==> ReachedBy(trace, levels, n.vertex, levels[i] + 1)
  }

  /**
   * The state at the top of the outer loop: the frontier is the run of
   * reports from `s` on, all at level `k`; every earlier report is shallower
   * and has been expanded.
   */
  ghost predicate Layered<V, E, Err>(g: V -> Result<seq<Neighbour<V, E>>, Err>, start: V, trace: seq<Visit<V>>, levels: seq<int>,
                                     frontier: seq<V>, s: int, k: int) {
    Traced(g, start, trace, levels) && 0 <= s <= |trace|
    && frontier == Children(trace[s..])
    && (forall i :: 0 <= i < s ==> levels[i] < k && Expanded(g, trace, levels, i))
    && (forall i :: s <= i < |trace| ==> levels[i] == k)
  }

  lemma ReachedByGrow<V>(trace: seq<Visit<V>>, levels: seq<int>, trace': seq<Visit<V>>, levels': seq<int>, v: V, d: int)
    requires ReachedBy(trace, levels, v, d) && trace <= trace' && levels <= levels'
    ensures ReachedBy(trace', levels', v, d)
  {
    var j :| 0 <= j < |trace| && j < |levels| && trace[j].child == v && levels[j] <= d;
    assert trace'[j] == trace[j] && levels'[j] == levels[j];
  }

  lemma ExpandedGrow<V, E, Err>(g: V -> Result<seq<Neighbour<V, E>>, Err>, trace: seq<Visit<V>>, levels: seq<int>,
                                trace': seq<Visit<V>>, levels': seq<int>, i: int)
    requires Expanded(g, trace, levels, i) && trace <= trace' && levels <= levels'
    ensures Expanded(g, trace', levels', i)
  {
    assert trace'[i] == trace[i] && levels'[i] == levels[i];
    forall n | n in g(trace[i].child).value
      ensures ReachedBy(trace', levels', n.vertex, levels[i] + 1)
    {
      ReachedByGrow(trace, levels, trace', levels', n.vertex, levels[i] + 1);
    }
  }

  /** Reporting an unseen neighbour `v` of report `q`, one level below `q`, keeps the trace well formed. */
  lemma TracedAppend<V, E, Err>(g: V -> Result<seq<Neighbour<V, E>>, Err>, start: V, trace: seq<Visit<V>>, levels: seq<int>, q: int, v: V)
    requires Traced(g, start, trace, levels) && 0 <= q < |trace|
    requires levels[|trace| - 1] <= levels[q] + 1
    requires Adjacent(g, trace[q].child, v) && v !in Children(trace)
    ensures Traced(g, start, trace + [Visit(Some(trace[q].child), v)], levels + [levels[q] + 1])
  {
    var t, l := trace + [Visit(Some(trace[q].child), v)], levels + [levels[q] + 1];
    forall i | 0 < i < |t|
      ensures HasParent(g, t, l, i)
    {
      if i < |trace| {
        assert HasParent(g, trace, levels, i);
        var j :| 0 <= j < i && trace[i].parent == Some(trace[j].child) && levels[i] == levels[j] + 1
                 && Adjacent(g, trace[j].child, trace[i].child);
        assert t[j] == trace[j] && t[i] == trace[i] && l[i] == levels[i] && l[j] == levels[j];
      } else {
        assert t[q] == trace[q] && l[q] == levels[q];
      }
    }
    forall i, j | 0 <= i < j < |t|
      ensures t[i].child != t[j].child
    {
      if j == |trace| {
        assert Children(trace)[i] == trace[i].child;
      }
    }
    forall i, j | 0 <= i <= j < |t|
      ensures l[i] <= l[j]
    {
      if j == |trace| && i < j {
        assert levels[i] <= levels[|trace| - 1];
      }
    }
  }

  /** Every report is the end of a walk from the start whose length is the report's level. */
  lemma {:induction false} LevelsAreWalks<V(!new), E, Err>(g: V -> Result<seq<Neighbour<V, E>>, Err>, start: V,
                                                          trace: seq<Visit<V>>, levels: seq<int>, i: int)
    requires Traced(g, start, trace, levels) && 0 <= i < |trace|
    ensures WalkOfLength(g, start, trace[i].child, levels[i])
    decreases i
  {
    if i == 0 {
      assert IsWalk(g, [start]);
    } else {
      assert HasParent(g, trace, levels, i);
      var j :| 0 <= j < i && trace[i].parent == Some(trace[j].child) && levels[i] == levels[j] + 1
               && Adjacent(g, trace[j].child, trace[i].child);
      LevelsAreWalks(g, start, trace, levels, j);
      var p :| IsWalk(g, p) && p[0] == start && p[|p| - 1] == trace[j].child && |p| == levels[j] + 1;
      var p' := p + [trace[i].child];
      forall m | 0 <= m < |p'| - 1
        ensures Adjacent(g, p'[m], p'[m + 1])
      {
        if m < |p| - 1 {
          assert p'[m] == p[m] && p'[m + 1] == p[m + 1];
        }
      }
      assert IsWalk(g, p');
    }
  }

  /**
   * Once every report has been expanded, the end of every walk from the
   * start has been reported, at a level no greater than the walk's length.
   */
  lemma {:induction false} WalksReached<V, E, Err>(g: V -> Result<seq<Neighbour<V, E>>, Err>, start: V,
                                                 trace: seq<Visit<V>>, levels: seq<int>, p: seq<V>)
    requires Traced(g, start, trace, levels)
    requires forall i :: 0 <= i < |trace| ==> Expanded(g, trace, levels, i)
    requires IsWalk(g, p) && p[0] == start
    ensures ReachedBy(trace, levels, p[|p| - 1], |p| - 1)
    decreases |p|
  {
    if |p| == 1 {
      assert trace[0].child == start && levels[0] == 0;
    } else {
      var p0 := p[..|p| - 1];
      forall m | 0 <= m < |p0| - 1
        ensures Adjacent(g, p0[m], p0[m + 1])
      {
        assert p0[m] == p[m] && p0[m + 1] == p[m + 1];
      }
      WalksReached(g, start, trace, levels, p0);
      var j :| 0 <= j < |trace| && j < |levels| && trace[j].child == p0[|p0| - 1] && levels[j] <= |p0| - 1;
      assert Expanded(g, trace, levels, j);
      assert Adjacent(g, p[|p| - 2], p[|p| - 1]);
      var n :| n in g(p[|p| - 2]).value && n.vertex == p[|p| - 1];
      assert ReachedBy(trace, levels, n.vertex, levels[j] + 1);
      var j2 :| 0 <= j2 < |trace| && j2 < |levels| && trace[j2].child == n.vertex && levels[j2] <= levels[j] + 1;
    }
  }

  /** Every reported vertex is reachable from the start. */
  lemma ReportedReachable<V(!new), E, Err>(g: V -> Result<seq<Neighbour<V, E>>, Err>, start: V, trace: seq<Visit<V>>, levels: seq<int>)
    requires Traced(g, start, trace, levels)
    ensures forall i :: 0 <= i < |trace| ==> WalkOfLength(g, start, trace[i].child, levels[i])
    ensures forall v :: v in Children(trace) ==> Reachable(g, start, v)
  {
    forall i | 0 <= i < |trace|
      ensures WalkOfLength(g, start, trace[i].child, levels[i])
    {
      LevelsAreWalks(g, start, trace, levels, i);
    }
    forall v | v in Children(trace)
      ensures Reachable(g, start, v)
    {
      var i :| 0 <= i < |trace| && Children(trace)[i] == v;
      assert WalkOfLength(g, start, trace[i].child, levels[i]);
    }
  }

  /**
   * What a successful traversal means: the reported vertices are exactly
   * those reachable from the start, and each report's level is the length of
   * a shortest walk to it.
   */
  lemma ShortestLevels<V(!new), E, Err>(g: V -> Result<seq<Neighbour<V, E>>, Err>, start: V, trace: seq<Visit<V>>, levels: seq<int>)
    requires Traced(g, start, trace, levels)
    requires forall p :: IsWalk(g, p) && p[0] == start ==> ReachedBy(trace, levels, p[|p| - 1], |p| - 1)
    ensures forall v :: v in Children(trace) <==> Reachable(g, start, v)
    ensures forall i :: 0 <= i < |trace| ==> WalkOfLength(g, start, trace[i].child, levels[i])
    ensures forall i, p :: 0 <= i < |trace| && IsWalk(g, p) && p[0] == start && p[|p| - 1] == trace[i].child ==> levels[i] <= |p| - 1
  {
    ReportedReachable(g, start, trace, levels);
    forall v | Reachable(g, start, v)
      ensures v in Children(trace)
    {
      var p :| IsWalk(g, p) && p[0] == start && p[|p| - 1] == v;
      var j :| 0 <= j < |trace| && j < |levels| && trace[j].child == v && levels[j] <= |p| - 1;
      assert Children(trace)[j] == v;
    }
    forall i, p | 0 <= i < |trace| && IsWalk(g, p) && p[0] == start && p[|p| - 1] == trace[i].child
      ensures levels[i] <= |p| - 1
    {
      var j :| 0 <= j < |trace| && j < |levels| && trace[j].child == trace[i].child && levels[j] <= |p| - 1;
      assert i == j;
    }
  }

  /**
   * `trace'`, `levels'`, `visited'` and `next'` extend `trace`, `levels`,
   * `visited` and `next` by reports of unseen vertices, each found from
   * report `q` and one level below it.
   */
  ghost predicate Extends<V(!new), E, Err>(g: V -> Result<seq<Neighbour<V, E>>, Err>, start: V, vertices: set<V>, q: int,
                                           trace: seq<Visit<V>>, levels: seq<int>, visited: set<V>, next: seq<V>,
                                           trace': seq<Visit<V>>, levels': seq<int>, visited': set<V>, next': seq<V>) {
    Traced(g, start, trace', levels') && trace <= trace' && levels <= levels' && 0 <= q < |trace| && q < |levels|
    && Marks(visited', trace') && visited <= visited' <= vertices
    && (forall i :: |trace| <= i < |trace'| ==>
          levels'[i] == levels[q] + 1 && trace'[i].parent == Some(trace[q].child) && trace'[i].child !in visited)
    && next' == next + Children(trace'[|trace|..])
  }

  /** Reporting one more unseen neighbour of report `q` keeps `Extends`. */
  lemma ExtendsStep<V(!new), E, Err>(g: V -> Result<seq<Neighbour<V, E>>, Err>, start: V, vertices: set<V>, q: int,
                                     trace: seq<Visit<V>>, levels: seq<int>, visited: set<V>, next: seq<V>,
                                     trace': seq<Visit<V>>, levels': seq<int>, visited': set<V>, next': seq<V>, v: V)
    requires Traced(g, start, trace, levels)
    requires Extends(g, start, vertices, q, trace, levels, visited, next, trace', levels', visited', next')
    requires levels[|trace| - 1] <= levels[q] + 1
    requires Adjacent(g, trace[q].child, v) && v !in visited' && v in vertices
    ensures Extends(g, start, vertices, q, trace, levels, visited, next,
                    trace' + [Visit(Some(trace[q].child), v)], levels' + [levels[q] + 1], visited' + {v}, next' + [v])
  {
    assert levels'[|trace'| - 1] <= levels[q] + 1 by {
      if |trace'| == |trace| {
        assert levels'[|trace'| - 1] == levels[|trace| - 1];
      }
    }
    assert trace'[q] == trace[q] && levels'[q] == levels[q];
    TracedAppend(g, start, trace', levels', q, v);
    var x := Visit(Some(trace[q].child), v);
    ChildrenAppend(trace', x);
    assert (trace' + [x])[|trace|..] == trace'[|trace|..] + [x];
    ChildrenAppend(trace'[|trace|..], x);
  }

  /**
   * graph_traversals.hpp:67-74: report every neighbour of `u` that has not been visited,
   * one level below `u`, mark it and append it to the next frontier.
   */
  method ExpandVertex<V(==, !new), E, Err>(g: V -> Result<seq<Neighbour<V, E>>, Err>, ghost start: V, ghost vertices: set<V>,
                                           u: V, ghost q: int, ns: seq<Neighbour<V, E>>,
                                           visited: set<V>, trace: seq<Visit<V>>, next: seq<V>, ghost levels: seq<int>)
    returns (visited': set<V>, trace': seq<Visit<V>>, next': seq<V>, ghost levels': seq<int>)
    requires Traced(g, start, trace, levels) && 0 <= q < |trace| && trace[q].child == u && g(u) == Success(ns)
    requires levels[|trace| - 1] <= levels[q] + 1
    requires Marks(visited, trace) && visited <= vertices && u in vertices && Closed(g, vertices)
    ensures Extends(g, start, vertices, q, trace, levels, visited, next, trace', levels', visited', next')
    ensures forall n :: n in ns ==> ReachedBy(trace', levels', n.vertex, levels[q] + 1)
  {
    visited', trace', next', levels' := visited, trace, next, levels;
    assert trace[|trace|..] == [];
    var m := 0;
    while m < |ns|
      invariant 0 <= m <= |ns|
      invariant Extends(g, start, vertices, q, trace, levels, visited, next, trace', levels', visited', next')
      invariant forall n :: n in ns[..m] ==> ReachedBy(trace', levels', n.vertex, levels[q] + 1)
    {
      var v := ns[m].vertex;
      assert ns[m] in ns;
      if v !in visited' {
        ExtendsStep(g, start, vertices, q, trace, levels, visited, next, trace', levels', visited', next', v);
        ghost var t, l := trace', levels';
        visited' := visited' + {v};
        next' := next' + [v];
        trace' := trace' + [Visit(Some(u), v)];
        levels' := levels' + [levels[q] + 1];
        forall n | n in ns[..m]
          ensures ReachedBy(trace', levels', n.vertex, levels[q] + 1)
        {
          ReachedByGrow(t, l, trace', levels', n.vertex, levels[q] + 1);
        }
        assert trace'[|trace'| - 1].child == v;
      } else {
        assert v in Children(trace');
      }
      assert ns[..m + 1] == ns[..m] + [ns[m]];
      m := m + 1;
    }
    assert ns[..m] == ns;
  }

  lemma SubsetSize<T>(a: set<T>, b: set<T>)
    requires a <= b
    ensures |a| <= |b|
    decreases b
  {
    if a != {} {
      var x :| x in a;
      assert b == (b - {x}) + {x};
      SubsetSize(a - {x}, b - {x});
    }
  }

  lemma SmallerSet<T>(a: set<T>, b: set<T>, x: T)
    requires a <= b && x in b && x !in a
    ensures |a| < |b|
  {
    assert b == (b - {x}) + {x};
    SubsetSize(a, b - {x});
  }

  /**
   * The state inside a round, after the first `f` vertices of the frontier
   * (reports `s` to `s + f - 1` of `trace`, all at level `k`) have been
   * expanded: `trace'` extends `trace` by reports of unseen vertices at level
   * `k + 1`, and `next` lists them.
   */
  ghost predicate Sweeping<V(!new), E, Err>(g: V -> Result<seq<Neighbour<V, E>>, Err>, start: V, vertices: set<V>, s: int, k: int,
                                            trace: seq<Visit<V>>, levels: seq<int>, visited: set<V>, f: int,
                                            trace': seq<Visit<V>>, levels': seq<int>, visited': set<V>, next: seq<V>) {
    Traced(g, start, trace, levels) && 0 <= s && 0 <= f && s + f <= |trace|
    && (forall i :: s <= i < |trace| ==> levels[i] == k)
    && Traced(g, start, trace', levels') && trace <= trace' && levels <= levels'
    && Marks(visited', trace') && visited <= visited' <= vertices
    && (forall i :: 0 <= i < s + f ==> Expanded(g, trace', levels', i))
    && (forall i :: |trace| <= i < |trace'| ==> levels'[i] == k + 1 && trace'[i].child !in visited)
    && next == Children(trace'[|trace|..])
  }

  /** What expanding report `s + f` needs: it is still in place, and nothing deeper than `k + 1` has been reported. */
  lemma SweepReady<V(!new), E, Err>(g: V -> Result<seq<Neighbour<V, E>>, Err>, start: V, vertices: set<V>, s: int, k: int,
                                    trace: seq<Visit<V>>, levels: seq<int>, visited: set<V>, f: int,
                                    trace': seq<Visit<V>>, levels': seq<int>, visited': set<V>, next: seq<V>)
    requires Sweeping(g, start, vertices, s, k, trace, levels, visited, f, trace', levels', visited', next)
    requires s + f < |trace|
    ensures trace'[s + f] == trace[s + f] && levels'[s + f] == k
    ensures trace[s + f].child in vertices
    ensures levels'[|trace'| - 1] <= levels'[s + f] + 1
  {
    assert trace'[s + f] == trace[s + f] && levels'[s + f] == levels[s + f];
    assert Children(trace')[s + f] == trace[s + f].child;
    if |trace'| == |trace| {
      assert levels'[|trace'| - 1] == levels[|trace| - 1];
    }
  }

  /** Expanding report `s + f` moves the round on by one vertex. */
  lemma SweepStep<V(!new), E, Err>(g: V -> Result<seq<Neighbour<V, E>>, Err>, start: V, vertices: set<V>, s: int, k: int,
                                   trace: seq<Visit<V>>, levels: seq<int>, visited: set<V>, f: int,
                                   trace': seq<Visit<V>>, levels': seq<int>, visited': set<V>, next: seq<V>,
                                   trace'': seq<Visit<V>>, levels'': seq<int>, visited'': set<V>, next': seq<V>)
    requires Sweeping(g, start, vertices, s, k, trace, levels, visited, f, trace', levels', visited', next)
    requires s + f < |trace| && trace'[s + f] == trace[s + f] && levels'[s + f] == k
    requires g(trace[s + f].child).Success?
    requires Extends(g, start, vertices, s + f, trace', levels', visited', next, trace'', levels'', visited'', next')
    requires forall n :: n in g(trace[s + f].child).value ==> ReachedBy(trace'', levels'', n.vertex, k + 1)
    ensures Sweeping(g, start, vertices, s, k, trace, levels, visited, f + 1, trace'', levels'', visited'', next')
  {
    ChildrenSuffix(trace', trace'', |trace|);
    forall i | 0 <= i < s + f
      ensures Expanded(g, trace'', levels'', i)
    {
      ExpandedGrow(g, trace', levels', trace'', levels'', i);
    }
    assert trace''[s + f] == trace[s + f] && levels''[s + f] == k;
    assert Expanded(g, trace'', levels'', s + f);
  }

  /**
   * graph_traversals.hpp:61-75: one round of the traversal. Every vertex of the frontier is
   * expanded in turn; the first `get_neighbours` that fails stops the round
   * with its error. After a complete round the next frontier holds the
   * reports of level `k + 1`, and it is empty exactly when nothing new was
   * visited.
   */
  method ExpandFrontier<V(==, !new), E, Err>(g: V -> Result<seq<Neighbour<V, E>>, Err>, ghost start: V, ghost vertices: set<V>,
                                             frontier: seq<V>, ghost s: int, ghost k: int,
                                             visited: set<V>, trace: seq<Visit<V>>, ghost levels: seq<int>)
    returns (r: Result<Unit, Err>, visited': set<V>, trace': seq<Visit<V>>, next: seq<V>, ghost levels': seq<int>)
    requires Layered(g, start, trace, levels, frontier, s, k)
    requires Marks(visited, trace) && visited <= vertices && Closed(g, vertices)
    ensures Traced(g, start, trace', levels')
    ensures r.Failure? ==> exists i :: 0 <= i < |trace'| && g(trace'[i].child) == Failure(r.error)
    ensures r.Success? ==> Layered(g, start, trace', levels', next, |trace|, k + 1)
    ensures r.Success? ==> Marks(visited', trace') && visited <= visited' <= vertices
    ensures r.Success? ==> (forall v :: v in next ==> v in visited' && v !in visited)
    ensures r.Success? ==> (next == [] ==> visited' == visited)
  {
    visited', trace', levels' := visited, trace, levels;
    next := [];
    assert trace[|trace|..] == [];
    var f := 0;
    while f < |frontier|
      invariant 0 <= f <= |frontier| && s + |frontier| == |trace|
      invariant Sweeping(g, start, vertices, s, k, trace, levels, visited, f, trace', levels', visited', next)
    {
      var u := frontier[f];
      SweepReady(g, start, vertices, s, k, trace, levels, visited, f, trace', levels', visited', next);
      var res := g(u);
      if res.Failure? {
        r := Failure(res.error);
        return;
      }
      var visited'', trace'', next';
      ghost var levels'';
      visited'', trace'', next', levels'' := ExpandVertex(g, start, vertices, u, s + f, res.value, visited', trace', next, levels');
      SweepStep(g, start, vertices, s, k, trace, levels, visited, f, trace', levels', visited', next,
                trace'', levels'', visited'', next');
      visited', trace', next, levels' := visited'', trace'', next', levels'';
      f := f + 1;
    }
    forall i | s <= i < |trace|
      ensures levels'[i] < k + 1
    {
      assert levels'[i] == levels[i];
    }
    forall v | v in next
      ensures v in visited' && v !in visited
    {
      var i :| 0 <= i < |next| && next[i] == v;
      assert trace'[|trace| + i].child == v;
      assert Children(trace')[|trace| + i] == v;
    }
    if next == [] {
      assert trace' == trace;
    }
    r := Success(Unit);
  }

  /**
   * `bfs(graph, start, visit_callback)`. The callback is called with
   * `(None, start)` first; the frontier is then expanded level by level until
   * it is empty, and the first `get_neighbours` that fails ends the traversal
   * with its error.
   *
   * `vertices` is a finite set of vertices that holds `start` and every
   * neighbour of its members: it exists for every finite graph, and bounds
   * the number of rounds.
   */
  method Bfs<V(==, !new), E, Err>(g: V -> Result<seq<Neighbour<V, E>>, Err>, ghost vertices: set<V>, start: V)
    returns (r: Result<Unit, Err>, trace: seq<Visit<V>>, ghost levels: seq<int>)
    requires start in vertices && Closed(g, vertices)
    ensures Traced(g, start, trace, levels)
    ensures r.Failure? ==> exists i :: 0 <= i < |trace| && g(trace[i].child) == Failure(r.error)
    ensures r.Success? ==> forall p :: IsWalk(g, p) && p[0] == start ==> ReachedBy(trace, levels, p[|p| - 1], |p| - 1)
    ensures r.Success? ==> forall v :: v in Children(trace) <==> Reachable(g, start, v)
  {
    var visited := {start};
    var frontier := [start];
    trace := [Visit(None, start)];
    levels := [0];
    ghost var s, k := 0, 0;
    while |frontier| > 0
      invariant Layered(g, start, trace, levels, frontier, s, k)
      invariant Marks(visited, trace) && visited <= vertices
      decreases |vertices - visited|, |frontier|
    {
      ghost var t0, visited0 := |trace|, visited;
      var res, next;
      res, visited, trace, next, levels := ExpandFrontier(g, start, vertices, frontier, s, k, visited, trace, levels);
      if res.Failure? {
        r := Failure(res.error);
        return;
      }
      if next != [] {
        SmallerSet(vertices - visited, vertices - visited0, next[0]);
      }
      frontier := next;
      s, k := t0, k + 1;
    }
    forall p | IsWalk(g, p) && p[0] == start
      ensures ReachedBy(trace, levels, p[|p| - 1], |p| - 1)
    {
      WalksReached(g, start, trace, levels, p);
    }
    ShortestLevels(g, start, trace, levels);
    r := Success(Unit);
  }
}

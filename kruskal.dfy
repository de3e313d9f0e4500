/**
 * `kruskal` (thesoup/algorithms/kruskal.hpp): copies the edges, collects
 * their endpoints, sorts the edges by weight, and keeps an edge exactly
 * when a `DisjointSets` over the endpoints says its two ends are still in
 * different sets, merging those sets.
 *
 * Edges are taken as undirected, as the union-find treats them.  Weights
 * are integers.
 */
module Kruskal {
  import opened Common
  import opened GraphTypes
  import opened DisjointSets

  type WeightedEdge<V> = Edge<V, int>

  // ------------------------------------------------------------ connectivity

  /** `e` joins `x` and `y`, in either direction. */
  ghost predicate Joins<V>(e: WeightedEdge<V>, x: V, y: V)
  {
    (e.from == x && e.to == y) || (e.from == y && e.to == x)
  }

  /** Some edge of `es` joins `x` and `y`. */
  ghost predicate Linked<V>(es: seq<WeightedEdge<V>>, x: V, y: V)
  {
    exists e | e in es :: Joins(e, x, y)
  }

  /** Consecutive vertices of `p` are joined by edges of `es`. */
  ghost predicate IsPath<V>(es: seq<WeightedEdge<V>>, p: seq<V>)
  {
    |p| >= 1 && forall i :: 0 <= i < |p| - 1 ==> Linked(es, p[i], p[i + 1])
  }

  /** `x` and `y` are connected by edges of `es`. */
  ghost predicate Connected<V(!new)>(es: seq<WeightedEdge<V>>, x: V, y: V)
  {
    exists p :: IsPath(es, p) && p[0] == x && p[|p| - 1] == y
  }

  lemma ConnectedRefl<V(!new)>(es: seq<WeightedEdge<V>>, x: V)
    ensures Connected(es, x, x)
  {
    assert IsPath(es, [x]);
  }

  lemma ConnectedEdge<V(!new)>(es: seq<WeightedEdge<V>>, e: WeightedEdge<V>)
    requires e in es
    ensures Connected(es, e.from, e.to) && Connected(es, e.to, e.from)
  {
    assert Linked(es, e.from, e.to) && Linked(es, e.to, e.from);
    assert IsPath(es, [e.from, e.to]) && IsPath(es, [e.to, e.from]);
  }

  lemma ConnectedSym<V(!new)>(es: seq<WeightedEdge<V>>, x: V, y: V)
    requires Connected(es, x, y)
    ensures Connected(es, y, x)
  {
    var p :| IsPath(es, p) && p[0] == x && p[|p| - 1] == y;
    var q := seq(|p|, i requires 0 <= i < |p| => p[|p| - 1 - i]);
    forall i | 0 <= i < |q| - 1
      ensures Linked(es, q[i], q[i + 1])
    {
      var j := |p| - 2 - i;
      assert Linked(es, p[j], p[j + 1]);
      var e :| e in es && Joins(e, p[j], p[j + 1]);
      assert Joins(e, q[i], q[i + 1]);
    }
    assert IsPath(es, q);
  }

  lemma ConnectedTrans<V(!new)>(es: seq<WeightedEdge<V>>, x: V, y: V, z: V)
    requires Connected(es, x, y) && Connected(es, y, z)
    ensures Connected(es, x, z)
  {
    var p :| IsPath(es, p) && p[0] == x && p[|p| - 1] == y;
    var q :| IsPath(es, q) && q[0] == y && q[|q| - 1] == z;
    var r := p + q[1..];
    forall i | 0 <= i < |r| - 1
      ensures Linked(es, r[i], r[i + 1])
    {
      if i < |p| - 1 {
        assert r[i] == p[i] && r[i + 1] == p[i + 1];
      } else {
        var j := i - (|p| - 1);
        assert r[i] == q[j] && r[i + 1] == q[j + 1];
      }
    }
    assert IsPath(es, r);
  }

  /** More edges connect at least as much. */
  lemma ConnectedMono<V(!new)>(es: seq<WeightedEdge<V>>, fs: seq<WeightedEdge<V>>, x: V, y: V)
    requires Connected(es, x, y) && forall e :: e in es ==> e in fs
    ensures Connected(fs, x, y)
  {
    var p :| IsPath(es, p) && p[0] == x && p[|p| - 1] == y;
    assert IsPath(fs, p);
  }

  /**
   * When every edge of `es` joins two elements with the same leader,
   * connected vertices have the same leader.
   */
  lemma {:induction false} ConnectedSameLeader<V(!new)>(es: seq<WeightedEdge<V>>, leaders: map<V, V>, x: V, y: V)
    requires forall e :: e in es ==> e.from in leaders && e.to in leaders && leaders[e.from] == leaders[e.to]
    requires x in leaders && Connected(es, x, y)
    ensures y in leaders && leaders[y] == leaders[x]
  {
    var p :| IsPath(es, p) && p[0] == x && p[|p| - 1] == y;
    var i := 0;
    while i < |p| - 1
      invariant 0 <= i <= |p| - 1 && p[i] in leaders && leaders[p[i]] == leaders[x]
    {
      assert Linked(es, p[i], p[i + 1]);
      i := i + 1;
    }
  }

  // ----------------------------------------------------------- edge lists

  /** The endpoints of the edges of `es`. */
  function Endpoints<V(==,!new)>(es: seq<WeightedEdge<V>>): (vs: set<V>)
    ensures forall e :: e in es ==> e.from in vs && e.to in vs
    ensures forall v :: v in vs ==> exists e :: e in es && (e.from == v || e.to == v)
  {
    if es == [] then {}
    else
      var last := es[|es| - 1];
      assert forall e :: e in es[..|es| - 1] ==> e in es;
      assert forall e :: e in es ==> e in es[..|es| - 1] || e == last;
      Endpoints(es[..|es| - 1]) + {last.from, last.to}
  }

  /** The weights of `es` never decrease. */
  predicate SortedByWeight<V(==,!new)>(es: seq<WeightedEdge<V>>)
  {
    forall i, j :: 0 <= i < j < |es| ==> es[i].edgeType <= es[j].edgeType
  }

  /** The edges of `es` of weight at most `w`, in order. */
  function NoHeavierThan<V>(es: seq<WeightedEdge<V>>, w: int): (r: seq<WeightedEdge<V>>)
    ensures forall e :: e in r ==> e in es && e.edgeType <= w
    ensures forall e :: e in es && e.edgeType <= w ==> e in r
  {
    if |es| == 0 then []
    else
      var rest := NoHeavierThan(es[..|es| - 1], w);
      var last := es[|es| - 1];
      assert forall e :: e in es ==> e in es[..|es| - 1] || e == last;
      assert forall e :: e in es[..|es| - 1] ==> e in es;
      if last.edgeType <= w then rest + [last] else rest
  }

  /**
   * The cycle condition of a minimum spanning forest: the ends of every
   * edge of `seen` are connected through kept edges no heavier than it.
   */
  ghost predicate CycleOptimal<V(!new)>(kept: seq<WeightedEdge<V>>, seen: seq<WeightedEdge<V>>)
  {
    forall e :: e in seen ==> Connected(NoHeavierThan(kept, e.edgeType), e.from, e.to)
  }

  /**
   * The `for_each` that collects the endpoints into an `unordered_set`: the
   * vertex set is exactly the set of endpoints.
   */
  method CollectVertices<V(==,!new)>(edges: seq<WeightedEdge<V>>) returns (vertices: set<V>)
    ensures vertices == Endpoints(edges)
  {
    vertices := {};
    for i := 0 to |edges|
      invariant vertices == Endpoints(edges[..i])
    {
      assert edges[..i + 1][..i] == edges[..i];
      vertices := vertices + {edges[i].from};
      vertices := vertices + {edges[i].to};
    }
    assert edges[..|edges|] == edges;
  }

  /** The elements of a set, each once, in some order (the iteration of an `unordered_set`). */
  method Elements<V(==,!new)>(s: set<V>) returns (xs: seq<V>)
    ensures forall x :: x in xs <==> x in s
  {
    xs := [];
    var rest := s;
    while rest != {}
      invariant rest <= s
      invariant forall x :: x in xs <==> x in s - rest
      decreases |rest|
    {
      var x :| x in rest;
      xs := xs + [x];
      rest := rest - {x};
    }
  }

  /**
   * `std::sort` by weight, as an insertion sort: the result is sorted and a
   * permutation of the input.  `std::sort` may order edges of equal weight
   * in any way; the selection below is proved for every sorted permutation.
   */
  method SortByWeight<V(==,!new)>(edges: seq<WeightedEdge<V>>) returns (sorted: seq<WeightedEdge<V>>)
    ensures SortedByWeight(sorted) && multiset(sorted) == multiset(edges)
  {
    sorted := [];
    for i := 0 to |edges|
      invariant SortedByWeight(sorted) && multiset(sorted) == multiset(edges[..i])
    {
      sorted := Insert(sorted, edges[i]);
      assert edges[..i + 1] == edges[..i] + [edges[i]];
    }
    assert edges[..|edges|] == edges;
  }

  /** Inserts `e` after every edge no heavier than it. */
  method Insert<V(==,!new)>(sorted: seq<WeightedEdge<V>>, e: WeightedEdge<V>) returns (r: seq<WeightedEdge<V>>)
    requires SortedByWeight(sorted)
    ensures SortedByWeight(r) && multiset(r) == multiset(sorted) + multiset{e}
  {
    var k := 0;
    while k < |sorted| && sorted[k].edgeType <= e.edgeType
      invariant 0 <= k <= |sorted|
      invariant forall j :: 0 <= j < k ==> sorted[j].edgeType <= e.edgeType
    {
      k := k + 1;
    }
    r := sorted[..k] + [e] + sorted[k..];
    InsertAt(sorted, k, e);
    InsertItems(sorted, k, e);
  }

  /** Placing `e` after the edges no heavier than it, and before the rest, keeps the order. */
  lemma InsertAt<V(!new)>(sorted: seq<WeightedEdge<V>>, k: nat, e: WeightedEdge<V>)
    requires SortedByWeight(sorted) && k <= |sorted|
    requires forall j :: 0 <= j < k ==> sorted[j].edgeType <= e.edgeType
    requires k < |sorted| ==> e.edgeType < sorted[k].edgeType
    ensures SortedByWeight(sorted[..k] + [e] + sorted[k..])
  {
    var r := sorted[..k] + [e] + sorted[k..];
    forall i, j | 0 <= i < j < |r|
      ensures r[i].edgeType <= r[j].edgeType
    {
      if j < k {
        assert r[i] == sorted[i] && r[j] == sorted[j];
      } else if j == k {
        assert r[i] == sorted[i] && r[j] == e;
      } else if i < k {
        assert r[i] == sorted[i] && r[j] == sorted[j - 1];
      } else if i == k {
        assert r[i] == e && r[j] == sorted[j - 1];
        assert sorted[k].edgeType <= sorted[j - 1].edgeType;
      } else {
        assert r[i] == sorted[i - 1] && r[j] == sorted[j - 1];
      }
    }
  }

  /** Splitting a sequence at `k` and putting `x` in between adds `x` to its items. */
  lemma InsertItems<X>(xs: seq<X>, k: nat, x: X)
    requires k <= |xs|
    ensures multiset(xs[..k] + [x] + xs[k..]) == multiset(xs) + multiset{x}
  {
    assert xs == xs[..k] + xs[k..];
  }

  // ------------------------------------------------------------- selection

  /**
   * What the selection loop keeps true over the edges it has seen:
   * the leader map covers exactly the vertices; two vertices have one
   * leader exactly when the kept edges connect them; every kept edge joined
   * two unconnected vertices when it was kept; the kept edges plus the
   * sets account for all vertices; every seen edge now lies inside one set.
   */
  ghost predicate Selecting<V(!new)>(vertices: set<V>, leaders: map<V, V>, kept: seq<WeightedEdge<V>>, seen: seq<WeightedEdge<V>>)
  {
    && leaders.Keys == vertices
    && (forall e :: e in kept ==> e.from in vertices && e.to in vertices)
    && (forall x, y :: x in vertices && y in vertices ==> (leaders[x] == leaders[y] <==> Connected(kept, x, y)))
    && (forall j :: 0 <= j < |kept| ==> !Connected(kept[..j], kept[j].from, kept[j].to))
    && |kept| + |leaders.Values| == |vertices|
    && (forall e :: e in seen ==> e.from in vertices && e.to in vertices && leaders[e.from] == leaders[e.to])
  }

  /**
   * The cycle condition survives one more edge `f` that weighs at least as
   * much as every kept edge, whether `f` is kept or its ends are already
   * connected.
   */
  lemma CycleStep<V(!new)>(kept: seq<WeightedEdge<V>>, seen: seq<WeightedEdge<V>>, f: WeightedEdge<V>, taken: bool)
    requires CycleOptimal(kept, seen)
    requires forall e :: e in kept ==> e.edgeType <= f.edgeType
    requires taken || Connected(kept, f.from, f.to)
    ensures CycleOptimal(if taken then kept + [f] else kept, seen + [f])
  {
    var kept' := if taken then kept + [f] else kept;
    forall e | e in seen + [f]
      ensures Connected(NoHeavierThan(kept', e.edgeType), e.from, e.to)
    {
      var lighter, lighter' := NoHeavierThan(kept, e.edgeType), NoHeavierThan(kept', e.edgeType);
      assert forall g :: g in lighter ==> g in lighter';
      if e in seen {
        ConnectedMono(lighter, lighter', e.from, e.to);
      } else if taken {
        assert f in lighter';
        ConnectedEdge(lighter', f);
      } else {
        assert forall g :: g in kept ==> g in lighter';
        ConnectedMono(kept, lighter', e.from, e.to);
      }
    }
  }

  /** Nothing has been seen at the start. */
  lemma CycleStart<V(!new)>()
    ensures CycleOptimal<V>([], [])
  {
  }

  /** At the start every vertex leads its own set and nothing is kept. */
  lemma SelectingStart<V(!new)>(vertices: set<V>, leaders: map<V, V>)
    requires leaders.Keys == vertices && forall x :: x in leaders ==> leaders[x] == x
    ensures Selecting(vertices, leaders, [], [])
  {
    assert leaders.Values == vertices by {
      forall v | v in vertices ensures v in leaders.Values {
        assert leaders[v] == v;
      }
    }
    forall x | x in vertices ensures Connected([], x, x) {
      ConnectedRefl([], x);
    }
    forall x, y | x in vertices && y in vertices && Connected([], x, y)
      ensures x == y
    {
      var p :| IsPath([], p) && p[0] == x && p[|p| - 1] == y;
      assert |p| == 1 || Linked([], p[0], p[1]);
    }
  }

  /** An edge whose ends already share a leader is skipped. */
  lemma SelectingSkip<V(!new)>(vertices: set<V>, leaders: map<V, V>, kept: seq<WeightedEdge<V>>, seen: seq<WeightedEdge<V>>, e: WeightedEdge<V>)
    requires Selecting(vertices, leaders, kept, seen)
    requires e.from in vertices && e.to in vertices && leaders[e.from] == leaders[e.to]
    ensures Selecting(vertices, leaders, kept, seen + [e])
  {
  }

  /**
   * An edge whose ends have different leaders is kept and the two sets
   * merged: the invariant holds for the merged leaders.
   */
  lemma {:induction false} SelectingKeep<V(!new)>(vertices: set<V>, leaders: map<V, V>, kept: seq<WeightedEdge<V>>,
                                            seen: seq<WeightedEdge<V>>, e: WeightedEdge<V>, sets: map<V, set<V>>)
    requires Selecting(vertices, leaders, kept, seen) && Partition(sets, leaders)
    requires e.from in vertices && e.to in vertices && leaders[e.from] != leaders[e.to]
    ensures Selecting(vertices, Merged(leaders, leaders[e.from], leaders[e.to]), kept + [e], seen + [e])
  {
    var la, lb := leaders[e.from], leaders[e.to];
    var m := Merged(leaders, la, lb);
    var kept' := kept + [e];
    assert la in sets && leaders[la] == la;
    assert forall f :: f in kept ==> f in kept';
    // the connectivity equivalence
    forall x, y | x in vertices && y in vertices
      ensures m[x] == m[y] <==> Connected(kept', x, y)
    {
      MergedClasses(leaders, la, lb, x, y);
      if m[x] == m[y] {
        KeepConnects(vertices, leaders, kept, seen, e, x, y);
      } else if Connected(kept', x, y) {
        forall f | f in kept'
          ensures f.from in m && f.to in m && m[f.from] == m[f.to]
        {
          if f != e {
            assert f in kept;
            ConnectedEdge(kept, f);
          }
        }
        ConnectedSameLeader(kept', m, x, y);
        assert false;
      }
    }
    // the new edge joined two unconnected vertices
    forall j | 0 <= j < |kept'|
      ensures !Connected(kept'[..j], kept'[j].from, kept'[j].to)
    {
      if j < |kept| {
        assert kept'[..j] == kept[..j] && kept'[j] == kept[j];
      } else {
        assert kept'[..j] == kept && kept'[j] == e;
      }
    }
    // one set fewer
    assert la in leaders.Values && lb in leaders.Values;
    MergedCount(leaders, la, lb);
    // every seen edge, and the new one, lies inside one set
    forall f | f in seen + [e]
      ensures f.from in vertices && f.to in vertices && m[f.from] == m[f.to]
    {
    }
  }

  /** After keeping `e`, vertices whose merged leaders agree are connected by the kept edges. */
  lemma KeepConnects<V(!new)>(vertices: set<V>, leaders: map<V, V>, kept: seq<WeightedEdge<V>>,
                        seen: seq<WeightedEdge<V>>, e: WeightedEdge<V>, x: V, y: V)
    requires Selecting(vertices, leaders, kept, seen)
    requires e.from in vertices && e.to in vertices && leaders[e.from] != leaders[e.to]
    requires x in vertices && y in vertices
    requires leaders[x] == leaders[y] || (leaders[x] in {leaders[e.from], leaders[e.to]} && leaders[y] in {leaders[e.from], leaders[e.to]})
    ensures Connected(kept + [e], x, y)
  {
    var kept' := kept + [e];
    assert forall f :: f in kept ==> f in kept';
    var la, lb := leaders[e.from], leaders[e.to];
    if leaders[x] == leaders[y] {
      ConnectedMono(kept, kept', x, y);
    } else {
      ConnectedEdge(kept', e);
      var (u, v) := if leaders[x] == la then (e.from, e.to) else (e.to, e.from);
      assert leaders[x] == leaders[u] && leaders[y] == leaders[v];
      ConnectedMono(kept, kept', x, u);
      ConnectedMono(kept, kept', v, y);
      ConnectedTrans(kept', x, u, v);
      ConnectedTrans(kept', x, v, y);
    }
  }

  /**
   * Kruskal's selection over the sorted edges: an edge is kept exactly when
   * its ends are in different sets, which are then merged.
   */
  method Select<V(==,!new)>(vertices: set<V>, sorted: seq<WeightedEdge<V>>) returns (retval: seq<WeightedEdge<V>>, ghost leaders: map<V, V>)
    requires forall e :: e in sorted ==> e.from in vertices && e.to in vertices
    requires SortedByWeight(sorted)
    ensures Selecting(vertices, leaders, retval, sorted)
    ensures CycleOptimal(retval, sorted)
    ensures exists idx: seq<int> :: IsSubsequence(retval, sorted, idx)
  {
    var elements := Elements(vertices);
    var ds := new DisjointSets(elements);
    assert ds.setLeaders.Keys == vertices;
    SelectingStart(vertices, ds.setLeaders);
    CycleStart<V>();
    retval := [];
    ghost var idx: seq<int> := [];
    ghost var seen: seq<WeightedEdge<V>> := [];
    for i := 0 to |sorted|
      invariant seen == sorted[..i]
      invariant ds.Valid() && Selecting(vertices, ds.setLeaders, retval, seen)
      invariant IsSubsequence(retval, seen, idx)
      invariant CycleOptimal(retval, seen)
    {
      retval, idx := SelectStep(ds, vertices, sorted, i, seen, retval, idx);
      seen := seen + [sorted[i]];
    }
    assert sorted[..|sorted|] == sorted;
    leaders := ds.setLeaders;
  }

  /**
   * One turn of the selection loop over `sorted[i]`: the kept edges and the
   * sets keep the invariants of the selection, now over one more edge seen.
   */
  method SelectStep<V(==,!new)>(ds: DisjointSets<V>, ghost vertices: set<V>, sorted: seq<WeightedEdge<V>>, i: nat,
                                ghost seen: seq<WeightedEdge<V>>, kept: seq<WeightedEdge<V>>, ghost idx: seq<int>)
    returns (kept': seq<WeightedEdge<V>>, ghost idx': seq<int>)
    requires forall e :: e in sorted ==> e.from in vertices && e.to in vertices
    requires SortedByWeight(sorted) && i < |sorted| && seen == sorted[..i]
    requires ds.Valid() && Selecting(vertices, ds.setLeaders, kept, seen)
    requires IsSubsequence(kept, seen, idx) && CycleOptimal(kept, seen)
    modifies ds
    ensures seen + [sorted[i]] == sorted[..i + 1]
    ensures ds.Valid() && Selecting(vertices, ds.setLeaders, kept', seen + [sorted[i]])
    ensures IsSubsequence(kept', seen + [sorted[i]], idx') && CycleOptimal(kept', seen + [sorted[i]])
  {
    var taken := SelectEdge(ds, vertices, kept, seen, sorted[i]);
    SelectTurn(sorted, i, seen, kept, idx, taken);
    kept' := if taken then kept + [sorted[i]] else kept;
    idx' := if taken then idx + [i] else idx;
  }

  /**
   * One turn of the selection loop: `edge` is taken exactly when its ends
   * have different leaders, and then their sets are merged.
   */
  method SelectEdge<V(==,!new)>(ds: DisjointSets<V>, ghost vertices: set<V>, ghost kept: seq<WeightedEdge<V>>,
                                ghost seen: seq<WeightedEdge<V>>, edge: WeightedEdge<V>) returns (taken: bool)
    requires ds.Valid() && Selecting(vertices, ds.setLeaders, kept, seen)
    requires edge.from in vertices && edge.to in vertices
    modifies ds
    ensures taken <==> old(ds.setLeaders[edge.from] != ds.setLeaders[edge.to])
    ensures ds.Valid()
    ensures Selecting(vertices, ds.setLeaders, if taken then kept + [edge] else kept, seen + [edge])
    ensures !taken ==> Connected(kept, edge.from, edge.to)
  {
    var lf := ds.GetSetLeader(edge.from);
    var lt := ds.GetSetLeader(edge.to);
    taken := lf.value != lt.value;
    if taken {
      SelectingKeep(vertices, ds.setLeaders, kept, seen, edge, ds.sets);
      var _ := ds.MergeSets(edge.from, edge.to);
    } else {
      SelectingSkip(vertices, ds.setLeaders, kept, seen, edge);
    }
  }

  /**
   * What one turn of the selection loop keeps for the kept edges: they stay
   * a subsequence of the edges seen, and every edge seen stays connected by
   * the kept edges no heavier than it.
   */
  lemma SelectTurn<V(!new)>(sorted: seq<WeightedEdge<V>>, i: nat, seen: seq<WeightedEdge<V>>,
                            kept: seq<WeightedEdge<V>>, idx: seq<int>, taken: bool)
    requires SortedByWeight(sorted) && i < |sorted| && seen == sorted[..i]
    requires IsSubsequence(kept, seen, idx) && CycleOptimal(kept, seen)
    requires taken || Connected(kept, sorted[i].from, sorted[i].to)
    ensures seen + [sorted[i]] == sorted[..i + 1]
    ensures IsSubsequence(if taken then kept + [sorted[i]] else kept, seen + [sorted[i]], if taken then idx + [i] else idx)
    ensures CycleOptimal(if taken then kept + [sorted[i]] else kept, seen + [sorted[i]])
  {
    assert sorted[..i + 1] == sorted[..i] + [sorted[i]];
    SubsequenceBound(kept, sorted, i, idx);
    CycleStep(kept, seen, sorted[i], taken);
    SubsequenceStep(kept, seen, idx, sorted[i], taken);
  }

  /** `xs` is the subsequence of `ys` at the strictly increasing positions `idx`. */
  ghost predicate IsSubsequence<T>(xs: seq<T>, ys: seq<T>, idx: seq<int>)
  {
    && |idx| == |xs|
    && (forall j :: 0 <= j < |idx| ==> 0 <= idx[j] < |ys| && xs[j] == ys[idx[j]])
    && (forall j, k :: 0 <= j < k < |idx| ==> idx[j] < idx[k])
  }

  // -------------------------------------------------------------- kruskal

  /**
   * `kruskal`: the kept edges are input edges, in non-decreasing weight,
   * each joining two vertices the earlier ones did not connect (a forest),
   * and they connect exactly the endpoint pairs the input connects; `leaders`
   * names one leader per tree, so the forest has one edge fewer than
   * vertices per tree.
   */
  method Kruskal<V(==,!new)>(input: seq<WeightedEdge<V>>) returns (retval: seq<WeightedEdge<V>>, ghost leaders: map<V, V>)
    ensures multiset(retval) <= multiset(input)
    ensures SortedByWeight(retval)
    ensures forall j :: 0 <= j < |retval| ==> !Connected(retval[..j], retval[j].from, retval[j].to)
    ensures forall x, y :: x in Endpoints(input) && y in Endpoints(input) ==>
              (Connected(retval, x, y) <==> Connected(input, x, y))
    ensures leaders.Keys == Endpoints(input) && |retval| + |leaders.Values| == |Endpoints(input)|
    ensures forall e :: e in input ==> Connected(NoHeavierThan(retval, e.edgeType), e.from, e.to)
    ensures (forall x, y :: x in Endpoints(input) && y in Endpoints(input) ==> Connected(input, x, y))
            ==> |retval| == |Endpoints(input)| - 1 || input == []
  {
    var edges := input;
    var vertices := CollectVertices(edges);
    var sorted := SortByWeight(edges);
    assert forall e :: e in sorted <==> e in input by {
      forall e ensures e in sorted <==> e in input {
        assert e in sorted <==> e in multiset(sorted);
      }
    }
    ghost var idx: seq<int>;
    retval, leaders := Select(vertices, sorted);
    idx :| IsSubsequence(retval, sorted, idx);
    SubsequenceFacts(retval, sorted, idx);
    assert forall e :: e in retval ==> e in input by {
      forall e | e in retval ensures e in input {
        assert e in multiset(retval);
      }
    }
    SameConnectivity(input, vertices, sorted, retval, leaders);
  }

  /**
   * The selection connects what the input connects: every input edge lies
   * inside one set, and the kept edges are input edges.
   */
  lemma SameConnectivity<V(!new)>(input: seq<WeightedEdge<V>>, vertices: set<V>, sorted: seq<WeightedEdge<V>>,
                                  retval: seq<WeightedEdge<V>>, leaders: map<V, V>)
    requires Selecting(vertices, leaders, retval, sorted)
    requires forall e :: e in sorted <==> e in input
    requires forall e :: e in retval ==> e in input
    requires vertices == Endpoints(input)
    ensures forall x, y :: x in vertices && y in vertices ==> (Connected(retval, x, y) <==> Connected(input, x, y))
    ensures (forall x, y :: x in vertices && y in vertices ==> Connected(input, x, y))
            ==> |retval| == |vertices| - 1 || input == []
  {
    forall x, y | x in vertices && y in vertices
      ensures Connected(retval, x, y) <==> Connected(input, x, y)
    {
      if Connected(input, x, y) {
        ConnectedSameLeader(input, leaders, x, y);
      }
      if Connected(retval, x, y) {
        ConnectedMono(retval, input, x, y);
      }
    }
    if input != [] && forall x, y :: x in vertices && y in vertices ==> Connected(input, x, y) {
      var r := input[0].from;
      assert r in vertices;
      forall x | x in vertices ensures leaders[x] == leaders[r] {
        assert Connected(input, x, r);
        assert Connected(retval, x, r);
      }
      OneTree(vertices, leaders, r);
    }
  }

  /** When every vertex shares the leader of `r`, there is exactly one set. */
  lemma OneTree<V>(vertices: set<V>, leaders: map<V, V>, r: V)
    requires leaders.Keys == vertices && r in vertices
    requires forall x :: x in vertices ==> leaders[x] == leaders[r]
    ensures |leaders.Values| == 1
  {
    assert leaders.Values == {leaders[r]};
  }

  /** Every element of a subsequence of the first `i` sorted edges weighs at most the `i`-th. */
  lemma SubsequenceBound<V(!new)>(xs: seq<WeightedEdge<V>>, ys: seq<WeightedEdge<V>>, i: int, idx: seq<int>)
    requires SortedByWeight(ys) && 0 <= i < |ys| && IsSubsequence(xs, ys[..i], idx)
    ensures forall e :: e in xs ==> e.edgeType <= ys[i].edgeType
  {
    forall e | e in xs ensures e.edgeType <= ys[i].edgeType {
      var j :| 0 <= j < |xs| && xs[j] == e;
      assert ys[..i][idx[j]] == ys[idx[j]];
    }
  }

  /** Appending `y` to `ys` extends the subsequence by `y` when it is taken, and keeps it otherwise. */
  lemma SubsequenceStep<T>(xs: seq<T>, ys: seq<T>, idx: seq<int>, y: T, taken: bool)
    requires IsSubsequence(xs, ys, idx)
    ensures IsSubsequence(if taken then xs + [y] else xs, ys + [y], if taken then idx + [|ys|] else idx)
  {
  }

  /** A subsequence of a sorted sequence is sorted and a sub-multiset. */
  lemma {:induction false} SubsequenceFacts<V(!new)>(xs: seq<WeightedEdge<V>>, ys: seq<WeightedEdge<V>>, idx: seq<int>)
    requires IsSubsequence(xs, ys, idx) && SortedByWeight(ys)
    ensures SortedByWeight(xs) && multiset(xs) <= multiset(ys)
  {
    if |xs| > 0 {
      var n := |xs| - 1;
      var k := idx[n];
      assert IsSubsequence(xs[..n], ys[..k], idx[..n]);
      assert SortedByWeight(ys[..k]);
      SubsequenceFacts(xs[..n], ys[..k], idx[..n]);
      assert xs == xs[..n] + [ys[k]];
      assert ys == ys[..k] + [ys[k]] + ys[k + 1..];
      assert multiset(ys) == multiset(ys[..k]) + multiset{ys[k]} + multiset(ys[k + 1..]);
    }
  }
}

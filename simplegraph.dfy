/**
 * `SimpleWeightedGraph` (thesoup/types/simplegraph.hpp): a directed graph
 * kept as an adjacency map from each vertex to the set of its (weight,
 * target) neighbours, plus a counter of incoming edges per vertex.
 *
 * Every operation answers with a ready future in the source; here it
 * returns the `Result` that future would hold.
 */
module SimpleGraph {
  import opened Common
  import opened GraphTypes

  datatype ErrorCode = NonExistentVertex | NonExistentEdge | ConnectedVertex

  /** The stored edges that end at `v`, as (source, neighbour) pairs. */
  ghost function InEdges<V, W>(adj: map<V, set<Neighbour<V, W>>>, v: V): set<(V, Neighbour<V, W>)>
  {
    set u, n | u in adj && n in adj[u] && n.vertex == v :: (u, n)
  }

  /** Adding neighbour `n` to `from` adds one edge into `n.vertex` and none elsewhere. */
  lemma InEdgesAdd<V, W>(adj: map<V, set<Neighbour<V, W>>>, from: V, n: Neighbour<V, W>, v: V)
    requires from in adj && n !in adj[from]
    ensures InEdges(adj[from := adj[from] + {n}], v) == InEdges(adj, v) + (if n.vertex == v then {(from, n)} else {})
    ensures n.vertex == v ==> (from, n) !in InEdges(adj, v)
  {
  }

  /** Removing neighbour `n` from `from` removes one edge into `n.vertex` and none elsewhere. */
  lemma InEdgesRemove<V, W>(adj: map<V, set<Neighbour<V, W>>>, from: V, n: Neighbour<V, W>, v: V)
    requires from in adj && n in adj[from]
    ensures InEdges(adj[from := adj[from] - {n}], v) == InEdges(adj, v) - (if n.vertex == v then {(from, n)} else {})
    ensures n.vertex == v ==> (from, n) in InEdges(adj, v)
  {
  }

  /** A vertex without neighbours adds no edges, whether it is added or removed. */
  lemma InEdgesIsolated<V, W>(adj: map<V, set<Neighbour<V, W>>>, x: V, v: V)
    requires x !in adj
    ensures InEdges(adj[x := {}], v) == InEdges(adj, v)
  {
  }

  /**
   * Both maps have the same vertices, every edge ends at a vertex of the
   * graph, and each counter is the number of stored edges ending at its
   * vertex.
   */
  ghost predicate Consistent<V, W>(adj: map<V, set<Neighbour<V, W>>>, counts: map<V, nat>)
  {
    && adj.Keys == counts.Keys
    && (forall u, n :: u in adj && n in adj[u] ==> n.vertex in adj)
    && (forall v :: v in counts ==> counts[v] == |InEdges(adj, v)|)
  }

  /** A new edge into `n.vertex` keeps the maps consistent once its counter grows. */
  lemma AddKeepsConsistent<V, W>(adj: map<V, set<Neighbour<V, W>>>, counts: map<V, nat>, from: V, n: Neighbour<V, W>)
    requires Consistent(adj, counts) && from in adj && n.vertex in adj && n !in adj[from]
    ensures Consistent(adj[from := adj[from] + {n}], counts[n.vertex := counts[n.vertex] + 1])
  {
    var adj', counts' := adj[from := adj[from] + {n}], counts[n.vertex := counts[n.vertex] + 1];
    forall v | v in counts' ensures counts'[v] == |InEdges(adj', v)| {
      InEdgesAdd(adj, from, n, v);
    }
  }

  /** Removing a stored edge keeps the maps consistent once its counter drops. */
  lemma RemoveKeepsConsistent<V, W>(adj: map<V, set<Neighbour<V, W>>>, counts: map<V, nat>, from: V, n: Neighbour<V, W>)
    requires Consistent(adj, counts) && from in adj && n in adj[from]
    ensures n.vertex in counts && counts[n.vertex] > 0
    ensures Consistent(adj[from := adj[from] - {n}], counts[n.vertex := counts[n.vertex] - 1])
  {
    InEdgesRemove(adj, from, n, n.vertex);
    var adj', counts' := adj[from := adj[from] - {n}], counts[n.vertex := counts[n.vertex] - 1];
    forall v | v in counts' ensures counts'[v] == |InEdges(adj', v)| {
      InEdgesRemove(adj, from, n, v);
    }
  }

  /** A new vertex starts with no edges and a zero counter. */
  lemma AddVertexKeepsConsistent<V, W>(adj: map<V, set<Neighbour<V, W>>>, counts: map<V, nat>, x: V)
    requires Consistent(adj, counts) && x !in adj
    ensures Consistent(adj[x := {}], counts[x := 0])
  {
    assert InEdges(adj, x) == {};
    forall v ensures InEdges(adj[x := {}], v) == InEdges(adj, v) {
      InEdgesIsolated(adj, x, v);
    }
  }

  /** A vertex without edges in or out can leave both maps. */
  lemma RemoveVertexKeepsConsistent<V, W>(adj: map<V, set<Neighbour<V, W>>>, counts: map<V, nat>, x: V)
    requires Consistent(adj, counts) && x in adj && adj[x] == {} && counts[x] == 0
    ensures Consistent(adj - {x}, counts - {x})
  {
    var rest := adj - {x};
    assert adj == rest[x := {}];
    forall v ensures InEdges(rest, v) == InEdges(adj, v) {
      InEdgesIsolated(rest, x, v);
    }
    assert InEdges(adj, x) == {};
    forall u, n | u in rest && n in rest[u] ensures n.vertex in rest {
      assert (u, n) !in InEdges(adj, x);
    }
  }

  class SimpleWeightedGraph<V(==), W(==)> {
    var adjList: map<V, set<Neighbour<V, W>>>
    var incomingEdgesCount: map<V, nat>

    ghost predicate Valid()
      reads this
    {
      Consistent(adjList, incomingEdgesCount)
    }

    /** The empty graph. */
    constructor()
      ensures Valid() && adjList == map[] && incomingEdgesCount == map[]
    {
      adjList := map[];
      incomingEdgesCount := map[];
    }

    /**
     * `get_neighbours(vertex)`: the stored neighbours of `vertex`, each once,
     * or `NON_EXISTENT_VERTEX`.
     */
    method GetNeighbours(vertex: V) returns (r: Result<seq<Neighbour<V, W>>, ErrorCode>)
      requires Valid()
      ensures r.Failure? <==> vertex !in adjList
      ensures r.Failure? ==> r.error == NonExistentVertex
      ensures r.Success? ==> (forall n :: n in r.value <==> n in adjList[vertex]) && |r.value| == |adjList[vertex]|
    {
      if vertex !in adjList {
        return Failure(NonExistentVertex);
      }
      var neighbours := [];
      var rest := adjList[vertex];
      while rest != {}
        invariant rest <= adjList[vertex]
        invariant forall n :: n in neighbours <==> n in adjList[vertex] - rest
        invariant |neighbours| + |rest| == |adjList[vertex]|
        decreases |rest|
      {
        var n :| n in rest;
        neighbours := neighbours + [n];
        rest := rest - {n};
      }
      return Success(neighbours);
    }

    /**
     * `get_neighbours(vertex, edge_type)`: the targets of the edges of weight
     * `edgeType` leaving `vertex` (possibly none), each once, or
     * `NON_EXISTENT_VERTEX`.
     */
    method GetNeighboursOfType(vertex: V, edgeType: W) returns (r: Result<seq<V>, ErrorCode>)
      requires Valid()
      ensures r.Failure? <==> vertex !in adjList
      ensures r.Failure? ==> r.error == NonExistentVertex
      ensures r.Success? ==> forall v :: v in r.value <==> Neighbour(edgeType, v) in adjList[vertex]
      ensures r.Success? ==> forall i, j :: 0 <= i < j < |r.value| ==> r.value[i] != r.value[j]
    {
      if vertex !in adjList {
        return Failure(NonExistentVertex);
      }
      var neighbours := [];
      var rest := adjList[vertex];
      while rest != {}
        invariant rest <= adjList[vertex]
        invariant forall v :: v in neighbours <==> Neighbour(edgeType, v) in adjList[vertex] - rest
        invariant forall i, j :: 0 <= i < j < |neighbours| ==> neighbours[i] != neighbours[j]
        decreases |rest|
      {
        var n :| n in rest;
        if n.edge == edgeType {
          neighbours := neighbours + [n.vertex];
        }
        rest := rest - {n};
      }
      return Success(neighbours);
    }

    /**
     * `insert_vertex`: always succeeds with `vertex`; a new vertex starts
     * with no neighbours and no incoming edges, a known one is left alone.
     */
    method InsertVertex(vertex: V) returns (r: Result<V, ErrorCode>)
      requires Valid()
      modifies this
      ensures Valid() && r == Success(vertex)
      ensures adjList == if vertex in old(adjList) then old(adjList) else old(adjList)[vertex := {}]
      ensures incomingEdgesCount == if vertex in old(adjList) then old(incomingEdgesCount) else old(incomingEdgesCount)[vertex := 0]
    {
      if vertex !in adjList {
        AddVertexKeepsConsistent(adjList, incomingEdgesCount, vertex);
        adjList := adjList[vertex := {}];
        incomingEdgesCount := incomingEdgesCount[vertex := 0];
      }
      return Success(vertex);
    }

    /**
     * `insert_edge`: `NON_EXISTENT_VERTEX` when an end is missing; otherwise
     * the (weight, target) pair joins the source's neighbours, and the
     * target's counter grows only when the pair is new.
     */
    method InsertEdge(edge: Edge<V, W>) returns (r: Result<Unit, ErrorCode>)
      requires Valid()
      modifies this
      ensures Valid()
      ensures r.Failure? <==> edge.from !in old(adjList) || edge.to !in old(adjList)
      ensures r.Failure? ==> r.error == NonExistentVertex && unchanged(this)
      ensures r.Success? ==> var n := Neighbour(edge.edgeType, edge.to);
        && adjList == old(adjList)[edge.from := old(adjList)[edge.from] + {n}]
        && incomingEdgesCount == if n in old(adjList)[edge.from] then old(incomingEdgesCount)
                                 else old(incomingEdgesCount)[edge.to := old(incomingEdgesCount)[edge.to] + 1]
    {
      if edge.from !in adjList || edge.to !in adjList {
        return Failure(NonExistentVertex);
      }
      var n := Neighbour(edge.edgeType, edge.to);
      if n !in adjList[edge.from] {
        AddKeepsConsistent(adjList, incomingEdgesCount, edge.from, n);
        adjList := adjList[edge.from := adjList[edge.from] + {n}];
        incomingEdgesCount := incomingEdgesCount[edge.to := incomingEdgesCount[edge.to] + 1];
      } else {
        assert adjList[edge.from] + {n} == adjList[edge.from];
        assert adjList[edge.from := adjList[edge.from]] == adjList;
      }
      return Success(Unit);
    }

    /**
     * `delete_vertex`: `NON_EXISTENT_VERTEX` for an unknown vertex,
     * `CONNECTED_VERTEX` while it has outgoing or incoming edges; otherwise
     * the vertex leaves both maps.
     */
    method DeleteVertex(vertex: V) returns (r: Result<Unit, ErrorCode>)
      requires Valid()
      modifies this
      ensures Valid()
      ensures r == if vertex !in old(adjList) then Failure(NonExistentVertex)
                   else if |old(adjList)[vertex]| > 0 || old(incomingEdgesCount)[vertex] > 0 then Failure(ConnectedVertex)
                   else Success(Unit)
      ensures r.Failure? ==> unchanged(this)
      ensures r.Success? ==> adjList == old(adjList) - {vertex} && incomingEdgesCount == old(incomingEdgesCount) - {vertex}
    {
      if vertex !in adjList {
        return Failure(NonExistentVertex);
      } else if |adjList[vertex]| > 0 || incomingEdgesCount[vertex] > 0 {
        return Failure(ConnectedVertex);
      }
      assert adjList[vertex] == {};
      RemoveVertexKeepsConsistent(adjList, incomingEdgesCount, vertex);
      var rest := adjList - {vertex};
      adjList := rest;
      incomingEdgesCount := incomingEdgesCount - {vertex};
      return Success(Unit);
    }

    /**
     * `delete_edge`: `NON_EXISTENT_VERTEX` when an end is missing,
     * `NON_EXISTENT_EDGE` when the (weight, target) pair is not stored;
     * otherwise the pair is removed and the target's counter drops by one.
     */
    method DeleteEdge(edge: Edge<V, W>) returns (r: Result<Unit, ErrorCode>)
      requires Valid()
      modifies this
      ensures Valid()
      ensures r == if edge.from !in old(adjList) || edge.to !in old(adjList) then Failure(NonExistentVertex)
                   else if Neighbour(edge.edgeType, edge.to) !in old(adjList)[edge.from] then Failure(NonExistentEdge)
                   else Success(Unit)
      ensures r.Failure? ==> unchanged(this)
      ensures r.Success? ==> old(incomingEdgesCount)[edge.to] > 0
      ensures r.Success? ==>
        && adjList == old(adjList)[edge.from := old(adjList)[edge.from] - {Neighbour(edge.edgeType, edge.to)}]
        && incomingEdgesCount == old(incomingEdgesCount)[edge.to := old(incomingEdgesCount)[edge.to] - 1]
    {
      if edge.from !in adjList || edge.to !in adjList {
        return Failure(NonExistentVertex);
      }
      var n := Neighbour(edge.edgeType, edge.to);
      if n !in adjList[edge.from] {
        return Failure(NonExistentEdge);
      }
      RemoveKeepsConsistent(adjList, incomingEdgesCount, edge.from, n);
      adjList := adjList[edge.from := adjList[edge.from] - {n}];
      incomingEdgesCount := incomingEdgesCount[edge.to := incomingEdgesCount[edge.to] - 1];
      return Success(Unit);
    }
  }
}

/**
 * `IndexedPropertyDiGraph` (thesoup/types/indexedgraph.hpp): a directed
 * graph whose vertices and edge types are values interned under 64-bit ids.
 * An id is found by probing `Mix(hash, attempt)` for attempt = 0, 1, ...
 * until a free slot or a slot holding the same value turns up.  Each vertex
 * id keeps two adjacency sets, outgoing and incoming, mirrored.
 *
 * The adjacency sets are `std::set`s of neighbours ordered by the
 * neighbour's vertex alone, so a set holds at most one neighbour per vertex
 * and is searched by vertex alone.  Each set is therefore modelled as a map
 * from the neighbour vertex to the edge type stored with it, and the
 * per-vertex record of both sets as two maps keyed by vertex id,
 * `outgoing` and `incoming`.
 *
 * `std::hash` is a pair of functions given to the constructor.
 */
module IndexedGraph {
  import opened Common
  import opened GraphTypes

  /** A `size_t` id. */
  newtype Id = x: int | 0 <= x <= 0xFFFF_FFFF_FFFF_FFFF

  datatype ErrorCode =
    | TooManyDuplicateIds
    | NonExistentVertex
    | NonExistentEdge
    | InvalidEdgeType
    | ConnectedVertex
    | BrokenEdge

  /**
   * The id tried at `attempt` for a value hashing to `h`, in 64-bit wrapping
   * arithmetic; the first id tried for a value hashing to 0 is the constant
   * of the combine.
   */
  function Mix(h: Id, attempt: Id): (r: Id)
    ensures h == 0 && attempt == 0 ==> r == 0x9e3779b9
  {
    var x, a := h as bv64, attempt as bv64;
    // the value is below 2^64 already; the remainder only states it in `int`
    ((x ^ (a + (x << 6) + (x >> 2) + 0x9e3779b9)) as int % 0x1_0000_0000_0000_0000) as Id
  }

  /**
   * The id the probe settles on: the first attempt whose slot is free or
   * holds `v`; `TOO_MANY_DUPLICATE_IDS` when every attempt below `SIZE_MAX`
   * meets another value.
   */
  function Probe<T(==)>(index: map<Id, T>, h: Id, v: T, attempt: nat): (r: Result<Id, ErrorCode>)
    requires attempt <= SIZE_MAX
    ensures r.Success? ==> r.value !in index || index[r.value] == v
    ensures r.Failure? ==> r.error == TooManyDuplicateIds
    decreases SIZE_MAX - attempt
  {
    if attempt == SIZE_MAX then Failure(TooManyDuplicateIds)
    else
      var id := Mix(h, attempt as Id);
      if id !in index || index[id] == v then Success(id) else Probe(index, h, v, attempt + 1)
  }

  /**
   * Interning is idempotent: once `v` is stored at the id the probe found,
   * probing again for `v` finds the same id.
   */
  lemma {:induction false} ProbeAgain<T>(index: map<Id, T>, h: Id, v: T, attempt: nat)
    requires attempt <= SIZE_MAX && Probe(index, h, v, attempt).Success?
    ensures Probe(index[Probe(index, h, v, attempt).value := v], h, v, attempt) == Probe(index, h, v, attempt)
    decreases SIZE_MAX - attempt
  {
    var id := Probe(index, h, v, attempt).value;
    var index' := index[id := v];
    var slot := Mix(h, attempt as Id);
    if slot !in index || index[slot] == v {
    } else {
      // the slot passed over holds another value, and it is not `id`
      assert slot != id;
      ProbeAgain(index, h, v, attempt + 1);
    }
  }

  /** Adjacency sets keyed by vertex id: each maps a neighbour vertex to an edge type. */
  type Adjacency = map<Id, map<Id, Id>>

  /**
   * Every outgoing entry `u -t-> w` is mirrored by the incoming entry of `w`
   * for `u` with the same type, and the other way round.
   */
  ghost predicate Mirrored(outgoing: Adjacency, incoming: Adjacency)
  {
    && (forall u, w {:trigger w in outgoing[u]} :: u in outgoing && w in outgoing[u] ==>
          w in incoming && u in incoming[w] && incoming[w][u] == outgoing[u][w])
    && (forall w, u {:trigger u in incoming[w]} :: w in incoming && u in incoming[w] ==>
          u in outgoing && w in outgoing[u] && outgoing[u][w] == incoming[w][u])
  }

  /** `std::set::insert` of neighbour (`t`, `j`) into the set of `k`: a no-op when `j` is already there. */
  function Put(m: Adjacency, k: Id, j: Id, t: Id): (r: Adjacency)
    requires k in m
    ensures r.Keys == m.Keys && j in r[k]
    ensures forall x :: x in m && x != k ==> r[x] == m[x]
    ensures r[k] == if j in m[k] then m[k] else m[k][j := t]
  {
    if j in m[k] then m else m[k := m[k][j := t]]
  }

  /** `std::set::erase` of the neighbour with vertex `j` from the set of `k`. */
  function Drop(m: Adjacency, k: Id, j: Id): (r: Adjacency)
    requires k in m
    ensures r.Keys == m.Keys && r[k] == m[k] - {j}
    ensures forall x :: x in m && x != k ==> r[x] == m[x]
  {
    m[k := m[k] - {j}]
  }

  /** Inserting an edge in both directions keeps the mirror. */
  lemma PutMirrored(outgoing: Adjacency, incoming: Adjacency, from: Id, t: Id, to: Id)
    requires Mirrored(outgoing, incoming) && from in outgoing && to in incoming
    ensures Mirrored(Put(outgoing, from, to, t), Put(incoming, to, from, t))
  {
    var out', in' := Put(outgoing, from, to, t), Put(incoming, to, from, t);
    assert (to in outgoing[from]) == (from in incoming[to]);
    forall u, w | u in out' && w in out'[u]
      ensures w in in' && u in in'[w] && in'[w][u] == out'[u][w]
    {
      if u == from && w == to {
      } else {
        assert w in outgoing[u];
      }
    }
    forall w, u | w in in' && u in in'[w]
      ensures u in out' && w in out'[u] && out'[u][w] == in'[w][u]
    {
      if u == from && w == to {
      } else {
        assert u in incoming[w];
      }
    }
  }

  /** Erasing an edge in both directions keeps the mirror. */
  lemma DropMirrored(outgoing: Adjacency, incoming: Adjacency, from: Id, to: Id)
    requires Mirrored(outgoing, incoming) && from in outgoing && to in incoming
    ensures Mirrored(Drop(outgoing, from, to), Drop(incoming, to, from))
  {
    var out', in' := Drop(outgoing, from, to), Drop(incoming, to, from);
    forall u, w | u in out' && w in out'[u]
      ensures w in in' && u in in'[w] && in'[w][u] == out'[u][w]
    {
      assert w in outgoing[u];
    }
    forall w, u | w in in' && u in in'[w]
      ensures u in out' && w in out'[u] && out'[u][w] == in'[w][u]
    {
      assert u in incoming[w];
    }
  }

  /**
   * The graph invariant: the vertex ids are exactly the adjacency keys, the
   * adjacency is mirrored, and every stored edge type is registered.
   */
  ghost predicate GraphOk(vertices: set<Id>, types: set<Id>, outgoing: Adjacency, incoming: Adjacency)
  {
    && vertices == outgoing.Keys == incoming.Keys
    && Mirrored(outgoing, incoming)
    && (forall u, w {:trigger w in outgoing[u]} :: u in outgoing && w in outgoing[u] ==> outgoing[u][w] in types)
  }

  /** Inserting an edge between two vertices, with a registered type, keeps the invariant. */
  lemma PutOk(vertices: set<Id>, types: set<Id>, outgoing: Adjacency, incoming: Adjacency, from: Id, t: Id, to: Id)
    requires GraphOk(vertices, types, outgoing, incoming) && from in vertices && to in vertices && t in types
    ensures GraphOk(vertices, types, Put(outgoing, from, to, t), Put(incoming, to, from, t))
  {
    PutMirrored(outgoing, incoming, from, t, to);
    var out' := Put(outgoing, from, to, t);
    forall u, w | u in out' && w in out'[u]
      ensures out'[u][w] in types
    {
      if u != from || w !in outgoing[from] {
        assert u == from ==> w == to;
      }
    }
  }

  /** Erasing an edge in both directions keeps the invariant. */
  lemma DropOk(vertices: set<Id>, types: set<Id>, outgoing: Adjacency, incoming: Adjacency, from: Id, to: Id)
    requires GraphOk(vertices, types, outgoing, incoming) && from in vertices && to in vertices
    ensures GraphOk(vertices, types, Drop(outgoing, from, to), Drop(incoming, to, from))
  {
    DropMirrored(outgoing, incoming, from, to);
    var out' := Drop(outgoing, from, to);
    forall u, w | u in out' && w in out'[u]
      ensures out'[u][w] in types
    {
      assert w in outgoing[u];
    }
  }

  /** A fresh vertex with empty sets keeps the invariant. */
  lemma NewVertexOk(vertices: set<Id>, types: set<Id>, outgoing: Adjacency, incoming: Adjacency, x: Id)
    requires GraphOk(vertices, types, outgoing, incoming) && x !in vertices
    ensures GraphOk(vertices + {x}, types, outgoing[x := map[]], incoming[x := map[]])
  {
  }

  /** A vertex with no edges in or out can leave both maps. */
  lemma IsolatedVertexOk(vertices: set<Id>, types: set<Id>, outgoing: Adjacency, incoming: Adjacency, x: Id)
    requires GraphOk(vertices, types, outgoing, incoming) && x in vertices
    requires |outgoing[x]| == 0 && |incoming[x]| == 0
    ensures GraphOk(vertices - {x}, types, outgoing - {x}, incoming - {x})
  {
    assert outgoing[x] == map[] && incoming[x] == map[];
    var out', in' := outgoing - {x}, incoming - {x};
    forall u, w | u in out' && w in out'[u] ensures w in in' && u in in'[w] && in'[w][u] == out'[u][w] {
      assert w in outgoing[u];
    }
    forall w, u | w in in' && u in in'[w] ensures u in out' && w in out'[u] && out'[u][w] == in'[w][u] {
      assert u in incoming[w];
    }
  }

  /** Erasing what was just inserted into a set without it restores the adjacency. */
  lemma DropAfterPut(m: Adjacency, k: Id, j: Id, t: Id)
    requires k in m && j !in m[k]
    ensures Drop(Put(m, k, j, t), k, j) == m
  {
    assert m[k][j := t] - {j} == m[k];
  }

  /**
   * `operator<` on neighbours: by vertex alone.  Two neighbours are
   * equivalent under it exactly when their vertices agree, whatever their
   * edges.
   */
  predicate NeighbourLess(a: Neighbour<Id, Id>, b: Neighbour<Id, Id>)
  {
    a.vertex < b.vertex
  }

  /** `operator==` on neighbours: vertex and edge. */
  predicate NeighbourEqual(a: Neighbour<Id, Id>, b: Neighbour<Id, Id>)
  {
    a.vertex == b.vertex && a.edge == b.edge
  }

  /**
   * `operator<` is a strict order whose equivalence is "same vertex", and
   * `operator==` is finer than that equivalence.
   */
  lemma NeighbourOrder(a: Neighbour<Id, Id>, b: Neighbour<Id, Id>, c: Neighbour<Id, Id>)
    ensures !NeighbourLess(a, a)
    ensures NeighbourLess(a, b) && NeighbourLess(b, c) ==> NeighbourLess(a, c)
    ensures (!NeighbourLess(a, b) && !NeighbourLess(b, a)) <==> a.vertex == b.vertex
    ensures NeighbourEqual(a, b) <==> a == b
    ensures NeighbourEqual(a, b) ==> !NeighbourLess(a, b) && !NeighbourLess(b, a)
  {
  }

  /** Two different neighbours that the set ordering cannot tell apart. */
  lemma EquivalentButUnequal()
    ensures var a, b := Neighbour(1, 7), Neighbour(2, 7);
      !NeighbourLess(a, b) && !NeighbourLess(b, a) && !NeighbourEqual(a, b)
  {
  }

  /** The smallest element of a non-empty set of ids (the next one a `std::set` yields). */
  method Smallest(s: set<Id>) returns (m: Id)
    requires s != {}
    ensures m in s && forall x :: x in s ==> m <= x
  {
    m :| m in s;
    var rest := s - {m};
    while rest != {}
      invariant rest <= s && m in s
      invariant forall x :: x in s && x !in rest ==> m <= x
      decreases |rest|
    {
      var x :| x in rest;
      if x < m {
        m := x;
      }
      rest := rest - {x};
    }
  }

  /**
   * The iteration of a neighbour set: its entries as neighbours, in
   * increasing vertex order.
   */
  method Entries(m: map<Id, Id>) returns (ns: seq<Neighbour<Id, Id>>)
    ensures forall n :: n in ns <==> n.vertex in m && m[n.vertex] == n.edge
    ensures forall i, j :: 0 <= i < j < |ns| ==> ns[i].vertex < ns[j].vertex
  {
    ns := [];
    var rest := m.Keys;
    while rest != {}
      invariant rest <= m.Keys
      invariant forall n :: n in ns <==> n.vertex in m.Keys - rest && m[n.vertex] == n.edge
      invariant forall i, j :: 0 <= i < j < |ns| ==> ns[i].vertex < ns[j].vertex
      invariant forall i, x :: 0 <= i < |ns| && x in rest ==> ns[i].vertex < x
      decreases |rest|
    {
      var k := Smallest(rest);
      ns := ns + [Neighbour(m[k], k)];
      rest := rest - {k};
    }
  }

  /**
   * The filtering loop of the typed queries: the vertices of the entries of
   * type `t`, in increasing order.
   */
  method VerticesOfType(m: map<Id, Id>, t: Id) returns (vs: seq<Id>)
    ensures forall v :: v in vs <==> v in m && m[v] == t
    ensures forall i, j :: 0 <= i < j < |vs| ==> vs[i] < vs[j]
  {
    var ns := Entries(m);
    vs := [];
    for i := 0 to |ns|
      invariant forall v :: v in vs <==> exists k :: 0 <= k < i && ns[k].vertex == v && ns[k].edge == t
      invariant forall a, b :: 0 <= a < b < |vs| ==> vs[a] < vs[b]
      invariant forall a, k :: 0 <= a < |vs| && i <= k < |ns| ==> vs[a] < ns[k].vertex
    {
      if ns[i].edge == t {
        vs := vs + [ns[i].vertex];
      }
    }
    forall v ensures v in vs <==> v in m && m[v] == t {
      if v in m && m[v] == t {
        assert Neighbour(t, v) in ns;
      }
    }
  }

  class IndexedPropertyDiGraph<V(==), E(==)> {
    const hashVertex: V -> Id
    const hashEdgeType: E -> Id
    var vertexIndex: map<Id, V>
    var edgeIndex: map<Id, E>
    var outgoing: Adjacency
    var incoming: Adjacency

    /**
     * The vertex ids are exactly the adjacency keys, the adjacency is
     * mirrored, and every stored edge type is registered.
     */
    ghost predicate Valid()
      reads this
    {
      GraphOk(vertexIndex.Keys, edgeIndex.Keys, outgoing, incoming)
    }

    constructor(hashVertex: V -> Id, hashEdgeType: E -> Id)
      ensures Valid() && vertexIndex == map[] && edgeIndex == map[] && outgoing == map[] && incoming == map[]
      ensures this.hashVertex == hashVertex && this.hashEdgeType == hashEdgeType
    {
      this.hashVertex := hashVertex;
      this.hashEdgeType := hashEdgeType;
      vertexIndex := map[];
      edgeIndex := map[];
      outgoing := map[];
      incoming := map[];
    }

    /**
     * `register_edge_type`: the id the probe settles on, with the edge type
     * stored there (a no-op when it already was).
     */
    method RegisterEdgeType(edge: E) returns (r: Result<Id, ErrorCode>)
      requires Valid()
      modifies this
      ensures Valid()
      ensures r == Probe(old(edgeIndex), hashEdgeType(edge), edge, 0)
      ensures r.Success? ==> edgeIndex == old(edgeIndex)[r.value := edge]
      ensures r.Failure? ==> edgeIndex == old(edgeIndex)
      ensures vertexIndex == old(vertexIndex) && outgoing == old(outgoing) && incoming == old(incoming)
    {
      var attempt: nat := 0;
      ghost var stored := false;
      while attempt < SIZE_MAX
        invariant attempt <= SIZE_MAX
        invariant Probe(old(edgeIndex), hashEdgeType(edge), edge, attempt) == Probe(old(edgeIndex), hashEdgeType(edge), edge, 0)
        invariant !stored ==> edgeIndex == old(edgeIndex)
        invariant stored ==> attempt < SIZE_MAX && Mix(hashEdgeType(edge), attempt as Id) !in old(edgeIndex)
                             && edgeIndex == old(edgeIndex)[Mix(hashEdgeType(edge), attempt as Id) := edge]
        invariant vertexIndex == old(vertexIndex) && outgoing == old(outgoing) && incoming == old(incoming)
        invariant old(edgeIndex).Keys <= edgeIndex.Keys
        decreases SIZE_MAX - attempt, if stored then 0 else 1
      {
        var id := Mix(hashEdgeType(edge), attempt as Id);
        if id !in edgeIndex {
          edgeIndex := edgeIndex[id := edge];
          stored := true;
        } else if edgeIndex[id] == edge {
          if !stored {
            assert edgeIndex[id := edge] == edgeIndex;
          }
          return Success(id);
        } else {
          attempt := attempt + 1;
        }
      }
      return Failure(TooManyDuplicateIds);
    }

    /**
     * `insert_vertex`: the id the probe settles on, with the vertex stored
     * there and given empty adjacency sets when the slot was free.
     */
    method InsertVertex(vertex: V) returns (r: Result<Id, ErrorCode>)
      requires Valid()
      modifies this
      ensures Valid()
      ensures r == Probe(old(vertexIndex), hashVertex(vertex), vertex, 0)
      ensures r.Success? ==> vertexIndex == old(vertexIndex)[r.value := vertex]
      ensures r.Success? && r.value in old(vertexIndex) ==> outgoing == old(outgoing) && incoming == old(incoming)
      ensures r.Success? && r.value !in old(vertexIndex) ==>
                outgoing == old(outgoing)[r.value := map[]] && incoming == old(incoming)[r.value := map[]]
      ensures r.Failure? ==> vertexIndex == old(vertexIndex) && outgoing == old(outgoing) && incoming == old(incoming)
      ensures edgeIndex == old(edgeIndex)
    {
      var attempt: nat := 0;
      ghost var stored, at := false, 0;
      while attempt < SIZE_MAX
        invariant attempt <= SIZE_MAX
        invariant Probe(old(vertexIndex), hashVertex(vertex), vertex, attempt) == Probe(old(vertexIndex), hashVertex(vertex), vertex, 0)
        invariant !stored ==> vertexIndex == old(vertexIndex) && outgoing == old(outgoing) && incoming == old(incoming)
        invariant stored ==> attempt < SIZE_MAX && at == Mix(hashVertex(vertex), attempt as Id) && at !in old(vertexIndex)
        invariant stored ==> vertexIndex == old(vertexIndex)[at := vertex]
        invariant stored ==> outgoing == old(outgoing)[at := map[]] && incoming == old(incoming)[at := map[]]
        invariant edgeIndex == old(edgeIndex)
        invariant Valid()
        decreases SIZE_MAX - attempt, if stored then 0 else 1
      {
        var id := Mix(hashVertex(vertex), attempt as Id);
        if id !in vertexIndex {
          AddVertex(id, vertex);
          stored, at := true, id;
        } else if vertexIndex[id] == vertex {
          if !stored {
            assert vertexIndex[id := vertex] == vertexIndex;
          }
          return Success(id);
        } else {
          attempt := attempt + 1;
        }
      }
      return Failure(TooManyDuplicateIds);
    }

    /** The write of `insert_vertex` into a free slot: the vertex, with empty adjacency sets. */
    method AddVertex(id: Id, vertex: V)
      requires Valid() && id !in vertexIndex
      modifies this
      ensures Valid() && edgeIndex == old(edgeIndex)
      ensures vertexIndex == old(vertexIndex)[id := vertex]
      ensures outgoing == old(outgoing)[id := map[]] && incoming == old(incoming)[id := map[]]
    {
      NewVertexOk(vertexIndex.Keys, edgeIndex.Keys, outgoing, incoming, id);
      assert vertexIndex[id := vertex].Keys == vertexIndex.Keys + {id};
      vertexIndex := vertexIndex[id := vertex];
      outgoing := outgoing[id := map[]];
      incoming := incoming[id := map[]];
    }

    /**
     * `delete_vertex`: `NON_EXISTENT_VERTEX` for an unknown id,
     * `CONNECTED_VERTEX` while any edge enters or leaves it; otherwise the id
     * leaves the vertex index and the adjacency.
     */
    method DeleteVertex(vertex: Id) returns (r: Result<Unit, ErrorCode>)
      requires Valid()
      modifies this
      ensures Valid()
      ensures r == if vertex !in old(outgoing) then Failure(NonExistentVertex)
                   else if |old(incoming)[vertex]| > 0 || |old(outgoing)[vertex]| > 0 then Failure(ConnectedVertex)
                   else Success(Unit)
      ensures r.Success? ==> vertexIndex == old(vertexIndex) - {vertex}
                             && outgoing == old(outgoing) - {vertex} && incoming == old(incoming) - {vertex}
      ensures r.Failure? ==> vertexIndex == old(vertexIndex) && outgoing == old(outgoing) && incoming == old(incoming)
      ensures edgeIndex == old(edgeIndex)
    {
      if vertex !in outgoing {
        return Failure(NonExistentVertex);
      } else if |incoming[vertex]| > 0 || |outgoing[vertex]| > 0 {
        return Failure(ConnectedVertex);
      }
      var out', in', index' := outgoing - {vertex}, incoming - {vertex}, vertexIndex - {vertex};
      IsolatedVertexOk(vertexIndex.Keys, edgeIndex.Keys, outgoing, incoming, vertex);
      assert index'.Keys == vertexIndex.Keys - {vertex};
      assert GraphOk(index'.Keys, edgeIndex.Keys, out', in');
      outgoing, incoming, vertexIndex := out', in', index';
      assert GraphOk(vertexIndex.Keys, edgeIndex.Keys, outgoing, incoming);
      return Success(Unit);
    }

    /** `hydrate_vertex`: the vertex interned under `id`, or `NON_EXISTENT_VERTEX`. */
    function HydrateVertex(id: Id): (r: Result<V, ErrorCode>)
      reads this
      ensures r.Success? <==> id in vertexIndex
      ensures r.Success? ==> r.value == vertexIndex[id]
      ensures r.Failure? ==> r.error == NonExistentVertex
    {
      if id !in vertexIndex then Failure(NonExistentVertex) else Success(vertexIndex[id])
    }

    /** `hydrate_edge_type`: the edge type registered under `id`, or `INVALID_EDGE_TYPE`. */
    function HydrateEdgeType(id: Id): (r: Result<E, ErrorCode>)
      reads this
      ensures r.Success? <==> id in edgeIndex
      ensures r.Success? ==> r.value == edgeIndex[id]
      ensures r.Failure? ==> r.error == InvalidEdgeType
    {
      if id !in edgeIndex then Failure(InvalidEdgeType) else Success(edgeIndex[id])
    }

    /**
     * `insert_edge`: `NON_EXISTENT_VERTEX` when an end is unknown,
     * `INVALID_EDGE_TYPE` when the type is not registered; otherwise the edge
     * is recorded in both directions, unless the two vertices are already
     * joined (by an edge of any type), which leaves everything as it was.
     */
    method InsertEdge(edge: Edge<Id, Id>) returns (r: Result<Unit, ErrorCode>)
      requires Valid()
      modifies this
      ensures Valid()
      ensures r == if edge.from !in old(vertexIndex) || edge.to !in old(vertexIndex) then Failure(NonExistentVertex)
                   else if edge.edgeType !in old(edgeIndex) then Failure(InvalidEdgeType)
                   else Success(Unit)
      ensures r.Success? ==> outgoing == Put(old(outgoing), edge.from, edge.to, edge.edgeType)
                             && incoming == Put(old(incoming), edge.to, edge.from, edge.edgeType)
      ensures r.Failure? ==> outgoing == old(outgoing) && incoming == old(incoming)
      ensures vertexIndex == old(vertexIndex) && edgeIndex == old(edgeIndex)
    {
      if edge.from !in vertexIndex || edge.to !in vertexIndex {
        return Failure(NonExistentVertex);
      } else if edge.edgeType !in edgeIndex {
        return Failure(InvalidEdgeType);
      }
      StoreEdge(edge.from, edge.to, edge.edgeType);
      return Success(Unit);
    }

    /** The insertions of `insert_edge`: (`t`, `to`) into the outgoing set of `from`, (`t`, `from`) into the incoming set of `to`. */
    method StoreEdge(from: Id, to: Id, t: Id)
      requires Valid() && from in vertexIndex && to in vertexIndex && t in edgeIndex
      modifies this
      ensures Valid() && vertexIndex == old(vertexIndex) && edgeIndex == old(edgeIndex)
      ensures outgoing == Put(old(outgoing), from, to, t) && incoming == Put(old(incoming), to, from, t)
    {
      PutOk(vertexIndex.Keys, edgeIndex.Keys, outgoing, incoming, from, t, to);
      outgoing, incoming := Put(outgoing, from, to, t), Put(incoming, to, from, t);
    }

    /**
     * `delete_edge`: `NON_EXISTENT_VERTEX`, then `INVALID_EDGE_TYPE`, then
     * `NON_EXISTENT_EDGE` when neither direction is stored, `BROKEN_EDGE`
     * when only one is; otherwise both directions are erased.  The lookups
     * go by vertex alone, so the edge joining the two vertices is erased
     * whatever type it was stored with.
     */
    method DeleteEdge(edge: Edge<Id, Id>) returns (r: Result<Unit, ErrorCode>)
      requires Valid()
      modifies this
      ensures Valid()
      ensures r == if edge.from !in old(outgoing) || edge.to !in old(outgoing) then Failure(NonExistentVertex)
                   else if edge.edgeType !in old(edgeIndex) then Failure(InvalidEdgeType)
                   else DeleteEdgeOutcome(edge.to in old(outgoing)[edge.from], edge.from in old(incoming)[edge.to])
      ensures r.Success? ==> outgoing == Drop(old(outgoing), edge.from, edge.to)
                             && incoming == Drop(old(incoming), edge.to, edge.from)
      ensures r.Failure? ==> outgoing == old(outgoing) && incoming == old(incoming)
      ensures vertexIndex == old(vertexIndex) && edgeIndex == old(edgeIndex)
    {
      if edge.from !in outgoing || edge.to !in outgoing {
        return Failure(NonExistentVertex);
      } else if edge.edgeType !in edgeIndex {
        return Failure(InvalidEdgeType);
      }
      var found := edge.to in outgoing[edge.from];
      var foundBack := edge.from in incoming[edge.to];
      r := DeleteEdgeOutcome(found, foundBack);
      if r.Success? {
        EraseEdge(edge.from, edge.to);
      }
    }

    /** The erasures of `delete_edge`: `to` from the outgoing set of `from`, `from` from the incoming set of `to`. */
    method EraseEdge(from: Id, to: Id)
      requires Valid() && from in outgoing && to in outgoing
      modifies this
      ensures Valid() && vertexIndex == old(vertexIndex) && edgeIndex == old(edgeIndex)
      ensures outgoing == Drop(old(outgoing), from, to) && incoming == Drop(old(incoming), to, from)
    {
      DropOk(vertexIndex.Keys, edgeIndex.Keys, outgoing, incoming, from, to);
      outgoing, incoming := Drop(outgoing, from, to), Drop(incoming, to, from);
    }

    /**
     * `get_neighbours(vertex)`: the outgoing neighbours in increasing vertex
     * order, or `NON_EXISTENT_VERTEX`.
     */
    method GetNeighbours(vertex: Id) returns (r: Result<seq<Neighbour<Id, Id>>, ErrorCode>)
      requires Valid()
      ensures r.Failure? <==> vertex !in vertexIndex
      ensures r.Failure? ==> r.error == NonExistentVertex
      ensures r.Success? ==> forall n :: n in r.value <==> n.vertex in outgoing[vertex] && outgoing[vertex][n.vertex] == n.edge
      ensures r.Success? ==> forall i, j :: 0 <= i < j < |r.value| ==> r.value[i].vertex < r.value[j].vertex
    {
      if vertex !in vertexIndex {
        return Failure(NonExistentVertex);
      }
      var ns := Entries(outgoing[vertex]);
      return Success(ns);
    }

    /**
     * `get_neighbours(vertex, edge_type)`: the targets of the outgoing edges
     * of that type (possibly none), each once in increasing order, or `NON_EXISTENT_VERTEX`, or
     * `INVALID_EDGE_TYPE`.
     */
    method GetNeighboursOfType(vertex: Id, edgeType: Id) returns (r: Result<seq<Id>, ErrorCode>)
      requires Valid()
      ensures r.Failure? <==> vertex !in vertexIndex || edgeType !in edgeIndex
      ensures r.Failure? ==> r.error == if vertex !in vertexIndex then NonExistentVertex else InvalidEdgeType
      ensures r.Success? ==> forall v :: v in r.value <==> v in outgoing[vertex] && outgoing[vertex][v] == edgeType
      ensures r.Success? ==> forall i, j :: 0 <= i < j < |r.value| ==> r.value[i] < r.value[j]
    {
      if vertex !in vertexIndex {
        return Failure(NonExistentVertex);
      } else if edgeType !in edgeIndex {
        return Failure(InvalidEdgeType);
      }
      var vs := VerticesOfType(outgoing[vertex], edgeType);
      return Success(vs);
    }

    /**
     * `get_incoming_edges(vertex)`: the incoming neighbours (source and
     * type) in increasing vertex order, or `NON_EXISTENT_VERTEX`; each is
     * an outgoing edge of its source.
     */
    method GetIncomingEdges(vertex: Id) returns (r: Result<seq<Neighbour<Id, Id>>, ErrorCode>)
      requires Valid()
      ensures r.Failure? <==> vertex !in vertexIndex
      ensures r.Failure? ==> r.error == NonExistentVertex
      ensures r.Success? ==> forall n :: n in r.value <==> n.vertex in incoming[vertex] && incoming[vertex][n.vertex] == n.edge
      ensures r.Success? ==> forall n :: n in r.value ==> n.vertex in outgoing && vertex in outgoing[n.vertex] && outgoing[n.vertex][vertex] == n.edge
      ensures r.Success? ==> forall i, j :: 0 <= i < j < |r.value| ==> r.value[i].vertex < r.value[j].vertex
    {
      if vertex !in vertexIndex {
        return Failure(NonExistentVertex);
      }
      var ns := Entries(incoming[vertex]);
      return Success(ns);
    }

    /**
     * `get_incoming_edges(vertex, edge_type)`: the sources of the incoming
     * edges of that type (possibly none), each once in increasing order, or `NON_EXISTENT_VERTEX`, or
     * `INVALID_EDGE_TYPE`.
     */
    method GetIncomingEdgesOfType(vertex: Id, edgeType: Id) returns (r: Result<seq<Id>, ErrorCode>)
      requires Valid()
      ensures r.Failure? <==> vertex !in vertexIndex || edgeType !in edgeIndex
      ensures r.Failure? ==> r.error == if vertex !in vertexIndex then NonExistentVertex else InvalidEdgeType
      ensures r.Success? ==> forall v :: v in r.value <==> v in incoming[vertex] && incoming[vertex][v] == edgeType
      ensures r.Success? ==> forall i, j :: 0 <= i < j < |r.value| ==> r.value[i] < r.value[j]
    {
      if vertex !in vertexIndex {
        return Failure(NonExistentVertex);
      } else if edgeType !in edgeIndex {
        return Failure(InvalidEdgeType);
      }
      var vs := VerticesOfType(incoming[vertex], edgeType);
      return Success(vs);
    }
  }

  /**
   * Inserting the same vertex twice answers the same id, the second insert
   * changes nothing, and the id hydrates back to the vertex.
   */
  method InsertVertexTwice<V(==), E(==)>(g: IndexedPropertyDiGraph<V, E>, vertex: V) returns (r1: Result<Id, ErrorCode>, r2: Result<Id, ErrorCode>)
    requires g.Valid()
    modifies g
    ensures g.Valid() && r1 == r2
    ensures r1.Success? ==> g.HydrateVertex(r1.value) == Success(vertex)
  {
    r1 := g.InsertVertex(vertex);
    if r1.Success? {
      ProbeAgain(old(g.vertexIndex), g.hashVertex(vertex), vertex, 0);
    }
    r2 := g.InsertVertex(vertex);
    if r1.Failure? {
      assert r2 == r1;
    }
  }

  /**
   * Registering the same edge type twice answers the same id, and the id
   * hydrates back to the edge type.
   */
  method RegisterEdgeTypeTwice<V(==), E(==)>(g: IndexedPropertyDiGraph<V, E>, edgeType: E) returns (r1: Result<Id, ErrorCode>, r2: Result<Id, ErrorCode>)
    requires g.Valid()
    modifies g
    ensures g.Valid() && r1 == r2
    ensures r1.Success? ==> g.HydrateEdgeType(r1.value) == Success(edgeType)
  {
    r1 := g.RegisterEdgeType(edgeType);
    if r1.Success? {
      ProbeAgain(old(g.edgeIndex), g.hashEdgeType(edgeType), edgeType, 0);
    }
    r2 := g.RegisterEdgeType(edgeType);
  }

  /**
   * The outcome of `delete_edge` once both ends and the type are known,
   * from whether the forward and the backward entries were found: nothing
   * found is `NON_EXISTENT_EDGE`, exactly one found is `BROKEN_EDGE`.
   */
  function DeleteEdgeOutcome(found: bool, foundBack: bool): (r: Result<Unit, ErrorCode>)
    ensures r.Success? <==> found && foundBack
    ensures r == Failure(NonExistentEdge) <==> !found && !foundBack
    ensures r == Failure(BrokenEdge) <==> found != foundBack
  {
    if !found && !foundBack then Failure(NonExistentEdge)
    else if !foundBack || !found then Failure(BrokenEdge)
    else Success(Unit)
  }

  /**
   * The same decision as the source writes it: the second test compares the
   * forward iterator, which belongs to the source vertex's outgoing set,
   * with the end of the target vertex's outgoing set.  For two different
   * vertices those never compare equal, so a missing forward entry goes
   * unnoticed; only for a self-loop does the test see it.
   */
  function DeleteEdgeOutcomeAsWritten(found: bool, foundBack: bool, selfLoop: bool): (r: Result<Unit, ErrorCode>)
    ensures r == Failure(NonExistentEdge) <==> !found && !foundBack
    ensures selfLoop ==> r == DeleteEdgeOutcome(found, foundBack)
    ensures !selfLoop ==> (r.Success? <==> foundBack)
  {
    if !found && !foundBack then Failure(NonExistentEdge)
    else if !foundBack || (selfLoop && !found) then Failure(BrokenEdge)
    else Success(Unit)
  }

  /**
   * With only the backward entry present between two different vertices,
   * the decision as written goes on to erase the missing forward entry,
   * where `BROKEN_EDGE` was meant.
   */
  lemma AsWrittenMissesBrokenEdge()
    ensures DeleteEdgeOutcomeAsWritten(false, true, false) == Success(Unit)
    ensures DeleteEdgeOutcome(false, true) == Failure(BrokenEdge)
  {
  }

  /**
   * In a mirrored graph the forward and backward entries are found together,
   * so both decisions agree and `BROKEN_EDGE` never arises.
   */
  lemma MirroredNeverBroken(outgoing: Adjacency, incoming: Adjacency, from: Id, to: Id)
    requires Mirrored(outgoing, incoming) && from in outgoing && to in incoming
    ensures (to in outgoing[from]) == (from in incoming[to])
    ensures DeleteEdgeOutcome(to in outgoing[from], from in incoming[to])
            == DeleteEdgeOutcomeAsWritten(to in outgoing[from], from in incoming[to], from == to)
    ensures DeleteEdgeOutcome(to in outgoing[from], from in incoming[to]) != Failure(BrokenEdge)
  {
  }
}

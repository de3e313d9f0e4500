/**
 * `DisjointSets` (thesoup/types/disjoint_sets.hpp): a fixed universe of
 * elements split into disjoint sets, each named by one of its members,
 * its leader.  The sets are kept twice over, as a map from each leader to
 * the members of its set and as a map from each element to its leader;
 * merging two sets folds the second element's set into the first's.
 */
module DisjointSets {
  import opened Common

  /** `DisjointSets::ErrorCode`. */
  datatype ErrorCode = ElementDoesNotExist

  /**
   * The leader map after the set led by `sl2` is folded into the one led by
   * `sl1`: every member of `sl2`'s set is now led by `sl1`.
   */
  function Merged<T>(leaders: map<T, T>, sl1: T, sl2: T): (m: map<T, T>)
    ensures m.Keys == leaders.Keys
  {
    map x | x in leaders :: if leaders[x] == sl2 then sl1 else leaders[x]
  }

  /** Merging changes which set an element is in only by joining the two merged sets. */
  lemma MergedClasses<T>(leaders: map<T, T>, sl1: T, sl2: T, x: T, y: T)
    requires x in leaders && y in leaders && sl1 != sl2
    requires sl1 in leaders && leaders[sl1] == sl1
    ensures var m := Merged(leaders, sl1, sl2);
      m[x] == m[y] <==>
        leaders[x] == leaders[y] || (leaders[x] in {sl1, sl2} && leaders[y] in {sl1, sl2})
  {
  }

  /** Merging two different sets removes exactly the second leader: one set fewer. */
  lemma MergedCount<T>(leaders: map<T, T>, sl1: T, sl2: T)
    requires sl1 in leaders.Values && sl2 in leaders.Values && sl1 != sl2
    ensures Merged(leaders, sl1, sl2).Values == leaders.Values - {sl2}
    ensures |Merged(leaders, sl1, sl2).Values| == |leaders.Values| - 1
  {
    var m := Merged(leaders, sl1, sl2);
    forall l | l in leaders.Values - {sl2}
      ensures l in m.Values
    {
      var x :| x in leaders && leaders[x] == l;
      assert m[x] == l;
    }
    forall l | l in m.Values
      ensures l in leaders.Values - {sl2}
    {
      var x :| x in m && m[x] == l;
      if leaders[x] == sl2 {
        assert l == sl1;
      } else {
        assert l == leaders[x];
      }
    }
    assert m.Values == leaders.Values - {sl2};
  }

  /**
   * `sets` and `leaders` describe one partition: the keys of `sets` are the
   * leaders, each leader belongs to its own set, and an element is in the
   * set of exactly the leader it maps to.
   */
  ghost predicate Partition<T>(sets: map<T, set<T>>, leaders: map<T, T>)
  {
    && (forall x {:trigger leaders[x]} :: x in leaders ==> leaders[x] in sets && x in sets[leaders[x]])
    && (forall l {:trigger sets[l]} :: l in sets ==> l in leaders && leaders[l] == l)
    && (forall l, y {:trigger y in sets[l]} :: l in sets && y in sets[l] ==> y in leaders && leaders[y] == l)
  }

  /** Merging with a set's own leader changes nothing. */
  lemma MergedSame<T>(leaders: map<T, T>, l: T)
    ensures Merged(leaders, l, l) == leaders
  {
  }

  /** Folding the set led by `sl2` into the one led by `sl1` keeps the two maps a partition. */
  lemma MergeKeepsPartition<T>(sets: map<T, set<T>>, leaders: map<T, T>, sl1: T, sl2: T)
    requires Partition(sets, leaders) && sl1 in sets && sl2 in sets && sl1 != sl2
    ensures Partition(sets[sl1 := sets[sl1] + sets[sl2]] - {sl2}, Merged(leaders, sl1, sl2))
  {
  }

  /** The members of the set led by `sl2` are exactly the elements whose leader is `sl2`. */
  lemma MembersOfSecond<T>(sets: map<T, set<T>>, leaders: map<T, T>, sl1: T, sl2: T)
    requires Partition(sets, leaders) && sl2 in sets
    ensures sets[sl2] <= leaders.Keys
    ensures (map x | x in leaders :: if x in sets[sl2] then sl1 else leaders[x]) == Merged(leaders, sl1, sl2)
  {
  }

  /** Updating one key and removing another leaves one key fewer. */
  lemma JoinedKeys<K, V>(m: map<K, V>, k1: K, k2: K, v: V)
    requires k1 in m && k2 in m && k1 != k2
    ensures (m[k1 := v] - {k2}).Keys == m.Keys - {k2}
    ensures |m[k1 := v] - {k2}| == |m| - 1
  {
    var m' := m[k1 := v] - {k2};
    assert m'.Keys == m.Keys - {k2};
    assert m.Keys == m'.Keys + {k2};
  }

  class DisjointSets<T(==)> {
    /** Each leader with the members of its set. */
    var sets: map<T, set<T>>
    /** Each element with the leader of its set. */
    var setLeaders: map<T, T>

    /** The two maps describe one partition (see `Partition`). */
    ghost predicate Valid()
      reads this
    {
      Partition(sets, setLeaders)
    }

    /** The leaders are exactly the keys of `sets`. */
    lemma LeadersAreKeys()
      requires Valid()
      ensures sets.Keys == setLeaders.Values
    {
      forall l | l in sets ensures l in setLeaders.Values {
        assert setLeaders[l] == l;
      }
    }

    /**
     * The constructor: every element of `items` is its own leader, alone in
     * its set; an element given twice is added once.
     */
    constructor(items: seq<T>)
      ensures Valid()
      ensures forall x :: x in setLeaders <==> x in items
      ensures forall x :: x in setLeaders ==> setLeaders[x] == x
      ensures sets.Keys == setLeaders.Keys && forall x :: x in sets ==> sets[x] == {x}
      ensures Size() == |set x | x in items|
    {
      var s: map<T, set<T>> := map[];
      var l: map<T, T> := map[];
      var i := 0;
      while i < |items|
        invariant i <= |items|
        invariant forall x :: x in l <==> x in items[..i]
        invariant forall x :: x in l ==> l[x] == x
        invariant forall x :: x in s <==> x in items[..i]
        invariant forall x :: x in s ==> s[x] == {x}
      {
        var item := items[i];
        if item !in s {
          s := s[item := {}];
        }
        s := s[item := s[item] + {item}];
        if item !in l {
          l := l[item := item];
        }
        assert items[..i + 1] == items[..i] + [item];
        i := i + 1;
      }
      assert items[..i] == items;
      sets := s;
      setLeaders := l;
      new;
      assert sets.Keys == set x | x in items;
    }

    /** `get_set_leader`: the leader of `item`'s set, or `ELEMENT_DOES_NOT_EXIST`. */
    function GetSetLeader(item: T): (r: Result<T, ErrorCode>)
      requires Valid()
      reads this
      ensures r.Failure? <==> item !in setLeaders
      ensures r.Failure? ==> r.error == ElementDoesNotExist
      ensures r.Success? ==> r.value in sets && item in sets[r.value]
    {
      if item !in setLeaders then Failure(ElementDoesNotExist) else Success(setLeaders[item])
    }

    /** `size`: the number of sets, one per leader. */
    function Size(): (n: nat)
      requires Valid()
      reads this
      ensures n == |setLeaders.Values|
    {
      LeadersAreKeys();
      |sets|
    }

    /**
     * `merge_sets`: with both elements known, the set of `elem2` is folded
     * into the set of `elem1`, whose leader leads the union; two elements
     * already in one set leave everything as it was; an unknown element is
     * an error and changes nothing.
     */
    method MergeSets(elem1: T, elem2: T) returns (r: Result<Unit, ErrorCode>)
      requires Valid()
      modifies this
      ensures Valid()
      ensures r.Failure? <==> elem1 !in old(setLeaders) || elem2 !in old(setLeaders)
      ensures r.Failure? ==> r.error == ElementDoesNotExist && sets == old(sets) && setLeaders == old(setLeaders)
      ensures r.Success? ==> setLeaders == Merged(old(setLeaders), old(setLeaders)[elem1], old(setLeaders)[elem2])
      ensures r.Success? ==> sets.Keys == old(sets.Keys) - (if old(setLeaders)[elem1] == old(setLeaders)[elem2] then {} else {old(setLeaders)[elem2]})
      ensures r.Success? ==> Size() == old(Size()) - (if old(setLeaders)[elem1] == old(setLeaders)[elem2] then 0 else 1)
    {
      if elem1 !in setLeaders || elem2 !in setLeaders {
        return Failure(ElementDoesNotExist);
      }
      var sl1 := setLeaders[elem1];
      var sl2 := setLeaders[elem2];
      if sl1 != sl2 {
        MergeDifferent(sl1, sl2);
      } else {
        MergedSame(setLeaders, sl1);
      }
      r := Success(Unit);
    }

    /** The body of `merge_sets` for two different leaders. */
    method MergeDifferent(sl1: T, sl2: T)
      requires Valid() && sl1 in sets && sl2 in sets && sl1 != sl2
      modifies this
      ensures Valid()
      ensures setLeaders == Merged(old(setLeaders), sl1, sl2)
      ensures sets == old(sets)[sl1 := old(sets)[sl1] + old(sets)[sl2]] - {sl2}
      ensures sets.Keys == old(sets.Keys) - {sl2} && |sets| == |old(sets)| - 1
    {
      ghost var leaders0 := setLeaders;
      ghost var sets0 := sets;
      var moved := sets[sl2];
      MembersOfSecond(sets0, leaders0, sl1, sl2);
      MergeKeepsPartition(sets0, leaders0, sl1, sl2);
      sets := sets[sl1 := sets[sl1] + moved];
      Relead(moved, sl1);
      sets := sets - {sl2};
      JoinedKeys(sets0, sl1, sl2, sets0[sl1] + moved);
    }

    /** The `for_each` of `merge_sets`: every element of `moved` gets `sl1` as its leader. */
    method Relead(moved: set<T>, sl1: T)
      requires moved <= setLeaders.Keys
      modifies this
      ensures sets == old(sets)
      ensures setLeaders == map x | x in old(setLeaders) :: if x in moved then sl1 else old(setLeaders)[x]
    {
      ghost var leaders0 := setLeaders;
      var todo := moved;
      while todo != {}
        invariant todo <= moved && sets == old(sets)
        invariant setLeaders.Keys == leaders0.Keys
        invariant forall x :: x in setLeaders ==>
          setLeaders[x] == (if x in moved - todo then sl1 else leaders0[x])
        decreases |todo|
      {
        var item :| item in todo;
        setLeaders := setLeaders[item := sl1];
        todo := todo - {item};
      }
    }
  }

  /**
   * The library's test of the happy path: four singletons; merging a with b
   * and c with d leaves two sets, led by a and by c.
   */
  method MergeScenario() returns (size0: nat, leaders0: seq<char>, size1: nat, leaders1: seq<char>)
    ensures size0 == 4 && leaders0 == "abcd"
    ensures size1 == 2 && leaders1 == "aacc"
  {
    var ds := new DisjointSets("abcd");
    FourLetters();
    size0 := ds.Size();
    leaders0 := FourLeaders(ds);
    MergeFirst(ds);
    MergeSecond(ds);
    size1 := ds.Size();
    leaders1 := FourLeaders(ds);
  }

  /** Four singletons a, b, c, d: merging a with b leaves b led by a. */
  method MergeFirst(ds: DisjointSets<char>)
    requires ds.Valid() && ds.setLeaders.Keys == {'a', 'b', 'c', 'd'} && ds.Size() == 4
    requires ds.setLeaders['a'] == 'a' && ds.setLeaders['b'] == 'b' && ds.setLeaders['c'] == 'c' && ds.setLeaders['d'] == 'd'
    modifies ds
    ensures ds.Valid() && ds.setLeaders.Keys == {'a', 'b', 'c', 'd'} && ds.Size() == 3
    ensures ds.setLeaders['a'] == 'a' && ds.setLeaders['b'] == 'a' && ds.setLeaders['c'] == 'c' && ds.setLeaders['d'] == 'd'
  {
    var _ := ds.MergeSets('a', 'b');
  }

  /** Then merging c with d leaves d led by c: two sets. */
  method MergeSecond(ds: DisjointSets<char>)
    requires ds.Valid() && ds.setLeaders.Keys == {'a', 'b', 'c', 'd'} && ds.Size() == 3
    requires ds.setLeaders['a'] == 'a' && ds.setLeaders['b'] == 'a' && ds.setLeaders['c'] == 'c' && ds.setLeaders['d'] == 'd'
    modifies ds
    ensures ds.Valid() && ds.setLeaders.Keys == {'a', 'b', 'c', 'd'} && ds.Size() == 2
    ensures ds.setLeaders['a'] == 'a' && ds.setLeaders['b'] == 'a' && ds.setLeaders['c'] == 'c' && ds.setLeaders['d'] == 'c'
  {
    var _ := ds.MergeSets('c', 'd');
  }

  lemma FourLetters()
    ensures (set x | x in "abcd") == {'a', 'b', 'c', 'd'} && |{'a', 'b', 'c', 'd'}| == 4
    ensures 'a' in "abcd" && 'b' in "abcd" && 'c' in "abcd" && 'd' in "abcd"
  {
  }

  /** The leaders of a, b, c and d, in that order. */
  method FourLeaders(ds: DisjointSets<char>) returns (ls: seq<char>)
    requires ds.Valid() && 'a' in ds.setLeaders && 'b' in ds.setLeaders && 'c' in ds.setLeaders && 'd' in ds.setLeaders
    ensures ls == [ds.setLeaders['a'], ds.setLeaders['b'], ds.setLeaders['c'], ds.setLeaders['d']]
  {
    var ra := ds.GetSetLeader('a');
    var rb := ds.GetSetLeader('b');
    var rc := ds.GetSetLeader('c');
    var rd := ds.GetSetLeader('d');
    ls := [ra.value, rb.value, rc.value, rd.value];
  }

  /** The library's test of the error path: an unknown element, alone or with a known one, is an error. */
  method UnknownScenario() returns (r0: Result<char, ErrorCode>, r1: Result<Unit, ErrorCode>,
                                    r2: Result<Unit, ErrorCode>, r3: Result<Unit, ErrorCode>)
    ensures r0 == Failure(ElementDoesNotExist) && r1 == Failure(ElementDoesNotExist)
    ensures r2 == Failure(ElementDoesNotExist) && r3 == Failure(ElementDoesNotExist)
  {
    var ds := new DisjointSets("abcd");
    assert 'x' !in "abcd" && 'y' !in "abcd" && 'a' in "abcd";
    r0 := ds.GetSetLeader('x');
    r1 := ds.MergeSets('a', 'x');
    r2 := ds.MergeSets('x', 'a');
    r3 := ds.MergeSets('x', 'y');
  }
}

/**
 * The library's tests of `VectorCache` (tst/thesoup/types/vector.cc),
 * restated as verified methods about the model: the saver and loader of
 * every test are the in-memory database `PageStore`.
 */
module VectorCacheScenarios {
  import opened Common
  import opened Paging
  import opened VectorCaches

  /** The tests' three-byte item type `Weird3byteStruct`. */
  datatype Weird3 = Weird3(a: char, b: char, c: char)

  /** One `push_back`, with only what the scenarios below need of its contract. */
  method PushOne<T>(v: VectorCache<T>, x: T)
    requires v.Valid() && v.store != null
    modifies v, v.store
    ensures v.Valid() && v.Contents() == old(v.Contents()) + [x] && v.size == old(v.size) + 1
    ensures v.numPages == CeilDiv(v.size, v.itemsPerPage)
  {
    v.PushBack(x);
  }

  /** `push_back(x)` then `push_back(y)`. */
  method PushTwo<T>(v: VectorCache<T>, x: T, y: T)
    requires v.Valid() && v.store != null
    modifies v, v.store
    ensures v.Valid() && v.Contents() == old(v.Contents()) + [x, y] && v.size == old(v.size) + 2
    ensures v.numPages == CeilDiv(v.size, v.itemsPerPage)
  {
    PushOne(v, x);
    PushOne(v, y);
  }

  /** `v[i]` and `v[i + 1]`. */
  method ReadTwo<T>(v: VectorCache<T>, i: nat) returns (rs: seq<Result<T, Exception>>)
    requires v.Valid() && i + 2 <= v.size
    modifies v, v.store
    ensures v.Valid() && v.Contents() == old(v.Contents())
    ensures v.size == old(v.size) && v.numPages == old(v.numPages)
    ensures rs == [Success(v.Contents()[i]), Success(v.Contents()[i + 1])]
  {
    var r0 := v.Index(i);
    var r1 := v.Index(i + 1);
    rs := [r0, r1];
  }

  /**
   * "VectorCache happy case", first branch: with 4 items per page, one push
   * gives an item at index 0, size 1 and one page of bytes (4 * 3); four
   * more give the items at indices 1 to 4, size 5 and two pages of bytes.
   */
  method HappyCase() returns (first: Result<Weird3, Exception>, size1: nat, bytes1: nat,
                              rest: seq<Result<Weird3, Exception>>, size5: nat, bytes5: nat)
    ensures first == Success(Weird3('a', 'b', 'c')) && size1 == 1 && bytes1 == 4 * 3
    ensures rest == [Success(Weird3('a', 'b', 'd')), Success(Weird3('a', 'b', 'e')),
                     Success(Weird3('a', 'b', 'f')), Success(Weird3('a', 'b', 'g'))]
    ensures size5 == 5 && bytes5 == 4 * 3 * 2
  {
    var db := new PageStore<Weird3>();
    var v := new VectorCache<Weird3>(2, 2, 3, db);
    assert Pow2(2) == 4;
    v.PushBack(Weird3('a', 'b', 'c'));
    first := v.Index(0);
    size1 := v.Size();
    bytes1 := v.Bytes();
    rest, size5, bytes5 := FourMore(v);
  }

  /** The second half of "VectorCache happy case": four more pushes, then `v[1]` to `v[4]`, `size()` and `bytes()`. */
  method FourMore(v: VectorCache<Weird3>) returns (rest: seq<Result<Weird3, Exception>>, size5: nat, bytes5: nat)
    requires v.Valid() && v.store != null && v.itemsPerPage == 4 && v.itemSize == 3
    requires v.Contents() == [Weird3('a', 'b', 'c')]
    modifies v, v.store
    ensures rest == [Success(Weird3('a', 'b', 'd')), Success(Weird3('a', 'b', 'e')),
                     Success(Weird3('a', 'b', 'f')), Success(Weird3('a', 'b', 'g'))]
    ensures size5 == 5 && bytes5 == 4 * 3 * 2
  {
    PushTwo(v, Weird3('a', 'b', 'd'), Weird3('a', 'b', 'e'));
    PushTwo(v, Weird3('a', 'b', 'f'), Weird3('a', 'b', 'g'));
    assert v.Contents()[1..] == [Weird3('a', 'b', 'd'), Weird3('a', 'b', 'e'), Weird3('a', 'b', 'f'), Weird3('a', 'b', 'g')];
    var r12 := ReadTwo(v, 1);
    var r34 := ReadTwo(v, 3);
    rest := r12 + r34;
    size5 := v.Size();
    bytes5 := v.Bytes();
  }

  /**
   * "VectorCache happy case", move branch, with the move constructor as
   * written: the cache built from a one-item cache by a move holds that
   * item, has size 1 and one page of bytes; the moved-from cache has size 0
   * and 0 bytes. The missing saver and loader do not show here, because the
   * one page is resident and nothing is swapped.
   */
  method MoveCase() returns (first: Result<Weird3, Exception>, size1: nat, bytes1: nat,
                             oldSize: nat, oldBytes: nat)
    ensures first == Success(Weird3('a', 'b', 'c')) && size1 == 1 && bytes1 == 4 * 3
    ensures oldSize == 0 && oldBytes == 0
  {
    var db := new PageStore<Weird3>();
    var v := new VectorCache<Weird3>(2, 2, 3, db);
    assert Pow2(2) == 4;
    v.PushBack(Weird3('a', 'b', 'c'));
    var w := new VectorCache<Weird3>.MovedAsWritten(v);
    first := w.Index(0);
    size1 := w.Size();
    bytes1 := w.Bytes();
    oldSize := v.Size();
    oldBytes := v.Bytes();
  }

  /**
   * "VectorCache iterations": with 16 items per page and five items, `*it`
   * follows `++`, `--`, `+= 2` and `-= 2`; the range-for loop counts
   * `size()` items, and `std::distance(end(), begin())`, which is
   * `begin() - end()` with the source's reversed difference, is `size()`.
   */
  method Iterations() returns (seen: seq<Weird3>, count: nat, distance: int)
    ensures seen == [Weird3('a', 'b', 'c'), Weird3('a', 'b', 'd'), Weird3('a', 'b', 'e'),
                     Weird3('a', 'b', 'f'), Weird3('a', 'b', 'e'), Weird3('a', 'b', 'g'),
                     Weird3('a', 'b', 'e')]
    ensures count == 5 && distance == 5
  {
    var v := FiveItems();
    seen := WalkAround(v);
    WalkFromBegin(v, 0);
    count := 0;
    var it := v.Begin();
    while NotEqual(it, v.End())
      invariant count <= 5 && it == Iterator(v, count)
      decreases 5 - count
    {
      count := count + 1;
      it := Next(it);
    }
    distance := Diff(v.Begin(), v.End());
  }

  /** The cache of "VectorCache iterations": 16 items per page and five items. */
  method FiveItems() returns (v: VectorCache<Weird3>)
    ensures fresh(v) && v.store != null && fresh(v.store) && v.Valid() && v.size == 5
    ensures v.Contents() == [Weird3('a', 'b', 'c'), Weird3('a', 'b', 'd'), Weird3('a', 'b', 'e'),
                             Weird3('a', 'b', 'f'), Weird3('a', 'b', 'g')]
  {
    var db := new PageStore<Weird3>();
    v := new VectorCache<Weird3>(4, 2, 3, db);
    assert Pow2(4) == 16;
    v.PushBack(Weird3('a', 'b', 'c'));
    PushTwo(v, Weird3('a', 'b', 'd'), Weird3('a', 'b', 'e'));
    PushTwo(v, Weird3('a', 'b', 'f'), Weird3('a', 'b', 'g'));
  }

  /** The iterator moves of "VectorCache iterations", with `*it` after each. */
  method WalkAround(v: VectorCache<Weird3>) returns (seen: seq<Weird3>)
    requires v.Valid() && v.size == 5
    modifies v, v.store
    ensures v.Valid() && v.Contents() == old(v.Contents()) && v.size == 5
    ensures seen == [v.Contents()[0], v.Contents()[1], v.Contents()[2], v.Contents()[3],
                     v.Contents()[2], v.Contents()[4], v.Contents()[2]]
  {
    var it := v.Begin();
    var x0 := Deref(it);
    it := Next(it);
    var x1 := Deref(it);
    it := Next(it);
    var x2 := Deref(it);
    it := Next(it);
    var x3 := Deref(it);
    it := Prev(it);
    var x4 := Deref(it);
    it := Plus(it, 2);
    var x5 := Deref(it);
    it := Minus(it, 2);
    var x6 := Deref(it);
    seen := [x0, x1, x2, x3, x4, x5, x6];
  }

  /** The cache of "Partitions test": 4 items per page and the items 1 to 7. */
  method OneToSeven() returns (v: VectorCache<int>)
    ensures fresh(v) && v.store != null && fresh(v.store)
    ensures v.Valid() && v.itemsPerPage == 4 && v.size == 7
    ensures v.Contents() == [1, 2, 3, 4, 5, 6, 7]
  {
    var db := new PageStore<int>();
    v := new VectorCache<int>(2, 2, 4, db);
    assert Pow2(2) == 4;
    PushOne(v, 1);
    assert v.Contents() == [1];
    PushTwo(v, 2, 3);
    assert v.Contents() == [1, 2, 3];
    PushTwo(v, 4, 5);
    assert v.Contents() == [1, 2, 3, 4, 5];
    PushTwo(v, 6, 7);
  }

  /**
   * "Partitions test": with 4 items per page, seven items make two
   * partitions, [1, 2, 3, 4] and [5, 6, 7]; a third is `std::out_of_range`.
   */
  method Partitions() returns (count: nat, p0: Result<seq<int>, Exception>,
                               p1: Result<seq<int>, Exception>, p2: Result<seq<int>, Exception>)
    ensures count == 2
    ensures p0 == Success([1, 2, 3, 4]) && p1 == Success([5, 6, 7])
    ensures p2 == Failure(OutOfRange("Partition absent."))
  {
    var v := OneToSeven();
    count := v.NumPartitions();
    p0 := v.GetPartition(0);
    assert |p0.value| == 4 && p0.value == v.Contents()[0..4] == [1, 2, 3, 4];
    p1 := v.GetPartition(1);
    assert |p1.value| == 3 && p1.value == v.Contents()[4..7] == [5, 6, 7];
    p2 := v.GetPartition(2);
  }

  /**
   * The first half of "Swap test": with 4 items per page and 8 slots, the
   * pushes of 0 to 31 fill every slot and hand nothing to the saver; slot 0
   * holds page 0.
   */
  method FillTable() returns (v: VectorCache<int>, db: PageStore<int>)
    ensures fresh(v) && fresh(db) && v.store == db
    ensures v.Valid() && v.itemsPerPage == 4 && v.tableSize == 8
    ensures v.size == 32 && v.numPages == 8 && db.pages == map[]
    ensures v.pageTable[0] == Page([0, 1, 2, 3], true, 0)
  {
    db := new PageStore<int>();
    v := new VectorCache<int>(2, 3, 4, db);
    assert Pow2(2) == 4 && Pow2(3) == 8;
    var i := 0;
    while i < 32
      invariant 0 <= i <= 32 && fresh(db) && v.store == db
      invariant v.Valid() && v.itemsPerPage == 4 && v.tableSize == 8
      invariant v.size == i && v.numPages == CeilDiv(i, 4) && db.pages == map[]
      invariant v.Contents() == seq(i, j => j)
      invariant i >= 4 ==> v.pageTable[0] == Page([0, 1, 2, 3], true, 0)
    {
      SaverCalls(v.pageTable, v.Stored(), v.size, v.numPages, v.itemsPerPage);
      CountUp(i);
      FirstPages(i);
      v.PushBack(i);
      i := i + 1;
    }
  }

  /** The items 0 to `i`, as the loop of "Swap test" pushes them. */
  lemma CountUp(i: nat)
    ensures seq(i, j => j) + [i] == seq(i + 1, j => j)
    ensures i == 3 ==> seq(i + 1, j => j) == [0, 1, 2, 3]
  {
    var s := seq(i, j => j);
    assert forall k | 0 <= k < i + 1 :: (s + [i])[k] == k;
  }

  /** With 4 items per page and 8 slots, the first 32 items go to pages 0 to 7, each in the slot of its number. */
  lemma FirstPages(i: nat)
    requires i < 32
    ensures PageOf(i, 4) == i / 4 && SlotOf(i / 4, 8) == i / 4
    ensures i >= 4 ==> i / 4 != 0
  {
    ModSmall(i / 4, 8);
  }

  /**
   * "Swap test": after the 32 pushes the database is empty; one more push
   * needs page 8, whose slot is slot 0, so page 0 with items 0 to 3 goes
   * to the database.
   */
  method SwapTest() returns (before: map<nat, seq<int>>, after: map<nat, seq<int>>)
    ensures before == map[]
    ensures after == map[0 := [0, 1, 2, 3]]
  {
    var v, db := FillTable();
    before := db.pages;
    SaverCalls(v.pageTable, v.Stored(), v.size, v.numPages, v.itemsPerPage);
    v.PushBack(100);
    after := db.pages;
  }

  /**
   * The move constructor as written leaves the new cache without a saver:
   * with one item per page and one slot, after one push and a move, the
   * next `push_back` needs page 1 while the only slot holds the valid page
   * 0, so it calls the empty saver, which throws `std::bad_function_call`
   * out of a `noexcept` function and ends the program.
   */
  method MoveAsWrittenLosesSaver() returns (hasSaver: bool, nextPushCallsSaver: bool)
    ensures !hasSaver && nextPushCallsSaver
  {
    var db := new PageStore<int>();
    var v := new VectorCache<int>(0, 0, 4, db);
    v.PushBack(7);
    var w := new VectorCache<int>.MovedAsWritten(v);
    hasSaver := w.store != null;
    nextPushCallsSaver := PushCallsSaver(w.pageTable, w.size, w.numPages, w.itemsPerPage);
  }

  /**
   * With the saver and loader carried over by the move, the same cache
   * keeps growing: the push hands page 0 to the database and the new item
   * is at index 1.
   */
  method MoveThenGrow() returns (saved: map<nat, seq<int>>, second: Result<int, Exception>)
    ensures saved == map[0 := [7]]
    ensures second == Success(8)
  {
    var db := new PageStore<int>();
    var v := new VectorCache<int>(0, 0, 4, db);
    v.PushBack(7);
    var w := new VectorCache<int>.Moved(v);
    SaverCalls(w.pageTable, w.Stored(), w.size, w.numPages, w.itemsPerPage);
    w.PushBack(8);
    saved := db.pages;
    second := w.Index(1);
  }
}

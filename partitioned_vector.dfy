/**
 * `PartitionedVector<T, page_size>` (thesoup/types/vector.hpp): a growable
 * vector kept as a list of pages, each page a fixed block of `page_size`
 * bytes holding `page_size / sizeof(T)` items. Item `idx` lives on page
 * `idx / n` at offset `idx - (idx / n) * n`, where `n` is that number of
 * items per page.
 *
 * A page is modelled by the items it holds (the `size` of its slice); the
 * raw memory behind it is not modelled.
 */
module PartitionedVectors {
  import opened Common
  import opened Paging

  /**
   * The shape the pages keep: every page but the last holds exactly `n`
   * items, the last holds between 1 and `n`, there is no page when there is
   * no item, and the pages hold `size` items in all.
   */
  ghost predicate Paged<T>(pages: seq<seq<T>>, n: nat, size: nat) {
    (forall p :: 0 <= p < |pages| - 1 ==> |pages[p]| == n)
    && (|pages| == 0 ==> size == 0)
    && (|pages| > 0 ==> 0 < |pages[|pages| - 1]| <= n)
    && |Flatten(pages)| == size
  }

  /** There are as many pages as `size` items need: `ceil(size / n)`. */
  lemma PageCount<T>(pages: seq<seq<T>>, n: nat, size: nat)
    requires Paged(pages, n, size) && n > 0
    ensures |pages| == CeilDiv(size, n)
    ensures size == 0 <==> |pages| == 0
  {
    if |pages| > 0 {
      var k := |pages|;
      FlattenSize(pages, n);
      MulPlusOne(k - 1, n);
      DivUnique(size + n - 1, n, k);
    }
  }

  /** Item `idx` is found on page `idx / n` at offset `idx - (idx / n) * n`. */
  lemma ItemOnPage<T>(pages: seq<seq<T>>, n: nat, size: nat, idx: nat)
    requires Paged(pages, n, size) && n > 0 && idx < size
    ensures idx / n < |pages|
    ensures idx - (idx / n) * n < |pages[idx / n]|
    ensures pages[idx / n][idx - (idx / n) * n] == Flatten(pages)[idx]
    ensures idx % n == idx - (idx / n) * n
  {
    DivMod(idx, n);
    PageCount(pages, n, size);
    PageInRange(idx, size, n);
    var p := idx / n;
    FlattenPage(pages, n, p);
    if p < |pages| - 1 {
      assert idx - p * n < n == |pages[p]|;
    } else {
      FlattenSize(pages, n);
    }
  }

  /** Page `p` holds the `n` items from `p * n` on, or the remaining ones on the last page. */
  lemma PageItems<T>(pages: seq<seq<T>>, n: nat, size: nat, p: nat)
    requires Paged(pages, n, size) && p < |pages|
    ensures p * n <= size
    ensures |pages[p]| == if size - p * n < n then size - p * n else n
    ensures pages[p] == Flatten(pages)[p * n .. p * n + |pages[p]|]
  {
    FlattenPage(pages, n, p);
    FlattenSize(pages, n);
    if p < |pages| - 1 {
      MulLe(p + 1, |pages| - 1, n);
      MulPlusOne(p, n);
    }
  }

  /** The last page holds the items from its first index to the end. */
  lemma LastPageItems<T>(pages: seq<seq<T>>, n: nat, size: nat)
    requires Paged(pages, n, size) && |pages| > 0
    ensures (|pages| - 1) * n <= size
    ensures pages[|pages| - 1] == Flatten(pages)[(|pages| - 1) * n ..]
  {
    FlattenSize(pages, n);
    FlattenPage(pages, n, |pages| - 1);
  }

  /**
   * Where `push_back` writes: on a new page at offset 0 when `size` fills
   * its pages exactly, and otherwise at the end of the last page.
   */
  lemma PushTarget<T>(pages: seq<seq<T>>, n: nat, size: nat)
    requires Paged(pages, n, size) && n > 0
    ensures size % n == 0 ==> size / n == |pages| && size - (size / n) * n == 0
    ensures size % n != 0 ==> size / n == |pages| - 1 && size - (size / n) * n == |pages[|pages| - 1]|
    ensures size % n == 0 ==> size == |pages| * n
    ensures size % n != 0 ==> |pages| > 0 && |pages[|pages| - 1]| < n && size % n == |pages[|pages| - 1]|
  {
    PageCount(pages, n, size);
    CeilDivStep(size, n);
    assert size == (size / n) * n + size % n;
    if size % n != 0 {
      FlattenSize(pages, n);
    }
  }

  /** Adding one item where `push_back` writes it keeps the page shape and appends the item. */
  lemma PushPaged<T>(pages: seq<seq<T>>, n: nat, size: nat, item: T, pages': seq<seq<T>>)
    requires Paged(pages, n, size) && n > 0
    requires size % n == 0 ==> pages' == pages + [[item]]
    requires size % n != 0 ==> pages' == pages[|pages| - 1 := pages[|pages| - 1] + [item]]
    ensures Paged(pages', n, size + 1)
    ensures Flatten(pages') == Flatten(pages) + [item]
    ensures |pages'| == CeilDiv(size + 1, n)
  {
    PushTarget(pages, n, size);
    CeilDivStep(size, n);
    PageCount(pages, n, size);
    if size % n == 0 {
      PushNewPage(pages, n, size, item);
    } else {
      PushLastPage(pages, n, size, item);
    }
  }

  lemma PushNewPage<T>(pages: seq<seq<T>>, n: nat, size: nat, item: T)
    requires Paged(pages, n, size) && n > 0 && size == |pages| * n
    ensures Paged(pages + [[item]], n, size + 1)
    ensures Flatten(pages + [[item]]) == Flatten(pages) + [item]
  {
    FlattenAppend(pages, [item]);
    if |pages| > 0 {
      FlattenSize(pages, n);
      MulPlusOne(|pages| - 1, n);
    }
  }

  lemma PushLastPage<T>(pages: seq<seq<T>>, n: nat, size: nat, item: T)
    requires Paged(pages, n, size) && n > 0 && |pages| > 0 && |pages[|pages| - 1]| < n
    ensures Paged(pages[|pages| - 1 := pages[|pages| - 1] + [item]], n, size + 1)
    ensures Flatten(pages[|pages| - 1 := pages[|pages| - 1] + [item]]) == Flatten(pages) + [item]
  {
    var k := |pages| - 1;
    var pages' := pages[k := pages[k] + [item]];
    assert pages == pages[..k] + [pages[k]];
    assert pages' == pages[..k] + [pages[k] + [item]];
    FlattenAppend(pages[..k], pages[k]);
    FlattenAppend(pages[..k], pages[k] + [item]);
  }

  class PartitionedVector<T> {
    /** The `page_size` template argument, in bytes. */
    const pageSize: nat
    /** `num_items_per_page`: `page_size / sizeof(T)`. */
    const itemsPerPage: nat
    /** `pages`: the items of each page. */
    var pages: seq<seq<T>>
    /** `_size`. */
    var size: nat

    ghost predicate Valid()
      reads this
    {
      Paged(pages, itemsPerPage, size)
    }

    /** The items of the vector, in index order. */
    ghost function Contents(): seq<T>
      reads this
    {
      Flatten(pages)
    }

    /** `PartitionedVector()`: no page and no item. `itemSize` is `sizeof(T)`. */
    constructor(pageSize: nat, itemSize: nat)
      requires itemSize > 0
      ensures Valid() && Contents() == [] && size == 0 && pages == []
      ensures this.pageSize == pageSize && itemsPerPage == pageSize / itemSize
    {
      this.pageSize := pageSize;
      itemsPerPage := pageSize / itemSize;
      pages := [];
      size := 0;
    }

    /**
     * The move constructor: the new vector takes `other`'s pages and size,
     * and `other` is left with no page and size 0.
     */
    constructor Moved(other: PartitionedVector<T>)
      requires other.Valid()
      modifies other
      ensures Valid() && Contents() == old(other.Contents()) && size == old(other.size)
      ensures pageSize == other.pageSize && itemsPerPage == other.itemsPerPage
      ensures other.Valid() && other.pages == [] && other.size == 0
    {
      pageSize := other.pageSize;
      itemsPerPage := other.itemsPerPage;
      pages := other.pages;
      size := other.size;
      new;
      other.pages := [];
      other.size := 0;
    }

    /**
     * Move assignment: the vector drops its own pages, takes `other`'s pages
     * and size, and resets `other`. Assigning a vector to itself therefore
     * leaves it empty.
     */
    method MoveAssign(other: PartitionedVector<T>)
      requires Valid() && other.Valid()
      requires other.pageSize == pageSize && other.itemsPerPage == itemsPerPage
      modifies this, other
      ensures Valid() && other.Valid()
      ensures other.pages == [] && other.size == 0
      ensures other != this ==> pages == old(other.pages) && size == old(other.size)
      ensures other == this ==> pages == [] && size == 0
    {
      pages := [];
      pages := other.pages;
      size := other.size;
      other.pages := [];
      other.size := 0;
    }

    /**
     * `push_back(item)`: the item goes to page `size / n` at offset
     * `size - page * n`; that page is allocated first when it does not
     * exist yet.
     */
    method PushBack(item: T)
      requires Valid() && itemsPerPage > 0
      modifies this
      ensures Valid()
      ensures Contents() == old(Contents()) + [item] && size == old(size) + 1
      ensures |pages| == CeilDiv(size, itemsPerPage)
    {
      var n := itemsPerPage;
      var pageNumber := size / n;
      var pageOffset := size - pageNumber * n;
      PushTarget(pages, n, size);
      if pageNumber >= |pages| {
        // allocate_new_page: a page holding no item yet
        pages := pages + [[]];
      }
      // the page's slice grows by one and the item is written at its new last offset
      pages := pages[pageNumber := pages[pageNumber] + [item]];
      size := size + 1;
      if old(size) % n == 0 {
        assert pages == old(pages) + [[item]] by {
          assert |pages| == |old(pages)| + 1 && pages[pageNumber] == [item];
          forall i | 0 <= i < |old(pages)|
            ensures pages[i] == old(pages)[i]
          {
          }
        }
      }
      PushPaged(old(pages), n, old(size), item, pages);
    }

    /** `operator[](idx)`: the item at page `idx / n`, offset `idx - page * n`. Indexing past `size` is undefined in the source. */
    function At(idx: nat): (r: T)
      reads this
      requires Valid() && itemsPerPage > 0 && idx < size
      ensures r == Contents()[idx]
    {
      var pageNum := idx / itemsPerPage;
      var pageOffset := idx - pageNum * itemsPerPage;
      ItemOnPage(pages, itemsPerPage, size, idx);
      pages[pageNum][pageOffset]
    }

    /** `size()`: the number of items. */
    function Size(): (r: nat)
      reads this
      requires Valid()
      ensures r == |Contents()|
    {
      size
    }

    /** `num_partitions()`: the number of pages, `ceil(size / n)`. */
    function NumPartitions(): (r: nat)
      reads this
      requires Valid()
      ensures itemsPerPage > 0 ==> r == CeilDiv(size, itemsPerPage)
      ensures r == 0 <==> size == 0
    {
      if itemsPerPage > 0 then PageCount(pages, itemsPerPage, size); |pages| else |pages|
    }

    /** `bytes()`: one `page_size` block per page. */
    function Bytes(): (r: nat)
      reads this
      requires Valid()
      ensures itemsPerPage > 0 ==> r == CeilDiv(size, itemsPerPage) * pageSize
      ensures r == NumPartitions() * pageSize
    {
      if itemsPerPage > 0 then PageCount(pages, itemsPerPage, size); |pages| * pageSize else |pages| * pageSize
    }

    /**
     * `get_partition(partition_id)`: the items of that page, or
     * `std::out_of_range("Partition absent.")` past the last page.
     */
    function GetPartition(partitionId: nat): (r: Result<seq<T>, Exception>)
      reads this
      requires Valid()
      ensures r.Failure? <==> partitionId >= NumPartitions()
      ensures r.Failure? ==> r.error == OutOfRange("Partition absent.")
      ensures r.Success? ==> partitionId * itemsPerPage <= size
      ensures r.Success? ==> |r.value| == if size - partitionId * itemsPerPage < itemsPerPage
                                         then size - partitionId * itemsPerPage else itemsPerPage
      ensures r.Success? ==> r.value == Contents()[partitionId * itemsPerPage .. partitionId * itemsPerPage + |r.value|]
    {
      if partitionId >= |pages| then
        Failure(OutOfRange("Partition absent."))
      else
        PageItems(pages, itemsPerPage, size, partitionId);
        Success(pages[partitionId])
    }

    /** `begin()`. */
    function Begin(): (r: Iterator<PartitionedVector<T>>)
      ensures r.enclosing == this && r.idx == 0
    {
      Iterator(this, 0)
    }

    /** `end()`. */
    function End(): (r: Iterator<PartitionedVector<T>>)
      reads this
      ensures r.enclosing == this && r.idx == size
    {
      Iterator(this, size)
    }
  }

  /** `Iterator::operator*`: the item the iterator stands on. */
  function Deref<T>(it: Iterator<PartitionedVector<T>>): (r: T)
    reads it.enclosing
    requires it.enclosing.Valid() && it.enclosing.itemsPerPage > 0 && it.idx < it.enclosing.size
    ensures r == it.enclosing.Contents()[it.idx]
  {
    it.enclosing.At(it.idx)
  }

  /**
   * Walking from `begin()` with `++` meets every item in index order and
   * reaches `end()` after `size` steps; `begin() - end()` is `size`, since
   * the iterator difference is reversed.
   */
  lemma {:induction false} WalkFromBegin<T>(v: PartitionedVector<T>, i: nat)
    requires v.Valid() && v.itemsPerPage > 0 && i <= v.size < 0x8000_0000_0000_0000
    ensures Steps(v.Begin(), i) == Iterator(v, i)
    ensures i < v.size ==> Deref(Steps(v.Begin(), i)) == v.Contents()[i]
    ensures Steps(v.Begin(), v.size) == v.End()
    ensures Diff(v.Begin(), v.End()) == v.size
  {
    StepsIndex(v.Begin(), i);
    StepsIndex(v.Begin(), v.size);
    DiffReversed(v.Begin(), v.End());
  }
}

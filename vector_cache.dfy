/**
 * `VectorCache<T, page_offset_bits, page_index_bits>`
 * (thesoup/types/vector_cache.hpp): a growable vector whose pages live in a
 * direct-mapped page table of `2^page_index_bits` slots. Page `p` can only
 * be held in slot `p mod 2^page_index_bits`; a page that loses its slot is
 * handed to a `saver` and brought back by a `loader`.
 *
 * Item `idx` is on page `idx / P` at offset `idx mod P`, with
 * `P = 2^page_offset_bits`; the source computes these with bit masks,
 * which for the widths it allows are the same numbers.
 *
 * The saver and loader are modelled by a `PageStore`: an object holding the
 * pages saved so far, as the in-memory database of the tests does. A cache
 * whose saver and loader are empty `std::function`s has no store (`null`).
 */
module VectorCaches {
  import opened Common
  import opened Paging
  import opened PartitionedVectors

  /** A page table entry: the items of the page it holds, `valid`, and `page_number`. */
  datatype Page<T> = Page(items: seq<T>, valid: bool, pageNumber: nat)

  /** The empty entry a page table starts with. */
  function EmptyPage<T>(): Page<T> {
    Page([], false, 0)
  }

  /** The page of item `idx`: the source's `(idx & page_number_bit_mask) >> page_offset_bits`. */
  function PageOf(idx: nat, n: nat): (r: nat)
    requires n > 0
    ensures r <= idx
  {
    DivMod(idx, n);
    idx / n
  }

  /** The offset of item `idx` in its page: the source's `idx & page_offset_bit_mask`. */
  function OffsetOf(idx: nat, n: nat): (r: nat)
    requires n > 0
    ensures r < n
  {
    idx % n
  }

  /** The slot of page `p`: the source's `p & page_table_entry_bit_mask`. */
  function SlotOf(p: nat, ts: nat): (r: nat)
    requires ts > 0
    ensures r < ts && r <= p
  {
    DivMod(p, ts);
    p % ts
  }

  /** The index of the first item of page `p`. */
  function PageStart(p: nat, n: nat): nat {
    p * n
  }

  /** Page `p` is held in the table, in its slot `p mod |table|`. */
  predicate Resident<T>(table: seq<Page<T>>, p: nat)
    requires |table| > 0
  {
    table[SlotOf(p, |table|)].valid && table[SlotOf(p, |table|)].pageNumber == p
  }

  /** The items of page `p`: from its slot when it is resident, otherwise as the store last saved it. */
  function PageView<T>(table: seq<Page<T>>, stored: map<nat, seq<T>>, p: nat): seq<T>
    requires |table| > 0
  {
    if Resident(table, p) then table[SlotOf(p, |table|)].items
    else if p in stored then stored[p]
    else []
  }

  /** Pages `0 .. count - 1` as the cache sees them. */
  ghost function View<T>(table: seq<Page<T>>, stored: map<nat, seq<T>>, count: nat): seq<seq<T>>
    requires |table| > 0
  {
    seq(count, p requires 0 <= p < count => PageView(table, stored, p))
  }

  /** What the store holds after the saver is handed slot `e`'s page, when that slot is valid. */
  function Saved<T>(table: seq<Page<T>>, stored: map<nat, seq<T>>, e: nat): map<nat, seq<T>>
    requires e < |table|
  {
    if table[e].valid then stored[table[e].pageNumber := table[e].items] else stored
  }

  /**
   * The cache invariant. Slot `s` is valid exactly when page `s` exists
   * (pages are created in order, and page `s` is the first to use slot `s`);
   * a valid slot holds an existing page whose number maps to it; every
   * existing page that is not resident is in the store; and the pages as
   * the cache sees them have the shape of a paged vector of `size` items.
   */
  ghost predicate Cached<T>(table: seq<Page<T>>, stored: map<nat, seq<T>>, size: nat, numPages: nat, n: nat) {
    n > 0 && |table| > 0
    && (forall s :: 0 <= s < |table| ==> (table[s].valid <==> s < numPages))
    && (forall s :: 0 <= s < |table| && table[s].valid ==> table[s].pageNumber < numPages && table[s].pageNumber % |table| == s)
    && (forall p :: 0 <= p < numPages && !Resident(table, p) ==> p in stored)
    && Paged(View(table, stored, numPages), n, size)
  }

  /** `push_back`'s test for a page swap: the slot holds another page, or the page does not exist yet. */
  predicate PushSwaps<T>(table: seq<Page<T>>, size: nat, numPages: nat, n: nat)
    requires |table| > 0 && n > 0
  {
    var pn := PageOf(size, n);
    table[SlotOf(pn, |table|)].pageNumber != pn || pn >= numPages
  }

  /** `push_back` hands the slot's page to the saver: it swaps and the slot is valid. */
  predicate PushCallsSaver<T>(table: seq<Page<T>>, size: nat, numPages: nat, n: nat)
    requires |table| > 0 && n > 0
  {
    PushSwaps(table, size, numPages, n) && table[SlotOf(PageOf(size, n), |table|)].valid
  }

  lemma ModSmall(x: nat, m: nat)
    requires x < m
    ensures x % m == x
  {
  }

  lemma ModLe(x: nat, m: nat)
    requires m > 0
    ensures x % m <= x
  {
  }

  /**
   * Putting page `pn` into its slot, after the saver took the slot's
   * previous page, leaves every other page as the cache sees it unchanged.
   */
  lemma SlotReplace<T>(table: seq<Page<T>>, stored: map<nat, seq<T>>, pn: nat, items: seq<T>, p: nat)
    requires |table| > 0 && p != pn
    requires table[pn % |table|].valid ==> table[pn % |table|].pageNumber % |table| == pn % |table|
    ensures PageView(table[pn % |table| := Page(items, true, pn)], Saved(table, stored, pn % |table|), p)
         == PageView(table, stored, p)
  {
    var e := pn % |table|;
    var table' := table[e := Page(items, true, pn)];
    if p % |table| == e {
      assert !Resident(table', p);
    } else {
      assert table'[p % |table|] == table[p % |table|];
    }
  }

  /** Appending to the items of a resident page `pn` leaves every other page unchanged. */
  lemma SlotAppend<T>(table: seq<Page<T>>, stored: map<nat, seq<T>>, pn: nat, item: T, p: nat)
    requires |table| > 0 && Resident(table, pn) && p != pn
    ensures PageView(table[pn % |table| := table[pn % |table|].(items := table[pn % |table|].items + [item])], stored, p)
         == PageView(table, stored, p)
  {
    var e := pn % |table|;
    var table' := table[e := table[e].(items := table[e].items + [item])];
    if p % |table| != e {
      assert table'[p % |table|] == table[p % |table|];
    }
  }

  /**
   * Fetching a page that is not resident: its slot is valid and holds
   * another page, the saver's store then holds the page, and once it is
   * loaded into the slot the cache still sees the same pages.
   */
  lemma Fetch<T>(table: seq<Page<T>>, stored: map<nat, seq<T>>, size: nat, numPages: nat, n: nat, pn: nat)
    requires Cached(table, stored, size, numPages, n)
    requires pn < numPages && !Resident(table, pn)
    ensures var e := pn % |table|;
      table[e].valid && table[e].pageNumber != pn && pn in Saved(table, stored, e) && pn in stored
      && Saved(table, stored, e)[pn] == stored[pn]
    ensures var e := pn % |table|;
      var stored' := Saved(table, stored, e);
      var table' := table[e := Page(stored'[pn], true, pn)];
      Cached(table', stored', size, numPages, n)
      && View(table', stored', numPages) == View(table, stored, numPages)
  {
    var e := pn % |table|;
    ModLe(pn, |table|);
    assert table[e].valid;
    var stored' := Saved(table, stored, e);
    var table' := table[e := Page(stored'[pn], true, pn)];
    forall p | 0 <= p < numPages
      ensures PageView(table', stored', p) == PageView(table, stored, p)
    {
      if p != pn {
        SlotReplace(table, stored, pn, stored'[pn], p);
      }
    }
    assert View(table', stored', numPages) == View(table, stored, numPages);
    forall p | 0 <= p < numPages && !Resident(table', p)
      ensures p in stored'
    {
      if p % |table| != e {
        assert table'[p % |table|] == table[p % |table|];
      }
    }
  }

  /**
   * Appending to the last page when it is resident and not full: the
   * shape is kept and the cache's items gain the new one at the end.
   */
  lemma Append<T>(table: seq<Page<T>>, stored: map<nat, seq<T>>, size: nat, numPages: nat, n: nat, item: T)
    requires Cached(table, stored, size, numPages, n)
    requires size / n < numPages && Resident(table, size / n)
    ensures var e := (size / n) % |table|;
      size % n != 0 && size / n == numPages - 1 && size % n == |table[e].items|
    ensures var e := (size / n) % |table|;
      var table' := table[e := table[e].(items := table[e].items + [item])];
      Cached(table', stored, size + 1, numPages, n)
      && Flatten(View(table', stored, numPages)) == Flatten(View(table, stored, numPages)) + [item]
  {
    var pn := size / n;
    var e := pn % |table|;
    var pages := View(table, stored, numPages);
    PushTarget(pages, n, size);
    assert size % n != 0 && pn == |pages| - 1;
    assert pages[|pages| - 1] == table[e].items;
    var table' := table[e := table[e].(items := table[e].items + [item])];
    var pages' := View(table', stored, numPages);
    forall p | 0 <= p < numPages
      ensures pages'[p] == pages[|pages| - 1 := pages[|pages| - 1] + [item]][p]
    {
      if p != pn {
        SlotAppend(table, stored, pn, item, p);
      }
    }
    assert pages' == pages[|pages| - 1 := pages[|pages| - 1] + [item]];
    PushPaged(pages, n, size, item, pages');
    forall p | 0 <= p < numPages && !Resident(table', p)
      ensures p in stored
    {
      if p % |table| != e {
        assert table'[p % |table|] == table[p % |table|];
      }
    }
  }

  /**
   * Writing past the last page: `size` fills its pages exactly, the new
   * page is number `numPages`, and after the slot's page is saved and the
   * new page holds the item, the cache has one more page and one more item.
   */
  lemma NewPage<T>(table: seq<Page<T>>, stored: map<nat, seq<T>>, size: nat, numPages: nat, n: nat, item: T)
    requires Cached(table, stored, size, numPages, n)
    requires size / n >= numPages
    ensures size % n == 0 && size / n == numPages
    ensures var e := numPages % |table|;
      var stored' := Saved(table, stored, e);
      var table' := table[e := Page([item], true, numPages)];
      Cached(table', stored', size + 1, numPages + 1, n)
      && Flatten(View(table', stored', numPages + 1)) == Flatten(View(table, stored, numPages)) + [item]
  {
    var pages := View(table, stored, numPages);
    PushTarget(pages, n, size);
    var pn := numPages;
    var e := pn % |table|;
    var stored' := Saved(table, stored, e);
    var table' := table[e := Page([item], true, pn)];
    var pages' := View(table', stored', numPages + 1);
    forall p | 0 <= p < numPages + 1
      ensures pages'[p] == (pages + [[item]])[p]
    {
      if p != pn {
        SlotReplace(table, stored, pn, [item], p);
      }
    }
    assert pages' == pages + [[item]];
    PushPaged(pages, n, size, item, pages');
    ModLe(pn, |table|);
    forall s | 0 <= s < |table|
      ensures table'[s].valid <==> s < numPages + 1
    {
      if s == e {
        assert table'[s].valid && s <= numPages;
      } else {
        assert table'[s] == table[s];
        if s == numPages {
          ModSmall(s, |table|);
        }
      }
    }
    forall p | 0 <= p < numPages + 1 && !Resident(table', p)
      ensures p in stored'
    {
      if p % |table| != e {
        assert table'[p % |table|] == table[p % |table|];
      }
    }
  }

  /**
   * The state `push_back` reaches before it writes the item: page
   * `size / n` is the last page, it is resident, `size mod n` is the end of
   * its items, and appending the item there gives a cache of `size + 1`
   * items holding `before` and then the item.
   */
  ghost predicate AppendReady<T>(table: seq<Page<T>>, stored: map<nat, seq<T>>, size: nat, numPages: nat, n: nat,
                                 item: T, before: seq<T>)
  {
    n > 0 && |table| > 0 && size / n < numPages && Resident(table, size / n)
    && size / n == numPages - 1
    && size % n == |table[(size / n) % |table|].items|
    && var e := (size / n) % |table|;
       var table' := table[e := table[e].(items := table[e].items + [item])];
       Cached(table', stored, size + 1, numPages, n) && Flatten(View(table', stored, numPages)) == before + [item]
  }

  /**
   * Writing the item into a ready cache: the cache keeps its invariant and
   * gains the item at the end, the page count is `ceil((size + 1) / n)`,
   * and the slot now holds the last page, whose items are the cache's items
   * from that page's first index on.
   */
  lemma AppendDone<T>(table: seq<Page<T>>, stored: map<nat, seq<T>>, size: nat, numPages: nat, n: nat,
                      item: T, before: seq<T>)
    requires AppendReady(table, stored, size, numPages, n, item, before)
    ensures var e := SlotOf(PageOf(size, n), |table|);
      var table' := table[e := table[e].(items := table[e].items + [item])];
      var pages := View(table', stored, numPages);
      Cached(table', stored, size + 1, numPages, n)
      && Flatten(pages) == before + [item]
      && numPages == CeilDiv(size + 1, n) && numPages >= 1 && PageOf(size, n) == numPages - 1
      && PageStart(numPages - 1, n) <= |Flatten(pages)|
      && table'[e] == Page(Flatten(pages)[PageStart(numPages - 1, n) ..], true, numPages - 1)
  {
    var e := SlotOf(PageOf(size, n), |table|);
    var table' := table[e := table[e].(items := table[e].items + [item])];
    var pages := View(table', stored, numPages);
    LastPageItems(pages, n, size + 1);
    PageCount(pages, n, size + 1);
    assert pages[numPages - 1] == table'[e].items;
  }

  /** No swap: the slot already holds page `size / n`, which exists. */
  lemma PushResident<T>(table: seq<Page<T>>, stored: map<nat, seq<T>>, size: nat, numPages: nat, n: nat, item: T)
    requires Cached(table, stored, size, numPages, n)
    requires size / n < numPages && table[(size / n) % |table|].pageNumber == size / n
    ensures AppendReady(table, stored, size, numPages, n, item, Flatten(View(table, stored, numPages)))
  {
    ModLe(size / n, |table|);
    Append(table, stored, size, numPages, n, item);
  }

  /** A swap that loads page `size / n`, which exists but is not resident. */
  lemma PushLoad<T>(table: seq<Page<T>>, stored: map<nat, seq<T>>, size: nat, numPages: nat, n: nat, item: T)
    requires Cached(table, stored, size, numPages, n)
    requires size / n < numPages && table[(size / n) % |table|].pageNumber != size / n
    ensures size / n in stored
    ensures var pn := size / n;
      var e := pn % |table|;
      AppendReady(table[e := Page(stored[pn], true, pn)], Saved(table, stored, e), size, numPages, n, item,
                  Flatten(View(table, stored, numPages)))
  {
    var pn := size / n;
    var e := pn % |table|;
    Fetch(table, stored, size, numPages, n, pn);
    var table' := table[e := Page(stored[pn], true, pn)];
    Append(table', Saved(table, stored, e), size, numPages, n, item);
  }

  /** A swap that opens page `size / n`, which does not exist yet. */
  lemma PushNew<T>(table: seq<Page<T>>, stored: map<nat, seq<T>>, size: nat, numPages: nat, n: nat, item: T)
    requires Cached(table, stored, size, numPages, n)
    requires size / n >= numPages
    ensures size / n == numPages
    ensures var e := numPages % |table|;
      AppendReady(table[e := Page([], true, numPages)], Saved(table, stored, e), size, numPages + 1, n, item,
                  Flatten(View(table, stored, numPages)))
  {
    NewPage(table, stored, size, numPages, n, item);
    var e := numPages % |table|;
    var table' := table[e := Page([], true, numPages)];
    assert table'[e].items + [item] == [item];
    assert table'[e := table'[e].(items := table'[e].items + [item])] == table[e := Page([item], true, numPages)];
    DivMod(size, n);
  }

  /**
   * The page swap of `push_back`, from `table`, `stored` and `numPages` to
   * `table'`, `stored'` and `numPages'`: nothing changes when the slot
   * already holds page `size / n` and that page exists; otherwise the
   * slot's page goes to the saver when the slot is valid, and the slot
   * becomes a valid entry for that page, empty when the page is new (one
   * more page in all) and otherwise holding the page from the loader.
   */
  ghost predicate SwappedIn<T>(table: seq<Page<T>>, stored: map<nat, seq<T>>, size: nat, numPages: nat, n: nat,
                               table': seq<Page<T>>, stored': map<nat, seq<T>>, numPages': nat)
    requires |table| > 0 && n > 0
  {
    var pn := size / n;
    var e := pn % |table|;
    if !PushSwaps(table, size, numPages, n) then
      table' == table && stored' == stored && numPages' == numPages
    else if pn >= numPages then
      stored' == Saved(table, stored, e) && numPages' == numPages + 1 && table' == table[e := Page([], true, pn)]
    else
      stored' == Saved(table, stored, e) && numPages' == numPages
      && pn in stored && table' == table[e := Page(stored[pn], true, pn)]
  }

  /** Whichever way the swap went, the cache is then ready for the item to be written. */
  lemma PushReady<T>(table: seq<Page<T>>, stored: map<nat, seq<T>>, size: nat, numPages: nat, n: nat, item: T,
                     table': seq<Page<T>>, stored': map<nat, seq<T>>, numPages': nat)
    requires Cached(table, stored, size, numPages, n)
    requires SwappedIn(table, stored, size, numPages, n, table', stored', numPages')
    ensures AppendReady(table', stored', size, numPages', n, item, Flatten(View(table, stored, numPages)))
    ensures |table'| == |table| && table' == table[SlotOf(PageOf(size, n), |table|) := table'[SlotOf(PageOf(size, n), |table|)]]
    ensures stored' == if PushSwaps(table, size, numPages, n) then Saved(table, stored, SlotOf(PageOf(size, n), |table|)) else stored
  {
    var pn := size / n;
    if !PushSwaps(table, size, numPages, n) {
      PushResident(table, stored, size, numPages, n, item);
    } else if pn >= numPages {
      PushNew(table, stored, size, numPages, n, item);
    } else {
      PushLoad(table, stored, size, numPages, n, item);
    }
  }

  /**
   * When every page ever created fits in the table, a push never hands a
   * page to the saver; once the table is full and the pages are full, the
   * next push does.
   */
  lemma SaverCalls<T>(table: seq<Page<T>>, stored: map<nat, seq<T>>, size: nat, numPages: nat, n: nat)
    requires Cached(table, stored, size, numPages, n)
    ensures size / n < |table| ==> !PushCallsSaver(table, size, numPages, n)
    ensures size % n == 0 && numPages >= |table| ==> PushCallsSaver(table, size, numPages, n)
  {
    var pages := View(table, stored, numPages);
    PushTarget(pages, n, size);
    var pn := size / n;
    var e := pn % |table|;
    if pn < |table| {
      ModSmall(pn, |table|);
      if table[e].valid {
        assert table[e].pageNumber % |table| == e;
        ModSmall(table[e].pageNumber, |table|);
        assert table[e].pageNumber == pn;
      }
    }
    if size % n == 0 && numPages >= |table| {
      assert table[e].valid;
    }
  }

  /**
   * The effect of bringing page `pn` in: nothing when it is resident;
   * otherwise its slot's page goes to the saver and the slot then holds
   * page `pn` as the loader returns it.
   */
  ghost predicate BroughtIn<T>(table: seq<Page<T>>, stored: map<nat, seq<T>>, pn: nat,
                               table': seq<Page<T>>, stored': map<nat, seq<T>>)
    requires |table| > 0
  {
    if Resident(table, pn) then table' == table && stored' == stored
    else
      pn in stored
      && stored' == Saved(table, stored, SlotOf(pn, |table|))
      && table' == table[SlotOf(pn, |table|) := Page(stored[pn], true, pn)]
  }

  /** Writing a slot twice leaves the second value. */
  lemma UpdateTwice<X>(s: seq<X>, i: nat, a: X, b: X)
    requires i < |s|
    ensures s[i := a][i := b] == s[i := b]
  {
  }

  /**
   * While there are no more pages than slots, page `p` sits in slot `p`:
   * every page is resident.
   */
  lemma FewPagesResident<T>(table: seq<Page<T>>, stored: map<nat, seq<T>>, size: nat, numPages: nat, n: nat, p: nat)
    requires Cached(table, stored, size, numPages, n)
    requires numPages <= |table| && p < numPages
    ensures Resident(table, p)
  {
    ModSmall(p, |table|);
    assert table[p].valid;
    ModSmall(table[p].pageNumber, |table|);
  }

  /**
   * A cache whose pages are all resident does not depend on its store: with
   * any other store, the empty one included, it sees the same pages and
   * keeps its invariant.
   */
  lemma ResidentNeedsNoStore<T>(table: seq<Page<T>>, stored: map<nat, seq<T>>, stored': map<nat, seq<T>>,
                                size: nat, numPages: nat, n: nat)
    requires Cached(table, stored, size, numPages, n)
    requires forall p :: 0 <= p < numPages ==> Resident(table, p)
    ensures Cached(table, stored', size, numPages, n)
    ensures View(table, stored', numPages) == View(table, stored, numPages)
  {
    forall p | 0 <= p < numPages
      ensures PageView(table, stored', p) == PageView(table, stored, p)
    {
    }
    assert View(table, stored', numPages) == View(table, stored, numPages);
  }

  /**
   * `saver` in the tests: the in-memory database keeps, for each page
   * number, the page it was last handed; `loader` returns it, or fails
   * with `1` for a page it never saw.
   */
  class PageStore<T> {
    var pages: map<nat, seq<T>>

    constructor()
      ensures pages == map[]
    {
      pages := map[];
    }

    /** `save(slice, page_num)`. */
    method Save(page: seq<T>, pageNumber: nat)
      modifies this
      ensures pages == old(pages)[pageNumber := page]
    {
      pages := pages[pageNumber := page];
    }

    /** `load(page_num)`. */
    method Load(pageNumber: nat) returns (r: Result<seq<T>, int>)
      ensures r.Success? <==> pageNumber in pages
      ensures r.Success? ==> r.value == pages[pageNumber]
      ensures r.Failure? ==> r.error == 1
    {
      if pageNumber in pages {
        r := Success(pages[pageNumber]);
      } else {
        r := Failure(1);
      }
    }
  }

  class VectorCache<T> {
    /** `page_offset_bits`. */
    const offsetBits: nat
    /** `page_index_bits`. */
    const indexBits: nat
    /** `sizeof(T)`. */
    const itemSize: nat
    /** `page_size` and `num_items_per_page`: `2^page_offset_bits`. */
    const itemsPerPage: nat
    /** `page_table_size`: `2^page_index_bits`. */
    const tableSize: nat
    /** The store behind `saver` and `loader`; `null` when both are empty. */
    const store: PageStore?<T>
    /** `page_table`. */
    var pageTable: seq<Page<T>>
    /** `_size`. */
    var size: nat
    /** `num_pages`. */
    var numPages: nat

    /** The pages the store holds. */
    ghost function Stored(): map<nat, seq<T>>
      reads store
    {
      if store == null then map[] else store.pages
    }

    ghost predicate Valid()
      reads this, store
    {
      itemsPerPage == Pow2(offsetBits) && tableSize == Pow2(indexBits)
      && itemsPerPage > 0 && tableSize > 0 && |pageTable| == tableSize
      && Cached(pageTable, Stored(), size, numPages, itemsPerPage)
    }

    /** The items of the vector, in index order, wherever their pages are. */
    ghost function Contents(): seq<T>
      reads this, store
    {
      if |pageTable| == 0 then [] else Flatten(View(pageTable, Stored(), numPages))
    }

    /** `VectorCache(saver, loader)`: a table of empty, invalid entries, no page and no item. */
    constructor(offsetBits: nat, indexBits: nat, itemSize: nat, store: PageStore?<T>)
      requires offsetBits + indexBits < 8
      ensures Valid() && Contents() == [] && size == 0 && numPages == 0
      ensures this.offsetBits == offsetBits && this.indexBits == indexBits && this.itemSize == itemSize
      ensures this.store == store
      ensures pageTable == seq(Pow2(indexBits), _ => EmptyPage())
    {
      this.offsetBits := offsetBits;
      this.indexBits := indexBits;
      this.itemSize := itemSize;
      this.store := store;
      itemsPerPage := Pow2(offsetBits);
      tableSize := Pow2(indexBits);
      pageTable := seq(Pow2(indexBits), _ => EmptyPage());
      size := 0;
      numPages := 0;
      new;
      assert View(pageTable, Stored(), 0) == [];
    }

    /**
     * The move constructor as written: it takes `other`'s page table, size
     * and page count and resets `other`, but does not initialise `saver`
     * and `loader`, so the new cache has empty ones. While `other` has no
     * more pages than slots every page is resident, so the new cache still
     * holds `other`'s items and can be read; growing past that needs the
     * saver it lacks.
     */
    constructor MovedAsWritten(other: VectorCache<T>)
      requires other.Valid()
      modifies other
      ensures offsetBits == other.offsetBits && indexBits == other.indexBits && itemSize == other.itemSize
      ensures itemsPerPage == other.itemsPerPage && tableSize == other.tableSize
      ensures store == null && size == old(other.size) && numPages == old(other.numPages)
      ensures pageTable == old(other.pageTable)
      ensures other.pageTable == [] && other.size == 0 && other.numPages == 0
      ensures old(other.numPages) <= tableSize ==> Valid() && Contents() == old(other.Contents())
      ensures other.Size() == 0 && other.Bytes() == 0
    {
      if other.numPages <= other.tableSize {
        forall p | 0 <= p < other.numPages
          ensures Resident(other.pageTable, p)
        {
          FewPagesResident(other.pageTable, other.Stored(), other.size, other.numPages, other.itemsPerPage, p);
        }
        ResidentNeedsNoStore(other.pageTable, other.Stored(), map[], other.size, other.numPages, other.itemsPerPage);
      }
      offsetBits := other.offsetBits;
      indexBits := other.indexBits;
      itemSize := other.itemSize;
      itemsPerPage := other.itemsPerPage;
      tableSize := other.tableSize;
      store := null;
      pageTable := other.pageTable;
      size := other.size;
      numPages := other.numPages;
      new;
      other.pageTable := [];
      other.size := 0;
      other.numPages := 0;
    }

    /**
     * The move constructor with `saver` and `loader` taken over from
     * `other`: the new cache holds `other`'s items and can keep growing,
     * and `other` is left with no page table, size 0 and no page.
     */
    constructor Moved(other: VectorCache<T>)
      requires other.Valid()
      modifies other
      ensures Valid() && Contents() == old(other.Contents())
      ensures offsetBits == other.offsetBits && indexBits == other.indexBits && itemSize == other.itemSize
      ensures itemsPerPage == other.itemsPerPage && tableSize == other.tableSize
      ensures store == other.store && size == old(other.size) && numPages == old(other.numPages)
      ensures pageTable == old(other.pageTable)
      ensures other.pageTable == [] && other.size == 0 && other.numPages == 0
      ensures other.Size() == 0 && other.Bytes() == 0
    {
      offsetBits := other.offsetBits;
      indexBits := other.indexBits;
      itemSize := other.itemSize;
      itemsPerPage := other.itemsPerPage;
      tableSize := other.tableSize;
      store := other.store;
      pageTable := other.pageTable;
      size := other.size;
      numPages := other.numPages;
      new;
      other.pageTable := [];
      other.size := 0;
      other.numPages := 0;
    }

    /**
     * The page swap of `push_back` for page `pn`, taken when the slot holds
     * another page or page `pn` does not exist yet: the slot's page goes to
     * the saver when the slot is valid; the slot then gets a new empty page
     * (one more page in all) or page `pn` from the loader, and is marked
     * valid for page `pn`.
     */
    method SwapIn(pn: nat)
      requires Valid() && pn == PageOf(size, itemsPerPage)
      requires store == null ==> !PushCallsSaver(pageTable, size, numPages, itemsPerPage)
      modifies this, store
      ensures size == old(size) && |pageTable| == tableSize
      ensures SwappedIn(old(pageTable), old(Stored()), size, old(numPages), itemsPerPage, pageTable, Stored(), numPages)
    {
      DivMod(pn, |pageTable|);
      var e := SlotOf(pn, |pageTable|);
      if pageTable[e].pageNumber != pn || pn >= numPages {
        if pn < numPages {
          Fetch(pageTable, Stored(), size, numPages, itemsPerPage, pn);
        }
        if pageTable[e].valid {
          store.Save(pageTable[e].items, pageTable[e].pageNumber);
        }
        if pn >= numPages {
          pageTable := pageTable[e := pageTable[e].(items := [])];
          numPages := numPages + 1;
        } else {
          var loaded := store.Load(pn);
          pageTable := pageTable[e := pageTable[e].(items := loaded.value, pageNumber := pn)];
        }
        pageTable := pageTable[e := pageTable[e].(valid := true, pageNumber := pn)];
      }
    }

    /**
     * The write of `push_back`, once page `size / P` is resident and is the
     * last page: its items grow by one and the item is written at offset
     * `size mod P`, the new end of the page; then `_size` grows by one.
     */
    method WriteItem(item: T, ghost before: seq<T>)
      requires itemsPerPage == Pow2(offsetBits) && tableSize == Pow2(indexBits) && |pageTable| == tableSize
      requires AppendReady(pageTable, Stored(), size, numPages, itemsPerPage, item, before)
      modifies this
      ensures Valid() && Contents() == before + [item] && size == old(size) + 1
      ensures numPages == old(numPages) && numPages == CeilDiv(size, itemsPerPage)
      ensures numPages >= 1 && PageOf(old(size), itemsPerPage) == numPages - 1
      ensures PageStart(numPages - 1, itemsPerPage) <= |Contents()|
        && pageTable == old(pageTable)[SlotOf(numPages - 1, tableSize) :=
                          Page(Contents()[PageStart(numPages - 1, itemsPerPage) ..], true, numPages - 1)]
    {
      var n := itemsPerPage;
      var pageOffset := OffsetOf(size, n);
      var e := SlotOf(PageOf(size, n), |pageTable|);
      ghost var stored := Stored();
      AppendDone(pageTable, stored, size, numPages, n, item, before);
      assert pageOffset == |pageTable[e].items|;
      var table := pageTable[e := pageTable[e].(items := pageTable[e].items + [item])];
      assert Cached(table, stored, size + 1, numPages, n);
      pageTable, size := table, size + 1;
      assert Stored() == stored;
    }

    /**
     * `push_back(item)`: a page swap when the slot of page `size / P` holds
     * another page or that page does not exist yet, then the write. The
     * pushed page is then the last page, it is resident, and its slot holds
     * the items from its first index on.
     *
     * `push_back` is `noexcept`: calling an empty saver ends the program,
     * hence the second precondition.
     */
    method PushBack(item: T)
      requires Valid()
      requires store == null ==> !PushCallsSaver(pageTable, size, numPages, itemsPerPage)
      modifies this, store
      ensures Valid()
      ensures Contents() == old(Contents()) + [item] && size == old(size) + 1
      ensures numPages == CeilDiv(size, itemsPerPage)
      ensures Stored() == if old(PushSwaps(pageTable, size, numPages, itemsPerPage))
                          then old(Saved(pageTable, Stored(), SlotOf(PageOf(size, itemsPerPage), tableSize)))
                          else old(Stored())
      ensures numPages >= 1 && PageOf(old(size), itemsPerPage) == numPages - 1
      ensures PageStart(numPages - 1, itemsPerPage) <= |Contents()|
        && pageTable == old(pageTable)[SlotOf(numPages - 1, tableSize) :=
                          Page(Contents()[PageStart(numPages - 1, itemsPerPage) ..], true, numPages - 1)]
    {
      var pageNumber := PageOf(size, itemsPerPage);
      ghost var table0, stored0, numPages0 := pageTable, Stored(), numPages;
      SwapIn(pageNumber);
      PushReady(table0, stored0, size, numPages0, itemsPerPage, item, pageTable, Stored(), numPages);
      AppendSwapped(item, old(Contents()), table0);
    }

    /**
     * The write of `push_back` after the swap, which changed at most the
     * slot of page `size / P` of `table0`: the final table is `table0` with
     * that slot holding the last page.
     */
    method AppendSwapped(item: T, ghost before: seq<T>, ghost table0: seq<Page<T>>)
      requires itemsPerPage == Pow2(offsetBits) && tableSize == Pow2(indexBits) && |pageTable| == tableSize
      requires AppendReady(pageTable, Stored(), size, numPages, itemsPerPage, item, before)
      requires |table0| == tableSize
      requires pageTable == table0[SlotOf(PageOf(size, itemsPerPage), tableSize) := pageTable[SlotOf(PageOf(size, itemsPerPage), tableSize)]]
      modifies this
      ensures Valid() && Contents() == before + [item] && size == old(size) + 1
      ensures numPages == old(numPages) && numPages == CeilDiv(size, itemsPerPage)
      ensures numPages >= 1 && PageOf(old(size), itemsPerPage) == numPages - 1
      ensures PageStart(numPages - 1, itemsPerPage) <= |Contents()|
        && pageTable == table0[SlotOf(numPages - 1, tableSize) :=
                          Page(Contents()[PageStart(numPages - 1, itemsPerPage) ..], true, numPages - 1)]
    {
      ghost var e, table1 := SlotOf(PageOf(size, itemsPerPage), tableSize), pageTable;
      WriteItem(item, before);
      assert e == SlotOf(numPages - 1, tableSize);
      UpdateTwice(table0, e, table1[e], pageTable[e]);
    }

    /**
     * Bringing page `pn` into its slot for `operator[]` and
     * `get_partition`: the slot's page goes to the saver, and the loader
     * supplies page `pn`.
     */
    method Reload(pn: nat)
      requires Valid() && pn < numPages && !Resident(pageTable, pn)
      modifies this, store
      ensures Valid() && Contents() == old(Contents())
      ensures size == old(size) && numPages == old(numPages)
      ensures Resident(pageTable, pn)
      ensures Stored() == old(Saved(pageTable, Stored(), SlotOf(pn, tableSize)))
      ensures pn in old(Stored()) && pageTable == old(pageTable)[SlotOf(pn, tableSize) := Page(old(Stored())[pn], true, pn)]
    {
      var e := SlotOf(pn, |pageTable|);
      Fetch(pageTable, Stored(), size, numPages, itemsPerPage, pn);
      store.Save(pageTable[e].items, pageTable[e].pageNumber);
      var loaded := store.Load(pn);
      pageTable := pageTable[e := pageTable[e].(items := loaded.value, pageNumber := pn)];
    }

    /**
     * The first part of `operator[]` and `get_partition`: page `pn` is
     * brought into its slot unless it is resident. The source's third
     * branch, for an invalid slot, cannot be taken: the slot of an existing
     * page is always valid.
     */
    method BringIn(pn: nat)
      requires Valid() && pn < numPages
      modifies this, store
      ensures Valid() && Contents() == old(Contents())
      ensures size == old(size) && numPages == old(numPages)
      ensures Resident(pageTable, pn)
      ensures BroughtIn(old(pageTable), old(Stored()), pn, pageTable, Stored())
    {
      var e := SlotOf(pn, |pageTable|);
      if pageTable[e].pageNumber != pn && pageTable[e].valid {
        Reload(pn);
      } else if !pageTable[e].valid {
        assert false;
      }
    }

    /**
     * `operator[](idx)`: `std::out_of_range` past the last item; otherwise
     * page `idx / P` is brought into its slot and the item at offset
     * `idx mod P` of that slot is returned.
     */
    method Index(idx: nat) returns (r: Result<T, Exception>)
      requires Valid()
      modifies this, store
      ensures Valid() && Contents() == old(Contents())
      ensures size == old(size) && numPages == old(numPages)
      ensures r.Failure? <==> idx >= size
      ensures r.Failure? ==> r.error == OutOfRange("Array index out of bounds for VectorCache of size " + Decimal(size))
      ensures r.Failure? ==> Stored() == old(Stored()) && pageTable == old(pageTable)
      ensures r.Success? ==> r.value == Contents()[idx] && Resident(pageTable, PageOf(idx, itemsPerPage))
      ensures r.Success? ==> BroughtIn(old(pageTable), old(Stored()), PageOf(idx, itemsPerPage), pageTable, Stored())
    {
      if idx >= size {
        return Failure(OutOfRange("Array index out of bounds for VectorCache of size " + Decimal(size)));
      }
      var n := itemsPerPage;
      var pageNumber := PageOf(idx, n);
      var pageOffset := OffsetOf(idx, n);
      var e := SlotOf(pageNumber, |pageTable|);
      ItemOnPage(View(pageTable, Stored(), numPages), n, size, idx);
      BringIn(pageNumber);
      ItemOnPage(View(pageTable, Stored(), numPages), n, size, idx);
      r := Success(pageTable[e].items[pageOffset]);
    }

    /**
     * `get_partition(page_number)`: `std::out_of_range("Partition absent.")`
     * past the last page; otherwise the page is brought into its slot as in
     * `operator[]` and its items are returned.
     */
    method GetPartition(partitionId: nat) returns (r: Result<seq<T>, Exception>)
      requires Valid()
      modifies this, store
      ensures Valid() && Contents() == old(Contents())
      ensures size == old(size) && numPages == old(numPages)
      ensures r.Failure? <==> partitionId >= NumPartitions()
      ensures r.Failure? ==> r.error == OutOfRange("Partition absent.")
      ensures r.Failure? ==> Stored() == old(Stored()) && pageTable == old(pageTable)
      ensures r.Success? ==> PageStart(partitionId, itemsPerPage) <= size
      ensures r.Success? ==> |r.value| == if size - PageStart(partitionId, itemsPerPage) < itemsPerPage
                                         then size - PageStart(partitionId, itemsPerPage) else itemsPerPage
      ensures r.Success? ==> r.value == Contents()[PageStart(partitionId, itemsPerPage) .. PageStart(partitionId, itemsPerPage) + |r.value|]
      ensures r.Success? ==> BroughtIn(old(pageTable), old(Stored()), partitionId, pageTable, Stored())
    {
      if partitionId >= numPages {
        PageCount(View(pageTable, Stored(), numPages), itemsPerPage, size);
        return Failure(OutOfRange("Partition absent."));
      }
      var items := ReadPage(partitionId);
      r := Success(items);
    }

    /** The success path of `get_partition`: page `pn` is brought in and its items returned. */
    method ReadPage(pn: nat) returns (items: seq<T>)
      requires Valid() && pn < numPages
      modifies this, store
      ensures Valid() && Contents() == old(Contents())
      ensures size == old(size) && numPages == old(numPages)
      ensures PageStart(pn, itemsPerPage) <= size
      ensures |items| == if size - PageStart(pn, itemsPerPage) < itemsPerPage
                         then size - PageStart(pn, itemsPerPage) else itemsPerPage
      ensures items == Contents()[PageStart(pn, itemsPerPage) .. PageStart(pn, itemsPerPage) + |items|]
      ensures BroughtIn(old(pageTable), old(Stored()), pn, pageTable, Stored())
    {
      var e := SlotOf(pn, |pageTable|);
      BringIn(pn);
      ghost var pages := View(pageTable, Stored(), numPages);
      assert Contents() == Flatten(pages) && pages[pn] == pageTable[e].items;
      PageItems(pages, itemsPerPage, size, pn);
      items := pageTable[e].items;
    }

    /** `size()`. */
    function Size(): (r: nat)
      reads this, store
      ensures Valid() ==> r == |Contents()|
    {
      size
    }

    /** `num_partitions()`: the number of pages, `ceil(size / P)`. */
    function NumPartitions(): (r: nat)
      reads this, store
      requires Valid()
      ensures r == CeilDiv(size, itemsPerPage)
      ensures r == 0 <==> size == 0
    {
      PageCount(View(pageTable, Stored(), numPages), itemsPerPage, size);
      numPages
    }

    /** `bytes()`: `num_pages * page_size * sizeof(T)`. */
    function Bytes(): (r: nat)
      reads this
      ensures r == numPages * itemsPerPage * itemSize
      ensures numPages == 0 ==> r == 0
    {
      numPages * itemsPerPage * itemSize
    }

    /** `begin()`. */
    function Begin(): (r: Iterator<VectorCache<T>>)
      ensures r.enclosing == this && r.idx == 0
    {
      Iterator(this, 0)
    }

    /** `end()`. */
    function End(): (r: Iterator<VectorCache<T>>)
      reads this
      ensures r.enclosing == this && r.idx == size
    {
      Iterator(this, size)
    }
  }

  /**
   * `bytes()` counts whole pages: `ceil(size / P) * P * sizeof(T)`, 0 for an
   * empty cache; the pages hold every item with less than a page to spare.
   */
  lemma BytesOfPages<T>(v: VectorCache<T>)
    requires v.Valid()
    ensures v.Bytes() == CeilDiv(v.size, v.itemsPerPage) * v.itemsPerPage * v.itemSize
    ensures v.Bytes() == v.NumPartitions() * Pow2(v.offsetBits) * v.itemSize
    ensures v.size <= v.numPages * v.itemsPerPage < v.size + v.itemsPerPage
  {
    var pages := View(v.pageTable, v.Stored(), v.numPages);
    PageCount(pages, v.itemsPerPage, v.size);
    if v.numPages > 0 {
      FlattenSize(pages, v.itemsPerPage);
      MulPlusOne(v.numPages - 1, v.itemsPerPage);
    }
  }

  /**
   * `Iterator::operator*`: `(*enclosing)[idx]`. The operator is `noexcept`,
   * so an index past the end ends the program; the method requires an index
   * in range and returns the item, bringing its page in as `operator[]`
   * does.
   */
  method Deref<T>(it: Iterator<VectorCache<T>>) returns (r: T)
    requires it.enclosing.Valid() && it.idx < it.enclosing.size
    modifies it.enclosing, it.enclosing.store
    ensures it.enclosing.Valid() && it.enclosing.Contents() == old(it.enclosing.Contents())
    ensures it.enclosing.size == old(it.enclosing.size)
    ensures r == it.enclosing.Contents()[it.idx]
  {
    var res := it.enclosing.Index(it.idx);
    r := res.value;
  }

  /**
   * Walking from `begin()` with `++` visits indices 0, 1, ... and reaches
   * `end()` after `size` steps, which is what the range-for loop counts;
   * `begin() - end()` (the source's reversed difference) is `size`.
   */
  lemma {:induction false} WalkFromBegin<T>(v: VectorCache<T>, i: nat)
    requires i <= v.size < 0x8000_0000_0000_0000
    ensures Steps(v.Begin(), i) == Iterator(v, i)
    ensures Steps(v.Begin(), v.size) == v.End()
    ensures Diff(v.Begin(), v.End()) == v.size
  {
    StepsIndex(v.Begin(), i);
    StepsIndex(v.Begin(), v.size);
    DiffReversed(v.Begin(), v.End());
  }
}

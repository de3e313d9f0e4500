/**
 * What the two paged containers of thesoup/types (`PartitionedVector` in
 * vector.hpp and `VectorCache` in vector_cache.hpp) have in common: the
 * arithmetic that splits an index into a page number and an offset, the
 * flattening of a sequence of pages into the items they hold, the decimal
 * rendering of a count in an error message, and the random-access
 * `Iterator` both of them declare with the same body.
 *
 * `std::size_t` is 64 bits wide; where the source lets it wrap around
 * (iterator arithmetic) the model says so with `Wrap`.
 */
module Paging {

  /** 2 to the power `k`: `1 << k` for the small widths the containers allow. */
  function Pow2(k: nat): (r: nat)
    ensures r >= 1
  {
    if k == 0 then 1 else 2 * Pow2(k - 1)
  }

  /** Number of pages of `n` items needed for `size` items. */
  function CeilDiv(size: nat, n: nat): nat
    requires n > 0
  {
    (size + n - 1) / n
  }

  lemma MulLe(a: int, b: int, n: int)
    requires a <= b && n >= 0
    ensures a * n <= b * n
  {
    assert b * n - a * n == (b - a) * n;
  }

  lemma MulPlusOne(q: int, n: int)
    ensures (q + 1) * n == q * n + n
  {
  }

  /** Quotient and remainder of a natural number by a positive one. */
  lemma DivMod(x: nat, n: nat)
    requires n > 0
    ensures 0 <= x / n <= x && 0 <= x % n < n && x == (x / n) * n + x % n
  {
    var q, r := x / n, x % n;
    assert x == q * n + r && 0 <= r < n;
    if q < 0 {
      MulLe(q, -1, n);
    } else {
      MulLe(1, n, q);
      assert n * q == q * n;
    }
  }

  /** The quotient and remainder of `x` by `n` are the only `q`, `x - q * n` with the remainder in `[0, n)`. */
  lemma DivUnique(x: int, n: int, q: int)
    requires n > 0 && q * n <= x < q * n + n
    ensures x / n == q && x % n == x - q * n
  {
    var d, m := x / n, x % n;
    assert x == d * n + m && 0 <= m < n;
    if d < q {
      assert (d + 1) * n == d * n + n;
      MulLe(d + 1, q, n);
    } else if d > q {
      assert (q + 1) * n == q * n + n;
      MulLe(q + 1, d, n);
    }
  }

  /**
   * The page count of `size` items: `size` fills its last page exactly when
   * it is a multiple of `n`, and one more item then opens a new page.
   */
  lemma CeilDivStep(size: nat, n: nat)
    requires n > 0
    ensures size % n == 0 ==> size / n == CeilDiv(size, n) && CeilDiv(size + 1, n) == CeilDiv(size, n) + 1
    ensures size % n != 0 ==> size / n == CeilDiv(size, n) - 1 && CeilDiv(size + 1, n) == CeilDiv(size, n)
  {
    var q := size / n;
    var qn := q * n;
    DivUnique(size, n, q);
    MulPlusOne(q, n);
    if size % n == 0 {
      CeilDivFull(size, n, q, qn);
    } else {
      CeilDivPart(size, n, q, qn);
    }
  }

  lemma CeilDivFull(size: nat, n: nat, q: int, qn: int)
    requires n > 0 && qn == q * n && size == qn && (q + 1) * n == qn + n
    ensures (size + n - 1) / n == q && (size + n) / n == q + 1
  {
    DivUnique(size + n - 1, n, q);
    DivUnique(size + n, n, q + 1);
  }

  lemma CeilDivPart(size: nat, n: nat, q: int, qn: int)
    requires n > 0 && qn == q * n && qn < size < qn + n && (q + 1) * n == qn + n
    ensures (size + n - 1) / n == q + 1 && (size + n) / n == q + 1
  {
    DivUnique(size + n - 1, n, q + 1);
    DivUnique(size + n, n, q + 1);
  }

  /** Every item of `size` lies on one of its `CeilDiv(size, n)` pages. */
  lemma PageInRange(idx: nat, size: nat, n: nat)
    requires n > 0 && idx < size
    ensures idx / n < CeilDiv(size, n)
    ensures (idx / n) * n <= idx < (idx / n) * n + n
  {
    var q := idx / n;
    assert idx == q * n + idx % n;
    DivUnique(size + n - 1, n, CeilDiv(size, n));
    if q >= CeilDiv(size, n) {
      MulLe(CeilDiv(size, n), q, n);
      assert false;
    }
  }

  /** The items of a sequence of pages, first page first. */
  function Flatten<T>(pages: seq<seq<T>>): (r: seq<T>)
    decreases |pages|
  {
    if pages == [] then [] else pages[0] + Flatten(pages[1..])
  }

  /** Appending a page appends its items. */
  lemma {:induction false} FlattenAppend<T>(pages: seq<seq<T>>, page: seq<T>)
    ensures Flatten(pages + [page]) == Flatten(pages) + page
    decreases |pages|
  {
    if pages == [] {
      assert [page][1..] == [];
    } else {
      assert (pages + [page])[1..] == pages[1..] + [page];
      FlattenAppend(pages[1..], page);
    }
  }

  /**
   * When every page before page `p` holds `n` items, page `p` holds the
   * items from `p * n` on: the item at offset `o` of page `p` is item
   * `p * n + o` of the whole.
   */
  lemma {:induction false} FlattenPage<T>(pages: seq<seq<T>>, n: nat, p: nat)
    requires p < |pages|
    requires forall q :: 0 <= q < p ==> |pages[q]| == n
    ensures p * n + |pages[p]| <= |Flatten(pages)|
    ensures Flatten(pages)[p * n .. p * n + |pages[p]|] == pages[p]
    decreases p
  {
    if p > 0 {
      FlattenPage(pages[1..], n, p - 1);
      assert (p - 1) * n + n == p * n;
    }
  }

  /** When every page but the last holds `n` items, the items number `n` per full page plus the last page's. */
  lemma {:induction false} FlattenSize<T>(pages: seq<seq<T>>, n: nat)
    requires |pages| > 0
    requires forall q :: 0 <= q < |pages| - 1 ==> |pages[q]| == n
    ensures |Flatten(pages)| == (|pages| - 1) * n + |pages[|pages| - 1]|
    decreases |pages|
  {
    if |pages| > 1 {
      FlattenSize(pages[1..], n);
      assert (|pages| - 2) * n + n == (|pages| - 1) * n;
    }
  }

  /** The character of a decimal digit. */
  function DigitChar(d: nat): (c: char)
    requires d < 10
    ensures '0' <= c <= '9' && (c - '0') as nat == d
  {
    '0' + d as char
  }

  /** The value of a string of decimal digits, most significant first. */
  function DigitsValue(s: string): nat
    requires forall i :: 0 <= i < |s| ==> '0' <= s[i] <= '9'
  {
    if s == [] then 0 else 10 * DigitsValue(s[..|s| - 1]) + (s[|s| - 1] - '0') as nat
  }

  /**
   * The decimal digits of `n`, most significant first, as `std::to_string`
   * prints a count: digits only, no leading zero, a single digit exactly
   * below ten, and read back they give `n`.
   */
  function Decimal(n: nat): (r: string)
    ensures |r| >= 1 && forall i :: 0 <= i < |r| ==> '0' <= r[i] <= '9'
    ensures r[0] == '0' ==> n == 0
    ensures (n < 10) == (|r| == 1)
    ensures DigitsValue(r) == n
    decreases n
  {
    var d := DigitChar(n % 10);
    if n < 10 then [d]
    else
      var s := Decimal(n / 10);
      assert (s + [d])[..|s|] == s;
      s + [d]
  }

  /** `std::size_t` arithmetic: reduction modulo 2^64. */
  function Wrap(x: int): (r: nat)
    ensures r < 0x1_0000_0000_0000_0000
    ensures 0 <= x < 0x1_0000_0000_0000_0000 ==> r == x
  {
    x % 0x1_0000_0000_0000_0000
  }

  /** A `std::size_t` read as a `std::ptrdiff_t` (two's complement). */
  function Signed(x: nat): (r: int)
    requires x < 0x1_0000_0000_0000_0000
    ensures -0x8000_0000_0000_0000 <= r < 0x8000_0000_0000_0000
    ensures Wrap(r) == x
  {
    if x < 0x8000_0000_0000_0000 then x else x - 0x1_0000_0000_0000_0000
  }

  /**
   * The container's `Iterator`: the container it walks and an index. `C` is
   * the container class; `operator*` is defined by each container.
   */
  datatype Iterator<C> = Iterator(enclosing: C, idx: nat)

  /** `operator++` (and the index update of the postfix form): one on, wrapping from 2^64 - 1 to 0. */
  function Next<C>(it: Iterator<C>): (r: Iterator<C>)
    ensures r.enclosing == it.enclosing && InRange(r)
    ensures it.idx + 1 < 0x1_0000_0000_0000_0000 ==> r.idx == it.idx + 1
    ensures it.idx == 0xffff_ffff_ffff_ffff ==> r.idx == 0
  {
    it.(idx := Wrap(it.idx + 1))
  }

  /** `operator--` (and the index update of the postfix form): one back, wrapping from 0 to 2^64 - 1. */
  function Prev<C>(it: Iterator<C>): (r: Iterator<C>)
    ensures r.enclosing == it.enclosing && InRange(r)
    ensures 0 < it.idx < 0x1_0000_0000_0000_0000 ==> r.idx == it.idx - 1
    ensures it.idx == 0 ==> r.idx == 0xffff_ffff_ffff_ffff
  {
    it.(idx := Wrap(it.idx - 1))
  }

  /** `operator+(val)` and `operator+=(val)`: `val` on, modulo 2^64. */
  function Plus<C>(it: Iterator<C>, val: nat): (r: Iterator<C>)
    ensures r.enclosing == it.enclosing && InRange(r)
    ensures it.idx + val < 0x1_0000_0000_0000_0000 ==> r.idx == it.idx + val
  {
    it.(idx := Wrap(it.idx + val))
  }

  /** `operator-(val)` and `operator-=(val)`: `val` back, modulo 2^64. */
  function Minus<C>(it: Iterator<C>, val: nat): (r: Iterator<C>)
    ensures r.enclosing == it.enclosing && InRange(r)
    ensures val <= it.idx < 0x1_0000_0000_0000_0000 ==> r.idx == it.idx - val
    ensures it.idx < val <= it.idx + 0x1_0000_0000_0000_0000 ==> r.idx == it.idx - val + 0x1_0000_0000_0000_0000
  {
    it.(idx := Wrap(it.idx - val))
  }

  /** `it - other`: the source subtracts `it`'s index from `other`'s, not the other way round. */
  function Diff<C>(it: Iterator<C>, other: Iterator<C>): (r: int)
    ensures -0x8000_0000_0000_0000 <= r < 0x8000_0000_0000_0000
    ensures it.idx == other.idx ==> r == 0
  {
    Signed(Wrap(other.idx - it.idx))
  }

  /** `operator==`. */
  predicate Equal<C(==)>(it: Iterator<C>, other: Iterator<C>): (r: bool)
    ensures r <==> it == other
  {
    it.enclosing == other.enclosing && it.idx == other.idx
  }

  /** `operator!=`. */
  predicate NotEqual<C(==)>(it: Iterator<C>, other: Iterator<C>): (r: bool)
    ensures r <==> it != other
  {
    it.enclosing != other.enclosing || it.idx != other.idx
  }

  /** An iterator whose index is a `std::size_t`. */
  predicate InRange<C>(it: Iterator<C>) {
    it.idx < 0x1_0000_0000_0000_0000
  }

  /** Stepping forward then back, or moving by `val` and back, returns to the same iterator. */
  lemma StepsUndo<C>(it: Iterator<C>, val: nat)
    requires InRange(it)
    ensures Prev(Next(it)) == it && Next(Prev(it)) == it
    ensures Minus(Plus(it, val), val) == it && Plus(Minus(it, val), val) == it
  {
    WrapShift(it.idx + 1, -1);
    WrapShift(it.idx - 1, 1);
    WrapShift(it.idx + val, -(val as int));
    WrapShift(it.idx - val, val);
  }

  /** Reducing modulo 2^64 before an addition does not change the wrapped sum. */
  lemma WrapShift(x: int, y: int)
    ensures Wrap(Wrap(x) + y) == Wrap(x + y)
  {
    var q := x / 0x1_0000_0000_0000_0000;
    var a := x + y;
    assert Wrap(x) + y == a - q * 0x1_0000_0000_0000_0000;
    assert a - q * 0x1_0000_0000_0000_0000 == (a / 0x1_0000_0000_0000_0000 - q) * 0x1_0000_0000_0000_0000 + a % 0x1_0000_0000_0000_0000;
  }

  /** `!=` is the negation of `==`, and `==` is equality of container and index. */
  lemma EqualityAgrees<C>(it: Iterator<C>, other: Iterator<C>)
    ensures Equal(it, other) <==> it == other
    ensures NotEqual(it, other) <==> !Equal(it, other)
  {
  }

  /**
   * `it - other` is `other.idx - it.idx`: the distance from `it` to `other`,
   * the opposite sign of the usual random-access convention. So moving
   * `other` forward by `other - it` lands on `it`, and `end() - begin()` of a
   * container of `size` items is `-size`.
   */
  lemma DiffReversed<C>(it: Iterator<C>, other: Iterator<C>)
    requires it.idx < 0x8000_0000_0000_0000 && other.idx < 0x8000_0000_0000_0000
    ensures Diff(it, other) == other.idx - it.idx
    ensures other.idx <= it.idx && it.enclosing == other.enclosing ==> Plus(other, Diff(other, it)) == it
  {
    if other.idx >= it.idx {
      assert Wrap(other.idx - it.idx) == other.idx - it.idx;
    } else {
      assert Wrap(other.idx - it.idx) == other.idx - it.idx + 0x1_0000_0000_0000_0000;
    }
    if other.idx <= it.idx {
      assert Wrap(it.idx - other.idx) == it.idx - other.idx;
    }
  }

  /** `it` advanced `i` times with `++`. */
  function Steps<C>(it: Iterator<C>, i: nat): (r: Iterator<C>)
    ensures r.enclosing == it.enclosing
    ensures i > 0 ==> InRange(r)
  {
    if i == 0 then it else Next(Steps(it, i - 1))
  }

  lemma {:induction false} StepsIndex<C>(it: Iterator<C>, i: nat)
    requires it.idx + i < 0x1_0000_0000_0000_0000
    ensures Steps(it, i) == it.(idx := it.idx + i)
  {
    if i > 0 {
      StepsIndex(it, i - 1);
    }
  }
}

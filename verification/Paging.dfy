/** Page slicing in Go's wrapping 64-bit integers, against the page arithmetic it stands for. */
module Paging {
  import opened Core

  /** Two's-complement wrap-around of an `int` result. */
  function Wrap(x: int): (w: int64)
    ensures -TWO63 <= x < TWO63 ==> w == x
  {
    (x + TWO63) % TWO64 - TWO63
  }

  /** `Panics` is Go's slice-bounds panic. */
  datatype Outcome<+T> = Page(items: seq<T>, total: int) | Panics

  function MemorySize(size: int64): (s: int64)
    ensures s > 0
  {
    if size <= 0 then 50 else size
  }

  function PageNumber(page: int64): (p: int64)
    ensures p > 0
  {
    if page <= 0 then 1 else page
  }

  function Min(a: int, b: int): int {
    if a < b then a else b
  }

  /** The slice the in-memory repository takes, wrap-around and panic included. */
  function MemoryPage<T>(order: seq<T>, page: int64, size: int64): Outcome<T> {
    var total := |order|;
    var sz := MemorySize(size);
    var start := Wrap(Offset(page, size));
    if start >= total then Page([], total)
    else
      var e := Wrap(start + sz);
      var end := if e > total then total else e;
      if 0 <= start <= end then Page(order[start..end], total) else Panics
  }

  /** The mathematical offset of a page, before any wrap-around. */
  function Offset(page: int64, size: int64): (o: nat)
  {
    Times(PageNumber(page) - 1, MemorySize(size))
  }

  function Times(a: nat, b: nat): nat {
    a * b
  }

  /** LIMIT and OFFSET over exact integers: what a page is meant to be. */
  function SliceOf<T>(order: seq<T>, offset: nat, limit: nat): seq<T> {
    order[Min(offset, |order|)..Min(offset + limit, |order|)]
  }

  function ExactPage<T>(order: seq<T>, page: int64, size: int64): Outcome<T> {
    Page(SliceOf(order, Offset(page, size), MemorySize(size)), |order|)
  }

  /** A check on the arguments that a caller could make before the call. */
  predicate ExactArguments(total: int, page: int64, size: int64) {
    Wrap(Offset(page, size)) >= total || Offset(page, size) + MemorySize(size) <= MAX_INT
  }

  /**
   * The 64-bit computation returns the intended page if and only if the offset and the end
   * of the page fit in an int, or the wrapped offset happens to fall past the last row.
   */
  lemma MemoryPageExactIff<T>(order: seq<T>, page: int64, size: int64)
    requires |order| <= MAX_INT
    ensures MemoryPage(order, page, size) == ExactPage(order, page, size)
            <==> ExactArguments(|order|, page, size)
  {
    var total, offset, sz := |order|, Offset(page, size), MemorySize(size);
    var start := Wrap(offset);
    if start >= total {
      assert offset >= total;
    } else if offset <= MAX_INT {
      assert start == offset;
      assert offset + sz > MAX_INT ==> Wrap(start + sz) < 0;
    } else {
      PastTheEnd(order, page, size);
    }
  }

  /** An offset that does not fit never yields the empty page unless it wraps past the last row. */
  lemma PastTheEnd<T>(order: seq<T>, page: int64, size: int64)
    requires |order| <= MAX_INT
    requires Offset(page, size) > MAX_INT && Wrap(Offset(page, size)) < |order|
    ensures ExactPage(order, page, size) == Page([], |order|)
    ensures MemoryPage(order, page, size) != Page([], |order|)
  {
  }

  /**
   * List panics exactly when the wrapped offset is negative, or is below the total and the end of the page
   * does not fit; whenever it does not, it returns the page at the wrapped offset.
   */
  lemma MemoryPagePanicsIff<T>(order: seq<T>, page: int64, size: int64)
    requires |order| <= MAX_INT
    ensures var start, out := Wrap(Offset(page, size)), MemoryPage(order, page, size);
            && (out == Panics <==> start < 0 || (start < |order| && start + MemorySize(size) > MAX_INT))
            && (out != Panics ==> start >= 0 && out == Page(SliceOf(order, start, MemorySize(size)), |order|))
  {
    var start, sz := Wrap(Offset(page, size)), MemorySize(size);
    if 0 <= start < |order| && start + sz > MAX_INT {
      var k := WrapIsCongruent(start + sz);
      assert Wrap(start + sz) < 0;
    }
  }

  /** Wrapping adds a multiple of 2^64. */
  lemma WrapIsCongruent(x: int) returns (k: int)
    ensures Wrap(x) == x + k * TWO64
  {
    k := -((x + TWO63) / TWO64);
  }

  /** Without a usable size a page has fifty rows, without a usable number it is the first. */
  lemma MemoryDefaults<T>(order: seq<T>, page: int64, size: int64)
    ensures size < 1 ==> MemoryPage(order, page, size) == MemoryPage(order, page, 50)
    ensures page < 1 ==> MemoryPage(order, page, size) == MemoryPage(order, 1, size)
    ensures 1 <= size && |order| + size <= MAX_INT ==>
              MemoryPage(order, 1, size) == Page(if size < |order| then order[..size] else order, |order|)
  {
    if 1 <= size {
      assert Offset(1, size) == 0;
    }
  }

  // ----- the arguments the HTTP handler passes -----

  /** The handler's defaults; `page` and `size` are what strconv.Atoi left behind. */
  method ParsePagination(pageArg: int64, sizeArg: int64) returns (page: int64, size: int64)
    ensures page >= 1 && 1 <= size <= 100
    ensures pageArg >= 1 ==> page == pageArg
    ensures pageArg < 1 ==> page == 1
    ensures 1 <= sizeArg <= 100 ==> size == sizeArg
    ensures !(1 <= sizeArg <= 100) ==> size == 20
  {
    page := pageArg;
    if page < 1 {
      page := 1;
    }
    size := sizeArg;
    if size <= 0 || size > 100 {
      size := 20;
    }
  }

  predicate HandlerArguments(page: int64, size: int64) {
    page >= 1 && 1 <= size <= 100
  }

  /** With handler arguments and an offset that fits, no intermediate wraps and the slice is in bounds. */
  lemma HandlerPageInBounds<T>(order: seq<T>, page: int64, size: int64)
    requires HandlerArguments(page, size)
    requires |order| + size <= MAX_INT && Offset(page, size) <= MAX_INT
    ensures ExactArguments(|order|, page, size)
    ensures var offset := Offset(page, size);
            && Wrap(offset) == offset
            && (offset < |order| ==> Wrap(offset + size) == offset + size)
            && MemoryPage(order, page, size) == ExactPage(order, page, size)
  {
  }

  /**
   * The premise is needed: a page number too large for an int reaches List as the largest
   * int, and the slice bounds then go negative on every store.
   */
  lemma HugePagePanics<T>(order: seq<T>)
    requires |order| <= MAX_INT
    ensures HandlerArguments(MAX_INT, 20)
    ensures MemoryPage(order, MAX_INT, 20) == Panics
  {
  }

  // ----- pages partition the listing -----

  function Concat<T>(pages: seq<seq<T>>): seq<T> {
    if pages == [] then [] else Concat(pages[..|pages| - 1]) + pages[|pages| - 1]
  }

  /** The number of pages: ceil(total / size). */
  function PageCount(total: nat, size: int): (n: nat)
    requires size > 0
  {
    (total + size - 1) / size
  }

  ghost predicate ExactPages<T>(order: seq<T>, size: int64, pages: seq<seq<T>>)
    requires size > 0
  {
    forall i :: 0 <= i < |pages| ==> pages[i] == SliceOf(order, Times(i, size), size)
  }

  lemma TimesNext(n: nat, size: nat)
    ensures Times(n + 1, size) == Times(n, size) + size
  {
  }

  lemma TimesMonotone(m: nat, n: nat, size: nat)
    requires m <= n
    ensures Times(m, size) <= Times(n, size)
  {
  }

  lemma {:induction false} ConcatPrefix<T>(order: seq<T>, size: int64, pages: seq<seq<T>>)
    requires size > 0 && ExactPages(order, size, pages)
    ensures Concat(pages) == order[..Min(Times(|pages|, size), |order|)]
  {
    if pages != [] {
      var n := |pages| - 1;
      ConcatPrefix(order, size, pages[..n]);
      TimesNext(n, size);
      var a, b := Min(Times(n, size), |order|), Min(Times(n + 1, size), |order|);
      assert order[..a] + order[a..b] == order[..b];
    }
  }

  lemma PageCountCovers(total: nat, size: int)
    requires size > 0
    ensures Times(PageCount(total, size), size) >= total
  {
  }

  /** Pages 1..ceil(total/size) put together are the whole listing, each row once and in order. */
  lemma PagesPartition<T>(order: seq<T>, size: int64, pages: seq<seq<T>>)
    requires size > 0 && |pages| >= PageCount(|order|, size)
    requires ExactPages(order, size, pages)
    ensures Concat(pages) == order
    ensures forall i :: PageCount(|order|, size) <= i < |pages| ==> pages[i] == []
  {
    ConcatPrefix(order, size, pages);
    var n := PageCount(|order|, size);
    PageCountCovers(|order|, size);
    TimesMonotone(n, |pages|, size);
    forall i | n <= i < |pages|
      ensures pages[i] == []
    {
      TimesMonotone(n, i, size);
    }
  }
}

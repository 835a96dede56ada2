/** Pagination as the repositories do it: `Skip((pageNumber - 1) * pageSize).Take(pageSize)`
    over a query's rows, reported with a `Page` (Page.cs) whose `TotalPages` is the
    ceiling of `TotalItems / pageSize`. */
module Paging {
  import opened Sequences

  /** Page.cs. The fields are in the order of the constructor's parameters:
      `Page(pageNumber, totalPages, totalItems)`. */
  datatype Page = Page(pageNumber: int, totalPages: int, totalItems: int)
  {
    predicate HasPreviousPage()
    {
      pageNumber > 1
    }

    predicate HasNextPage()
    {
      pageNumber < totalPages
    }
  }

  /** The parameterless constructor `new Page()`: every property keeps its default, zero. */
  const DefaultPage: Page := Page(0, 0, 0)

  /** A default page claims no items and has no neighbour in either direction. */
  lemma DefaultPageIsEmpty()
    ensures DefaultPage.pageNumber == 0 && DefaultPage.totalPages == 0 && DefaultPage.totalItems == 0
    ensures !DefaultPage.HasPreviousPage() && !DefaultPage.HasNextPage()
  {
  }

  /** The first page has no predecessor, and no page at or past the last has a successor. */
  lemma PageFlagsAtBounds(p: Page)
    ensures p.pageNumber <= 1 ==> !p.HasPreviousPage()
    ensures p.pageNumber >= p.totalPages ==> !p.HasNextPage()
    ensures p.HasPreviousPage() <==> p.pageNumber >= 2
  {
  }

  /** `(int)Math.Ceiling(n / (double)d)` for a count `n` and a positive page size `d`:
      the least number of pages of size `d` that hold `n` items. */
  function CeilDiv(n: nat, d: nat): (r: nat)
    requires d > 0
    ensures r * d >= n
    ensures r > 0 ==> (r - 1) * d < n
    ensures n == 0 <==> r == 0
  {
    var q := (n + d - 1) / d;
    assert q * d + (n + d - 1) % d == n + d - 1;
    q
  }

  lemma MulMonotone(a: int, b: int, d: nat)
    requires a <= b
    ensures a * d <= b * d
  {
  }

  /** The rows of page `pageNumber`: LINQ `Skip((pageNumber - 1) * pageSize).Take(pageSize)`. */
  function Slice<T>(s: seq<T>, pageNumber: int, pageSize: int): (r: seq<T>)
    ensures |r| <= |s|
    ensures pageSize >= 0 ==> |r| <= pageSize
    ensures forall x :: x in r ==> x in s
    ensures var lo := (pageNumber - 1) * pageSize;
            pageSize >= 0 && 0 <= lo <= |s| ==> r == s[lo..Min(lo + pageSize, |s|)]
  {
    Take(Skip(s, (pageNumber - 1) * pageSize), pageSize)
  }

  function Min(a: int, b: int): int
  {
    if a <= b then a else b
  }

  /** The page metadata of a well-formed query: the page number as requested, the item count,
      and the page count it implies. */
  function PageFor(pageNumber: int, totalItems: nat, pageSize: nat): (p: Page)
    requires pageSize > 0
    ensures p.pageNumber == pageNumber && p.totalItems == totalItems
    ensures p.totalPages * pageSize >= totalItems
    ensures p.totalPages > 0 ==> (p.totalPages - 1) * pageSize < totalItems
  {
    Page(pageNumber, CeilDiv(totalItems, pageSize), totalItems)
  }

  /** A page of query results together with its metadata (the *Page classes). */
  datatype Paged<T> = Paged(items: seq<T>, page: Page)

  /** The shared pagination of an ordered query result: at most a page of rows taken from
      the result at offset `(pageNumber - 1) * pageSize`, reported with the requested page
      number, the full item count, the least page count that holds it, and a next page
      exactly when rows remain after this one. */
  function Paginate<T>(s: seq<T>, pageNumber: int, pageSize: nat): (r: Paged<T>)
    requires pageSize > 0
    ensures r.page.pageNumber == pageNumber && r.page.totalItems == |s|
    ensures r.page.totalPages * pageSize >= |s|
    ensures r.page.totalPages > 0 ==> (r.page.totalPages - 1) * pageSize < |s|
    ensures r.page.HasNextPage() <==> pageNumber * pageSize < |s|
    ensures |r.items| <= pageSize
    ensures forall x :: x in r.items ==> x in s
    ensures var lo := (pageNumber - 1) * pageSize;
            0 <= lo <= |s| ==> r.items == s[lo..Min(lo + pageSize, |s|)]
  {
    PageForFlags(pageNumber, |s|, pageSize);
    Paged(Slice(s, pageNumber, pageSize), PageFor(pageNumber, |s|, pageSize))
  }

  /** `HasNextPage` of a well-formed page holds exactly when rows remain after this page,
      and `HasPreviousPage` exactly when rows were skipped before it. */
  lemma {:induction false} PageForFlags(pageNumber: int, totalItems: nat, pageSize: nat)
    requires pageSize > 0
    ensures PageFor(pageNumber, totalItems, pageSize).HasNextPage() <==> pageNumber * pageSize < totalItems
    ensures PageFor(pageNumber, totalItems, pageSize).HasPreviousPage() <==> (pageNumber - 1) * pageSize > 0
  {
    var c := CeilDiv(totalItems, pageSize);
    if pageNumber < c {
      MulMonotone(pageNumber, c as int - 1, pageSize);
    } else {
      MulMonotone(c, pageNumber, pageSize);
    }
    if pageNumber > 1 {
      MulMonotone(1, pageNumber - 1, pageSize);
    } else {
      MulMonotone(pageNumber - 1, 0, pageSize);
    }
  }

  /** A page past the last one is empty: an out-of-range page number is not an error. */
  lemma {:induction false} PageBeyondLastIsEmpty<T>(s: seq<T>, pageNumber: int, pageSize: nat)
    requires pageSize > 0
    requires pageNumber > CeilDiv(|s|, pageSize)
    ensures Slice(s, pageNumber, pageSize) == []
  {
    MulMonotone(CeilDiv(|s|, pageSize), pageNumber - 1, pageSize);
  }

  /** Every page up to the last is full; the last holds the remainder. */
  lemma {:induction false} PageSize<T>(s: seq<T>, pageNumber: int, pageSize: nat)
    requires pageSize > 0
    requires 1 <= pageNumber <= CeilDiv(|s|, pageSize)
    ensures |Slice(s, pageNumber, pageSize)| == Min(pageSize, |s| - (pageNumber - 1) * pageSize)
    ensures |Slice(s, pageNumber, pageSize)| > 0
  {
    var lo := (pageNumber - 1) * pageSize;
    assert 0 <= lo < |s| by {
      MulMonotone(0, pageNumber - 1, pageSize);
      MulMonotone(pageNumber - 1, CeilDiv(|s|, pageSize) - 1, pageSize);
    }
    SliceFrom(s, pageNumber, pageSize, lo);
  }

  /** The rows of a page that starts at `lo`, inside the input. */
  lemma SliceFrom<T>(s: seq<T>, pageNumber: int, pageSize: nat, lo: int)
    requires pageNumber >= 1 && lo == (pageNumber - 1) * pageSize && 0 <= lo <= |s|
    ensures Slice(s, pageNumber, pageSize) == s[lo..Min(lo + pageSize, |s|)]
    ensures |Slice(s, pageNumber, pageSize)| == Min(pageSize, |s| - lo)
  {
  }

  /** Pages 1..k laid end to end. */
  function PagesUpTo<T>(s: seq<T>, pageSize: nat, k: nat): seq<T>
    requires pageSize > 0
  {
    if k == 0 then [] else PagesUpTo(s, pageSize, k - 1) + Slice(s, k, pageSize)
  }

  lemma {:induction false} PagesUpToPrefix<T>(s: seq<T>, pageSize: nat, k: nat)
    requires pageSize > 0
    ensures PagesUpTo(s, pageSize, k) == s[..Min(k * pageSize, |s|)]
  {
    if k > 0 {
      var lo := (k - 1) * pageSize;
      assert lo + pageSize == k * pageSize && lo >= 0 by { MulMonotone(0, k - 1, pageSize); }
      PagesUpToPrefix(s, pageSize, k - 1);
      if lo < |s| {
        SliceFrom(s, k, pageSize, lo);
      }
      PrefixStep(s, PagesUpTo(s, pageSize, k - 1), Slice(s, k, pageSize), lo, pageSize);
    }
  }

  /** One more page extends the prefix read so far by the rows from `lo` on. */
  lemma PrefixStep<T>(s: seq<T>, prev: seq<T>, page: seq<T>, lo: nat, pageSize: nat)
    requires prev == s[..Min(lo, |s|)]
    requires lo >= |s| ==> page == []
    requires lo < |s| ==> page == s[lo..Min(lo + pageSize, |s|)]
    ensures prev + page == s[..Min(lo + pageSize, |s|)]
  {
    if lo < |s| {
      assert s[..Min(lo + pageSize, |s|)] == s[..lo] + s[lo..Min(lo + pageSize, |s|)];
    }
  }

  /** The pagination law: pages 1..TotalPages, concatenated, give back the whole ordered
      result, every row exactly once and in order. */
  lemma AllPagesReassemble<T>(s: seq<T>, pageSize: nat)
    requires pageSize > 0
    ensures PagesUpTo(s, pageSize, PageFor(1, |s|, pageSize).totalPages) == s
  {
    var c := CeilDiv(|s|, pageSize);
    PagesUpToPrefix(s, pageSize, c);
    assert Min(c * pageSize, |s|) == |s|;
  }

  /** The page some queries report by passing `new Page(pageNumber, totalItems, pageSize)`:
      the item count lands in `TotalPages` and the page size in `TotalItems`. */
  function SwappedPageFor(pageNumber: int, totalItems: nat, pageSize: nat): (p: Page)
    ensures p.totalPages == totalItems && p.totalItems == pageSize
  {
    Page(pageNumber, totalItems, pageSize)
  }

  /** The swapped page misreports: for 3 rows in pages of 10 there is one page, yet it
      reports 10 items and a next page. */
  lemma SwappedPageMisreports()
    ensures SwappedPageFor(1, 3, 10).totalItems == 10
    ensures SwappedPageFor(1, 3, 10).HasNextPage()
    ensures PageFor(1, 3, 10).totalItems == 3 && !PageFor(1, 3, 10).HasNextPage()
  {
    assert CeilDiv(3, 10) == 1;
  }
}

/**
 * `PagerHelper`: the page arithmetic of a list. The query it pages is
 * reduced to the rows it would return and to the offset and limit the pager
 * puts on it; the query layer reads a non-positive offset as none and a
 * negative limit as no limit.
 */
module Pagers {
  import opened Wrappers

  datatype Pager = Pager(
    page: int,
    maxPerPage: int,
    lastPage: int,
    nbResults: int,
    maxRecordLimit: Option<int>,
    currentMaxLink: int,
    offset: int,
    limit: int)

  function Min(a: int, b: int): int {
    if a <= b then a else b
  }

  function Max(a: int, b: int): int {
    if a >= b then a else b
  }

  /** PHP `(int)ceil($a / $b)`. */
  function CeilDiv(a: int, b: int): int
    requires b != 0
  {
    if b > 0 then -((-a) / b) else -(a / (-b))
  }

  /** `setMaxPerPage($max)`. */
  function SetMaxPerPage(p: Pager, max: int): Pager {
    if max > 0 then p.(maxPerPage := max, page := if p.page == 0 then 1 else p.page)
    else if max == 0 then p.(maxPerPage := 0, page := 0)
    else p.(maxPerPage := 1, page := if p.page == 0 then 1 else p.page)
  }

  /** `setPage($page)`: a non-positive page becomes the first page once
      there are results. */
  function SetPage(p: Pager, page: int): Pager {
    if page <= 0 && p.nbResults > 0 then p.(page := if p.maxPerPage != 0 then 1 else 0)
    else p.(page := page)
  }

  /** `setLastPage($page)`: the current page is pulled down to it. */
  function SetLastPage(p: Pager, last: int): Pager {
    var q := p.(lastPage := last);
    if q.page > last then SetPage(q, last) else q
  }

  /** `setMaxRecordLimit($limit)`; `None` is `false`, no limit. */
  function SetMaxRecordLimit(p: Pager, limit: Option<int>): Pager {
    p.(maxRecordLimit := limit)
  }

  /** `new PagerHelper($query, $maxPerPage)` on a fresh query. The page is
      unset before `setPage(1)`; the placeholder 1 behaves the same. */
  function NewPager(maxPerPage: int): Pager {
    var p := SetMaxPerPage(Pager(1, 0, 0, 0, None, 1, 0, -1), maxPerPage);
    SetLastPage(SetPage(p, 1), 1).(maxRecordLimit := None, nbResults := 0, currentMaxLink := 1)
  }

  /** `init()`, given the number of rows the unrestricted query counts. */
  function Init(p: Pager, count: nat): Pager {
    var nb := if p.maxRecordLimit.Some? then Min(count, p.maxRecordLimit.value) else count;
    var p1 := p.(nbResults := nb, offset := 0, limit := -1);
    if p1.page == 0 || p1.maxPerPage == 0 then SetLastPage(p1, 0)
    else
      var p2 := SetLastPage(p1, CeilDiv(nb, p1.maxPerPage));
      var offset := (p2.page - 1) * p2.maxPerPage;
      var limit :=
        if p.maxRecordLimit.None? then p2.maxPerPage
        else if p.maxRecordLimit.value - offset > p2.maxPerPage then p2.maxPerPage
        else p.maxRecordLimit.value - offset;
      p2.(offset := offset, limit := limit)
  }

  /** The rows the query returns under the pager's offset and limit. */
  function Results<T>(p: Pager, rows: seq<T>): seq<T> {
    var start := Max(p.offset, 0);
    if start >= |rows| then []
    else if p.limit < 0 then rows[start..]
    else rows[start..Min(start + p.limit, |rows|)]
  }

  /** A pager as the list builds it: `maxPerPage`, then the page, then
      `init` over the rows. */
  function Paginate<T>(rows: seq<T>, maxPerPage: int, page: int): Pager {
    Init(SetPage(NewPager(maxPerPage), page), |rows|)
  }

  /** `haveToPaginate()`. */
  predicate HaveToPaginate(p: Pager) {
    p.maxPerPage != 0 && p.nbResults > p.maxPerPage
  }

  /** `getFirstIndex()`: 1-based index of the first row of the page. */
  function FirstIndex(p: Pager): int {
    if p.page == 0 then 1 else (p.page - 1) * p.maxPerPage + 1
  }

  /** `getLastIndex()`: 1-based index of the last row of the page. */
  function LastIndex(p: Pager): int {
    if p.page == 0 then p.nbResults
    else if p.page * p.maxPerPage >= p.nbResults then p.nbResults
    else p.page * p.maxPerPage
  }

  /** `getFirstPage()`. */
  function FirstPage(p: Pager): int {
    if p.nbResults == 0 then 0 else 1
  }

  predicate IsFirstPage(p: Pager) {
    p.page == FirstPage(p)
  }

  predicate IsLastPage(p: Pager) {
    p.page == p.lastPage
  }

  /** `getNextPage()`. */
  function NextPage(p: Pager): int {
    Min(p.page + 1, p.lastPage)
  }

  /** `getPreviousPage()`. */
  function PreviousPage(p: Pager): int {
    Max(p.page - 1, FirstPage(p))
  }

  /** The first page number `getLinks($nbLinks)` lists: the window is
      centred on the current page and slid back inside `[1, lastPage]`. */
  function LinksBegin(p: Pager, nbLinks: int): int {
    var tmp := p.page - nbLinks / 2;
    var check := p.lastPage - nbLinks + 1;
    var limit := if check > 0 then check else 1;
    if tmp > 0 then (if tmp > limit then limit else tmp) else 1
  }

  /** How many links the window holds. */
  function LinkCount(p: Pager, nbLinks: int): nat {
    var begin := LinksBegin(p, nbLinks);
    Max(0, Min(begin + nbLinks, p.lastPage + 1) - begin)
  }

  /** `getLinks($nbLinks)`: consecutive page numbers from `LinksBegin`, at
      most `nbLinks` of them and none past the last page; the last one is
      remembered as `currentMaxLink`. */
  method GetLinks(p: Pager, nbLinks: int) returns (links: seq<int>, r: Pager)
    ensures |links| == LinkCount(p, nbLinks)
    ensures forall j :: 0 <= j < |links| ==> links[j] == LinksBegin(p, nbLinks) + j
    ensures forall j :: 0 <= j < |links| ==> 1 <= links[j] <= p.lastPage
    ensures nbLinks >= 0 ==> |links| <= nbLinks
    ensures r == p.(currentMaxLink := if |links| > 0 then links[|links| - 1] else 1)
  {
    var begin := LinksBegin(p, nbLinks);
    links := [];
    var i := begin;
    while i < begin + nbLinks && i <= p.lastPage
      invariant begin <= i
      invariant i == begin || (i <= begin + nbLinks && i <= p.lastPage + 1)
      invariant |links| == i - begin
      invariant forall j :: 0 <= j < |links| ==> links[j] == begin + j
      decreases begin + nbLinks - i
    {
      links := links + [i];
      i := i + 1;
    }
    r := p.(currentMaxLink := if |links| > 0 then links[|links| - 1] else 1);
  }

  // ---------------------------------------------------------------------
  // Lemmas

  /** `ceil` of a positive divisor brackets the quotient. */
  lemma CeilDivBounds(a: int, b: int)
    requires b > 0
    ensures b * (CeilDiv(a, b) - 1) < a <= b * CeilDiv(a, b)
    ensures a > 0 ==> CeilDiv(a, b) >= 1
    ensures a == 0 ==> CeilDiv(a, b) == 0
  {
    var q := (-a) / b;
    var m := (-a) % b;
    assert -a == b * q + m && 0 <= m < b;
    assert b * CeilDiv(a, b) == a + m;
  }

  /** `setMaxPerPage`: a positive maximum is stored and a zero page lifted
      to 1; zero disables paging and sets page 0; a negative maximum reads
      as 1. Afterwards a maximum is never negative and page 0 only goes with
      maximum 0 or an already-zero page. */
  lemma SetMaxPerPageSpec(p: Pager, max: int)
    ensures var r := SetMaxPerPage(p, max);
      && r.maxPerPage >= 0
      && (max > 0 ==> r.maxPerPage == max && r.page == (if p.page == 0 then 1 else p.page))
      && (max == 0 ==> r.maxPerPage == 0 && r.page == 0)
      && (max < 0 ==> r.maxPerPage == 1 && r.page == (if p.page == 0 then 1 else p.page))
      && (r.maxPerPage != 0 ==> r.page != 0)
      && r.(maxPerPage := p.maxPerPage, page := p.page) == p
  {
  }

  /** `setPage`: the page is stored unless it is non-positive while there
      are results, where it becomes the first page. */
  lemma SetPageSpec(p: Pager, page: int)
    ensures var r := SetPage(p, page);
      && (page > 0 || p.nbResults <= 0 ==> r.page == page)
      && (page <= 0 && p.nbResults > 0 ==> r.page == (if p.maxPerPage != 0 then 1 else 0))
      && (p.nbResults > 0 && p.maxPerPage != 0 ==> r.page >= 1)
      && r.(page := p.page) == p
  {
  }

  /** `setLastPage`: the last page is stored and a page beyond it comes
      back to it, or to the first page when it is not positive. */
  lemma SetLastPageSpec(p: Pager, last: int)
    ensures var r := SetLastPage(p, last);
      && r.lastPage == last
      && (p.page <= last ==> r.page == p.page)
      && (p.page > last && (last > 0 || p.nbResults <= 0) ==> r.page == last)
      && (r.page <= last || (last <= 0 && p.nbResults > 0))
  {
  }

  /** A new pager is on page 1 of 1 with no results. */
  lemma NewPagerState(max: int)
    ensures var p := NewPager(max);
      && p.page == 1 && p.lastPage == 1 && p.nbResults == 0 && p.currentMaxLink == 1
      && p.maxRecordLimit.None? && p.maxPerPage == SetMaxPerPage(p, max).maxPerPage
      && p.maxPerPage == (if max > 0 then max else if max == 0 then 0 else 1)
  {
  }

  /** `init` with paging switched off (page 0 or no maximum): no last page
      and every row. */
  lemma InitUnpaged<T>(p: Pager, rows: seq<T>)
    requires p.page == 0 || p.maxPerPage == 0
    ensures Init(p, |rows|).lastPage == 0
    ensures Results(Init(p, |rows|), rows) == rows
  {
  }

  /** `init` with paging on and no record limit: the last page is
      `ceil(n / maxPerPage)`, the page is clamped to it, and the results
      are that page's slice of the rows. */
  lemma InitPaged<T>(p: Pager, rows: seq<T>)
    requires p.page >= 1 && p.maxPerPage > 0 && p.maxRecordLimit.None?
    ensures var r := Init(p, |rows|);
      && r.nbResults == |rows|
      && r.lastPage == CeilDiv(|rows|, p.maxPerPage)
      && r.maxPerPage == p.maxPerPage
      && (|rows| > 0 ==> r.page == Min(p.page, r.lastPage) && 1 <= r.page <= r.lastPage)
      && (|rows| > 0 ==> r.offset == (r.page - 1) * r.maxPerPage && r.limit == r.maxPerPage)
      && (|rows| > 0 ==> Results(r, rows) == rows[(r.page - 1) * r.maxPerPage..Min(r.page * r.maxPerPage, |rows|)])
      && (|rows| == 0 ==> r.page == 0 && r.lastPage == 0 && FirstPage(r) == 0 && Results(r, rows) == [])
  {
    var n := |rows|;
    var m := p.maxPerPage;
    CeilDivBounds(n, m);
    var r := Init(p, n);
    if n > 0 {
      var k := r.page;
      assert 1 <= k <= r.lastPage;
      MulMono(k - 1, r.lastPage - 1, m);
      assert (k - 1) * m < n;
      assert (k - 1) * m + m == k * m;
    }
  }

  lemma MulSucc(k: int, m: int)
    ensures (k - 1) * m + m == k * m
  {
  }

  lemma MulMono(a: int, b: int, m: int)
    requires 0 <= a <= b && m >= 0
    ensures a * m <= b * m
  {
  }

  /** `init` with a record limit: only that many results are counted, the
      pages are counted over them, and the page never reaches past the
      limit, so the rows returned are the page's share of the first `cap`. */
  lemma InitRecordLimit<T>(p: Pager, rows: seq<T>, cap: int)
    requires p.page >= 1 && p.maxPerPage > 0 && p.maxRecordLimit == Some(cap)
    ensures var r := Init(p, |rows|);
      && r.nbResults == Min(|rows|, cap)
      && r.maxPerPage == p.maxPerPage
      && r.lastPage == CeilDiv(Min(|rows|, cap), p.maxPerPage)
      && (r.page >= 1 ==> r.offset == (r.page - 1) * r.maxPerPage)
      && (r.page >= 1 ==> r.limit == Min(r.maxPerPage, cap - r.offset))
      && (r.page >= 1 ==> r.limit <= r.maxPerPage && r.offset + r.limit <= cap)
      && (Min(|rows|, cap) > 0 ==> r.page == Min(p.page, r.lastPage) && 1 <= r.page <= r.lastPage)
      && (Min(|rows|, cap) > 0 ==> 0 <= r.offset < Min(|rows|, cap))
      && (Min(|rows|, cap) > 0 ==>
            Results(r, rows) == rows[r.offset..Min(r.offset + r.maxPerPage, Min(|rows|, cap))])
  {
    var r := Init(p, |rows|);
    InitCapped(p, |rows|, cap);
    if Min(|rows|, cap) > 0 {
      CappedResults(r, rows, cap);
    }
  }

  /** The fields `init` sets under a record limit `cap`. */
  lemma InitCapped(p: Pager, n: nat, cap: int)
    requires p.page >= 1 && p.maxPerPage > 0 && p.maxRecordLimit == Some(cap)
    ensures var r := Init(p, n);
      && r.nbResults == Min(n, cap)
      && r.maxPerPage == p.maxPerPage
      && r.lastPage == CeilDiv(Min(n, cap), p.maxPerPage)
      && (r.page >= 1 ==> r.offset == (r.page - 1) * r.maxPerPage)
      && (r.page >= 1 ==> r.limit == Min(r.maxPerPage, cap - r.offset))
      && (r.page >= 1 ==> r.limit <= r.maxPerPage && r.offset + r.limit <= cap)
      && (Min(n, cap) > 0 ==> r.page == Min(p.page, r.lastPage) && 1 <= r.page <= r.lastPage)
      && (Min(n, cap) > 0 ==> 0 <= r.offset < Min(n, cap))
  {
    var nb := Min(n, cap);
    var m := p.maxPerPage;
    CeilDivBounds(nb, m);
    var r := Init(p, n);
    if nb > 0 {
      var k := r.page;
      assert 1 <= k <= r.lastPage;
      MulMono(k - 1, r.lastPage - 1, m);
    }
  }

  /** The rows returned by a page that starts inside the first `cap` rows
      and stops at `cap`. */
  lemma CappedResults<T>(r: Pager, rows: seq<T>, cap: int)
    requires r.page >= 1 && r.maxPerPage > 0
    requires 0 <= r.offset < Min(|rows|, cap)
    requires r.limit == Min(r.maxPerPage, cap - r.offset)
    ensures Results(r, rows) == rows[r.offset..Min(r.offset + r.maxPerPage, Min(|rows|, cap))]
  {
    assert Min(r.offset + r.limit, |rows|) == Min(r.offset + r.maxPerPage, Min(|rows|, cap));
  }

  /** On a paged result, the first and last index bound exactly the rows
      returned. */
  lemma IndicesMatchResults<T>(p: Pager, rows: seq<T>)
    requires p.page >= 1 && p.maxPerPage > 0 && p.maxRecordLimit.None? && |rows| > 0
    ensures var r := Init(p, |rows|);
      && 1 <= FirstIndex(r) <= LastIndex(r) <= |rows|
      && |Results(r, rows)| == LastIndex(r) - FirstIndex(r) + 1
      && Results(r, rows) == rows[FirstIndex(r) - 1..LastIndex(r)]
  {
    InitPaged(p, rows);
    var r := Init(p, |rows|);
    assert (r.page - 1) * r.maxPerPage < |rows| by {
      CeilDivBounds(|rows|, r.maxPerPage);
      MulMono(r.page - 1, r.lastPage - 1, r.maxPerPage);
    }
    PageIndices(r, rows);
  }

  /** The index arithmetic of a page that starts inside the rows. */
  lemma PageIndices<T>(r: Pager, rows: seq<T>)
    requires r.page >= 1 && r.maxPerPage > 0 && r.nbResults == |rows|
    requires r.offset == (r.page - 1) * r.maxPerPage < |rows| && r.limit == r.maxPerPage
    ensures 1 <= FirstIndex(r) <= LastIndex(r) <= |rows|
    ensures Results(r, rows) == rows[FirstIndex(r) - 1..LastIndex(r)]
  {
    var a := r.offset;
    MulSucc(r.page, r.maxPerPage);
    assert r.page * r.maxPerPage == a + r.maxPerPage;
    assert FirstIndex(r) == a + 1;
    assert LastIndex(r) == Min(a + r.maxPerPage, |rows|);
  }

  /** `haveToPaginate` holds exactly when some rows do not fit on one
      page. */
  lemma HaveToPaginateIff<T>(rows: seq<T>, max: int, page: int)
    requires page >= 1
    ensures HaveToPaginate(Paginate(rows, max, page)) <==> max != 0 && |rows| > (if max > 0 then max else 1)
  {
  }

  /** Next and previous page stay within the pages and step back to where
      they started from. */
  lemma NextPreviousWithinPages(p: Pager)
    requires FirstPage(p) <= p.page <= p.lastPage
    ensures FirstPage(p) <= PreviousPage(p) <= p.page <= NextPage(p) <= p.lastPage
    ensures p.page < p.lastPage ==> NextPage(p) == p.page + 1 && PreviousPage(p.(page := NextPage(p))) == p.page
    ensures p.page > FirstPage(p) ==> PreviousPage(p) == p.page - 1 && NextPage(p.(page := PreviousPage(p))) == p.page
  {
  }

  /** The link window holds the current page and is full whenever there are
      enough pages. */
  lemma LinksCoverPage(p: Pager, nbLinks: int)
    requires nbLinks >= 1 && 1 <= p.page <= p.lastPage
    ensures LinksBegin(p, nbLinks) <= p.page < LinksBegin(p, nbLinks) + LinkCount(p, nbLinks)
    ensures p.lastPage >= nbLinks ==> LinkCount(p, nbLinks) == nbLinks
  {
  }

  /** The rows of pages `k` to `last`, in order, given each page's rows. */
  function PagesFrom<T>(page: int -> seq<T>, k: int, last: int): seq<T>
    decreases last - k + 1
  {
    if k > last then [] else page(k) + PagesFrom(page, k + 1, last)
  }

  /** `rows[lo..hi]` cut to the rows that exist. */
  function Slice<T>(rows: seq<T>, lo: int, hi: int): seq<T> {
    if 0 <= lo <= |rows| then rows[lo..Max(lo, Min(hi, |rows|))] else []
  }

  /** Page `k` of a list paged by `Paginate` is the `k`-th slice. */
  lemma PageSlice<T>(rows: seq<T>, max: int, k: int)
    requires max > 0 && 1 <= k <= CeilDiv(|rows|, max)
    ensures Results(Paginate(rows, max, k), rows) == Slice(rows, (k - 1) * max, k * max)
  {
    CeilDivBounds(|rows|, max);
    NewPagerState(max);
    InitPaged(SetPage(NewPager(max), k), rows);
    MulMono(k - 1, CeilDiv(|rows|, max) - 1, max);
    MulSucc(k, max);
  }

  /** Where page `k` starts: inside the rows for a page up to the last,
      past them for the page after it. */
  lemma PageStart(n: nat, max: int, k: int, last: int, a: int)
    requires max > 0 && last == CeilDiv(n, max) && 1 <= k <= last + 1 && a == (k - 1) * max
    ensures 0 <= a
    ensures k <= last ==> a < n
    ensures k == last + 1 ==> a >= n
  {
    CeilDivBounds(n, max);
    if k <= last {
      MulMono(k - 1, last - 1, max);
    }
  }

  lemma {:induction false} SlicesFromPage<T>(rows: seq<T>, max: int, page: int -> seq<T>, k: int, last: int, a: int)
    requires max > 0 && last == CeilDiv(|rows|, max) && 1 <= k <= last + 1 && a == (k - 1) * max
    requires forall j :: k <= j <= last ==> page(j) == Slice(rows, (j - 1) * max, j * max)
    ensures 0 <= a && PagesFrom(page, k, last) == rows[Min(a, |rows|)..]
    decreases last - k + 1
  {
    PageStart(|rows|, max, k, last, a);
    if k <= last {
      MulSucc(k, max);
      MulSucc(k + 1, max);
      SlicesFromPage(rows, max, page, k + 1, last, a + max);
      assert page(k) == rows[a..Min(a + max, |rows|)];
      assert rows[a..Min(a + max, |rows|)] + rows[Min(a + max, |rows|)..] == rows[a..];
    }
  }

  /** The pages, read in order from the first to the last, hold every row
      exactly once. */
  lemma PagesPartitionRows<T>(rows: seq<T>, max: int)
    requires max > 0
    ensures PagesFrom(k => Results(Paginate(rows, max, k), rows), 1, Paginate(rows, max, 1).lastPage) == rows
  {
    NewPagerState(max);
    InitPaged(SetPage(NewPager(max), 1), rows);
    var last := CeilDiv(|rows|, max);
    var page := k => Results(Paginate(rows, max, k), rows);
    forall j | 1 <= j <= last
      ensures page(j) == Slice(rows, (j - 1) * max, j * max)
    {
      PageSlice(rows, max, j);
    }
    SlicesFromPage(rows, max, page, 1, last, 0);
  }

  /** Five rows at four per page: two pages of four and one row; a page past
      the end shows the last page. */
  lemma FiveRowsFourPerPage<T>(rows: seq<T>)
    requires |rows| == 5
    ensures Paginate(rows, 4, 1).lastPage == 2
    ensures |Results(Paginate(rows, 4, 1), rows)| == 4
    ensures |Results(Paginate(rows, 4, 2), rows)| == 1
    ensures Paginate(rows, 4, 3).page == 2 && |Results(Paginate(rows, 4, 3), rows)| == 1
  {
    NewPagerState(4);
    InitPaged(SetPage(NewPager(4), 1), rows);
    InitPaged(SetPage(NewPager(4), 2), rows);
    InitPaged(SetPage(NewPager(4), 3), rows);
  }

  /** No rows: no results, no page, no first or last page. */
  lemma NoRows<T>(rows: seq<T>)
    requires |rows| == 0
    ensures var p := Paginate(rows, 1, 100);
      p.nbResults == 0 && p.page == 0 && FirstPage(p) == 0 && p.lastPage == 0
  {
    NewPagerState(1);
    InitPaged(SetPage(NewPager(1), 100), rows);
  }

  /** The page a list keeps after paginating from page `page` (at least 1):
      the pager's page lifted to 1. It lies between 1 and the last page (1
      when there is none), and is the requested page whenever that page
      exists. */
  lemma PaginateClamp<T>(rows: seq<T>, max: int, page: int)
    requires page >= 1
    ensures var p := Paginate(rows, max, page); var cur := Max(1, p.page);
      && 1 <= cur <= Max(1, p.lastPage)
      && (page <= p.lastPage ==> cur == page)
  {
    var p0 := NewPager(max);
    NewPagerState(max);
    var p1 := SetPage(p0, page);
    assert p1.page == page && p1.maxRecordLimit.None? && p1.maxPerPage == p0.maxPerPage;
    if p1.maxPerPage > 0 {
      InitPaged(p1, rows);
    }
  }
}

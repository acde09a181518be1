/**
 * The pagination bar of the device grid: total pages, Prev/Next
 * availability, row numbering and the page-size select with its "all"
 * sentinel. Page, page size and total belong to the parent page, which the
 * grid drives through `setPage` and `setPageSize`.
 */
module Pagination {
  import opened Inventory

  /**
   * The pagination props when all five are supplied (`hasPagination`):
   * numbers `page`, `pageSize`, `total` and the two setter functions.
   */
  datatype PageProps = PageProps(page: int, pageSize: int, total: int)

  /** `Math.ceil(total / pageSize)` for a positive page size. */
  function CeilDiv(total: int, pageSize: int): (r: int)
    requires pageSize > 0
    ensures (r - 1) * pageSize < total <= r * pageSize
  {
    var q := (total + pageSize - 1) / pageSize;
    var rem := (total + pageSize - 1) % pageSize;
    assert total + pageSize - 1 == q * pageSize + rem;
    assert (q - 1) * pageSize == q * pageSize - pageSize;
    q
  }

  /**
   * `totalPages`: ceil(total / pageSize) with pagination props and a
   * positive page size, 1 otherwise.
   */
  function TotalPages(props: Option<PageProps>): (r: int)
    ensures props.None? || props.value.pageSize <= 0 ==> r == 1
    ensures props.Some? && props.value.pageSize > 0 ==>
              (r - 1) * props.value.pageSize < props.value.total <= r * props.value.pageSize
  {
    match props
    case None => 1
    case Some(p) => if p.pageSize > 0 then CeilDiv(p.total, p.pageSize) else 1
  }

  /** An empty inventory has no pages at all; any device makes at least one. */
  lemma TotalPagesOfCount(p: PageProps)
    requires p.pageSize > 0 && p.total >= 0
    ensures p.total == 0 <==> TotalPages(Some(p)) == 0
    ensures p.total > 0 ==> TotalPages(Some(p)) >= 1
  {
    var r := TotalPages(Some(p));
    ProductSign(r, p.pageSize);
    ProductSign(r - 1, p.pageSize);
  }

  lemma ProductSign(a: int, b: int)
    requires b > 0
    ensures a >= 1 ==> a * b >= b
    ensures a == 0 ==> a * b == 0
    ensures a <= -1 ==> a * b <= -b
  {
  }

  /** `disabled={page <= 1}` on Prev. */
  predicate PrevEnabled(page: int)
  {
    page > 1
  }

  /** `disabled={page >= totalPages}` on Next. */
  predicate NextEnabled(page: int, totalPages: int)
  {
    page < totalPages
  }

  /** The pages the bar can show: from 1 to the last page (page 1 when there is none). */
  predicate InRange(page: int, totalPages: int)
  {
    1 <= page && (page <= totalPages || page == 1)
  }

  /**
   * Prev and Next only ever move between existing pages: from a page in
   * range, an enabled button leads to a page in range one step away.
   */
  lemma NavigationStaysInRange(page: int, totalPages: int)
    requires InRange(page, totalPages)
    ensures PrevEnabled(page) ==> InRange(page - 1, totalPages)
    ensures NextEnabled(page, totalPages) ==> InRange(page + 1, totalPages)
    ensures !PrevEnabled(page) && !NextEnabled(page, totalPages) ==> page == 1 && totalPages <= 1
  {
  }

  /**
   * The "No" column: with pagination and a page and page size that are not
   * zero, rows continue the numbering of the earlier pages; otherwise they
   * count from 1.
   */
  function RowNumber(props: Option<PageProps>, index: nat): (r: int)
    ensures props.None? || props.value.page == 0 || props.value.pageSize == 0 ==> r == index + 1
  {
    match props
    case Some(p) =>
      if p.page != 0 && p.pageSize != 0 then (p.page - 1) * p.pageSize + index + 1 else index + 1
    case None => index + 1
  }

  /**
   * Row numbers step by one down the grid, also past `pageSize` rows (a
   * grid still holding the previous, larger page after a page-size change).
   */
  lemma RowNumberOffset(props: Option<PageProps>, index: nat)
    ensures RowNumber(props, index) == RowNumber(props, 0) + index
  {
  }

  /**
   * On page `page` the rows are numbered consecutively from
   * (page - 1) * pageSize + 1 to at most page * pageSize, so no two pages
   * share a number and the next page continues where this one stops.
   */
  lemma RowNumbersTilePages(p: PageProps, index: nat)
    requires p.page >= 1 && p.pageSize > 0 && index < p.pageSize
    ensures (p.page - 1) * p.pageSize < RowNumber(Some(p), index) <= p.page * p.pageSize
    ensures index + 1 < p.pageSize ==> RowNumber(Some(p), index + 1) == RowNumber(Some(p), index) + 1
    ensures index + 1 == p.pageSize ==>
              RowNumber(Some(PageProps(p.page + 1, p.pageSize, p.total)), 0) == RowNumber(Some(p), index) + 1
  {
    assert p.page * p.pageSize == (p.page - 1) * p.pageSize + p.pageSize;
  }

  /** The options of the page-size select. */
  datatype PageSizeOption = Size(n: nat) | All

  predicate Offered(o: PageSizeOption)
  {
    o == Size(25) || o == Size(50) || o == Size(100) || o == All
  }

  /** "All" is sent to the backend as this very large page size. */
  const AllPageSize := 999999

  /** The page size the select's onChange installs. */
  function PageSizeFor(o: PageSizeOption): (r: int)
    ensures o.All? ==> r == AllPageSize
    ensures o.Size? ==> r == o.n
  {
    match o
    case All => AllPageSize
    case Size(n) => n
  }

  /** `value={pageSize === 999999 ? "all" : pageSize}`: the option the select shows. */
  function ShownOption(pageSize: nat): (o: PageSizeOption)
    ensures pageSize == AllPageSize <==> o.All?
    ensures o.Size? ==> o.n == pageSize
  {
    if pageSize == AllPageSize then All else Size(pageSize)
  }

  /** Choosing an offered option makes the select show that option. */
  lemma SelectRoundTrip(o: PageSizeOption)
    requires Offered(o)
    ensures PageSizeFor(o) >= 0 && ShownOption(PageSizeFor(o)) == o
  {
  }

  /**
   * The parent's page state as the grid's controls change it. The props are
   * always present here; a grid without them shows no pagination bar.
   */
  class Pager {
    var page: int
    var pageSize: int
    var total: int

    ghost predicate Valid()
      reads this
    {
      page >= 1 && pageSize > 0
    }

    function Props(): PageProps
      reads this
    {
      PageProps(page, pageSize, total)
    }

    constructor (page: int, pageSize: int, total: int)
      requires page >= 1 && pageSize > 0
      ensures Valid() && this.page == page && this.pageSize == pageSize && this.total == total
    {
      this.page, this.pageSize, this.total := page, pageSize, total;
    }

    /** Prev: `setPage(page - 1)`; a disabled button fires nothing. */
    method ClickPrev()
      requires Valid()
      modifies this`page
      ensures Valid()
      ensures page == if PrevEnabled(old(page)) then old(page) - 1 else old(page)
    {
      if PrevEnabled(page) {
        page := page - 1;
      }
    }

    /** Next: `setPage(page + 1)`; a disabled button fires nothing. */
    method ClickNext()
      requires Valid()
      modifies this`page
      ensures Valid()
      ensures page == if NextEnabled(old(page), TotalPages(Some(old(Props())))) then old(page) + 1 else old(page)
    {
      if NextEnabled(page, TotalPages(Some(Props()))) {
        page := page + 1;
      }
    }

    /** The page-size select: install the chosen size and go back to page 1. */
    method SelectPageSize(o: PageSizeOption)
      requires Valid() && Offered(o)
      modifies this`page, this`pageSize
      ensures Valid()
      ensures pageSize == PageSizeFor(o) && page == 1
    {
      pageSize := PageSizeFor(o);
      page := 1;
    }
  }
}

/** `getPagination` of includes/functions.php and the page clamping every
    listing page does before calling it. */
module Pagination {

  /** The array `getPagination` returns. */
  datatype PageInfo = PageInfo(
    total: nat,
    page: int,
    limit: int,
    totalPages: nat,
    offset: int,
    hasPrev: bool,
    hasNext: bool)

  /** `ceil($total / $limit)` on non-negative counts: the least number of
      pages of `limit` rows that hold `total` rows. */
  function CeilDiv(total: nat, limit: int): (pages: nat)
    requires limit > 0
    ensures pages * limit >= total
    ensures pages == 0 || (pages - 1) * limit < total
    ensures pages == 0 <==> total == 0
  {
    var q := (total + limit - 1) / limit;
    assert total + limit - 1 == q * limit + (total + limit - 1) % limit;
    q
  }

  lemma MulMonotone(a: int, b: int, c: int)
    requires a <= b && c > 0
    ensures a * c <= b * c
  {
  }

  /** A page precedes the last one exactly when rows remain after it. */
  lemma BeforeLastPage(total: nat, page: int, limit: int, pages: nat)
    requires limit > 0
    requires pages * limit >= total && (pages == 0 || (pages - 1) * limit < total)
    ensures page < pages <==> page * limit < total
  {
    if page < pages {
      MulMonotone(page, pages - 1, limit);
    } else {
      MulMonotone(pages, page, limit);
    }
  }

  /** `getPagination($total, $page, $limit)`. */
  function GetPagination(total: nat, page: int, limit: int): (p: PageInfo)
    requires limit > 0
    ensures p.total == total && p.page == page && p.limit == limit
    ensures p.totalPages * limit >= total
    ensures p.totalPages == 0 || (p.totalPages - 1) * limit < total
    ensures p.offset == (page - 1) * limit
    ensures p.hasPrev <==> page > 1
    ensures p.hasNext <==> page * limit < total
  {
    var pages := CeilDiv(total, limit);
    BeforeLastPage(total, page, limit, pages);
    PageInfo(total, page, limit, pages, (page - 1) * limit, page > 1, page < pages)
  }

  /** `max(1, intval($_GET['page'] ?? 1))`. */
  function ClampPage(requested: int): (page: int)
    ensures page >= 1
    ensures requested >= 1 ==> page == requested
    ensures requested < 1 ==> page == 1
  {
    if requested < 1 then 1 else requested
  }

  /** Every page from the first to the last starts inside the result set,
      and the last one reaches its end. */
  lemma {:induction false} PagesCoverRows(total: nat, page: int, limit: int)
    requires limit > 0
    requires 1 <= page <= GetPagination(total, page, limit).totalPages
    ensures 0 <= GetPagination(total, page, limit).offset < total
    ensures page == GetPagination(total, page, limit).totalPages ==>
              GetPagination(total, page, limit).offset + limit >= total
  {
    var p := GetPagination(total, page, limit);
    MulMonotone(page - 1, p.totalPages - 1, limit);
    MulMonotone(0, page - 1, limit);
  }

  /** Worked examples: 25 rows at 10 per page, and no rows. */
  lemma PaginationExamples()
    ensures GetPagination(25, 1, 10) == PageInfo(25, 1, 10, 3, 0, false, true)
    ensures GetPagination(25, 3, 10).offset == 20
    ensures !GetPagination(25, 3, 10).hasNext && GetPagination(25, 3, 10).hasPrev
    ensures GetPagination(0, 1, 10).totalPages == 0 && !GetPagination(0, 1, 10).hasNext
  {
  }
}

/** Pagination shared by the list endpoints: reading `page` and `limit`
    from the query string, and the metadata returned beside each page. */
module Pagination {
  import opened Base
  import opened Numbers

  const DefaultPage := 1
  const DefaultLimit := 20
  const MaxLimit := 100

  datatype PageRequest = PageRequest(page: int, limit: int, offset: nat)

  datatype PageMeta = PageMeta(
    page: int,
    limit: int,
    totalCount: nat,
    totalPages: nat,
    hasNext: bool,
    hasPrev: bool)

  /** `parseInt(x, 10) || fallback`: both `NaN` and 0 are falsy. */
  function IntOr(p: Option<int>, fallback: int): int {
    if p.Some? && p.value != 0 then p.value else fallback
  }

  /** `page`: a missing, non-numeric, zero or negative value gives 1. */
  function PageFrom(p: Option<int>): (page: int)
    ensures page >= 1
    ensures page == if p.Some? && p.value >= 1 then p.value else DefaultPage
  {
    var page0 := IntOr(p, DefaultPage);
    if page0 < 1 then 1 else page0
  }

  /** `limit`: a missing, non-numeric or zero value gives 20; the result is
      clamped into 1..100. */
  function LimitFrom(l: Option<int>): (limit: int)
    ensures 1 <= limit <= MaxLimit
    ensures l.None? || l.value == 0 ==> limit == DefaultLimit
    ensures l.Some? && l.value < 0 ==> limit == 1
    ensures l.Some? && 1 <= l.value <= MaxLimit ==> limit == l.value
    ensures l.Some? && l.value > MaxLimit ==> limit == MaxLimit
  {
    var limit0 := IntOr(l, DefaultLimit);
    if limit0 < 1 then 1 else if limit0 > MaxLimit then MaxLimit else limit0
  }

  /** Reads `page` and `limit` from the query string and derives the offset
      of the first row of the page. */
  function ParsePagination(pageParam: Option<string>, limitParam: Option<string>): (r: PageRequest)
    ensures r.page >= 1 && 1 <= r.limit <= MaxLimit
    ensures r.page == PageFrom(ParseIntParam(pageParam))
    ensures r.limit == LimitFrom(ParseIntParam(limitParam))
    // the page starts after the `page - 1` full pages before it
    ensures r.offset == (r.page - 1) * r.limit
  {
    var page := PageFrom(ParseIntParam(pageParam));
    var limit := LimitFrom(ParseIntParam(limitParam));
    MulMonotone(0, page - 1, limit);
    PageRequest(page, limit, (page - 1) * limit)
  }

  /** `Math.ceil(n / d)` for a positive divisor: the least `q` with
      `q * d >= n`. */
  function CeilDiv(n: nat, d: nat): (q: nat)
    requires d >= 1
    ensures q * d >= n
    ensures q == 0 || (q - 1) * d < n
  {
    var q := (n + d - 1) / d;
    assert q * d + (n + d - 1) % d == n + d - 1;
    q
  }

  /** The metadata echoes its inputs and counts the pages needed to show
      `totalCount` items `limit` at a time. */
  function BuildPaginationMeta(page: int, limit: int, totalCount: nat): (m: PageMeta)
    requires limit >= 1
    ensures m.page == page && m.limit == limit && m.totalCount == totalCount
    ensures m.totalPages * limit >= totalCount
    ensures m.totalPages == 0 || (m.totalPages - 1) * limit < totalCount
    ensures m.hasNext <==> page < m.totalPages
    ensures m.hasPrev <==> page > 1
  {
    var totalPages := CeilDiv(totalCount, limit);
    PageMeta(page, limit, totalCount, totalPages, page < totalPages, page > 1)
  }

  lemma MulMonotone(a: int, b: int, c: int)
    requires a <= b && c >= 0
    ensures a * c <= b * c
  {
  }

  /** `has_next` says exactly that items remain after the current page. */
  lemma HasNextIffItemsRemain(page: int, limit: int, totalCount: nat)
    requires limit >= 1
    ensures BuildPaginationMeta(page, limit, totalCount).hasNext <==> page * limit < totalCount
  {
    var q := BuildPaginationMeta(page, limit, totalCount).totalPages;
    if page < q {
      MulMonotone(page, q as int - 1, limit);
    } else {
      MulMonotone(q, page, limit);
    }
  }

  /** With nothing to show there are no pages and no next page. */
  lemma EmptyResultHasNoPages(page: int, limit: int)
    requires page >= 1 && limit >= 1
    ensures BuildPaginationMeta(page, limit, 0).totalPages == 0
    ensures !BuildPaginationMeta(page, limit, 0).hasNext
  {
  }

  /** Every page from 1 to `total_pages` starts inside the result set, so
      none of them is empty. */
  lemma PagesInRangeAreNonEmpty(page: int, limit: int, totalCount: nat)
    requires limit >= 1
    requires 1 <= page <= BuildPaginationMeta(page, limit, totalCount).totalPages
    ensures (page - 1) * limit < totalCount
  {
    var q := BuildPaginationMeta(page, limit, totalCount).totalPages;
    MulMonotone(page - 1, q as int - 1, limit);
  }

  lemma ParseZero(zero: string)
    requires zero == "0"
    ensures ParseIntParam(Some(zero)) == Some(0)
  {
    assert Decimal(0) == zero;
    ParseIntOfDecimal(0, []);
    assert Decimal(0) + [] == zero;
  }

  /** `limit=0` is falsy and falls back to 20. */
  lemma ZeroLimitFallsBack(zero: string)
    requires zero == "0"
    ensures ParsePagination(None, Some(zero)).limit == DefaultLimit
  {
    ParseZero(zero);
  }

  /** A negative `limit` such as `-5` survives the fallback and is
      clamped to 1. */
  lemma NegativeLimitClamps(n: nat)
    requires n > 0
    ensures ParsePagination(None, Some("-" + Decimal(n))).limit == 1
  {
    ParseIntReadsDigits(n, []);
    assert "-" + Decimal(n) + [] == "-" + Decimal(n);
  }

  /** With no parameters the first page of 20 starts at offset 0. */
  lemma DefaultPageRequest()
    ensures ParsePagination(None, None) == PageRequest(1, 20, 0)
  {
  }
}

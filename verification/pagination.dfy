/**
  Normalisation of the `_page` and `_limit` query parameters of the product
  list (backup/product.js, GET /).  The handler takes `parseInt(x, 10) || d`:
  a NaN (here `None`) or a zero falls back to the default `d`, so only a
  negative number reaches the `page < 1 || limit < 1` rejection.
 */
module Pagination {
  import opened Sql

  const DefaultPage: int := 1
  const DefaultLimit: int := 5
  const InvalidPagination: string := "Page and limit must be greater than 0"

  /** The page to fetch: rows `offset .. offset + limit - 1` of the ordered product set. */
  datatype Window = Window(page: int, limit: int, offset: int)

  datatype Checked = Accepted(window: Window) | Rejected(message: string)

  /** `parsed || fallback` for a number produced by `parseInt`. */
  function OrDefault(parsed: Option<int>, fallback: int): int
  {
    match parsed
    case None => fallback
    case Some(n) => if n == 0 then fallback else n
  }

  predicate IsNegative(parsed: Option<int>)
  {
    parsed.Some? && parsed.value < 0
  }

  /** The page or limit a request asked for, when it asked for a positive one. */
  predicate IsPositive(parsed: Option<int>)
  {
    parsed.Some? && parsed.value > 0
  }

  /** Lines 19-27: fall back, compute the offset, then validate. */
  function Normalize(parsedPage: Option<int>, parsedLimit: Option<int>): (r: Checked)
    ensures r.Accepted? <==> !IsNegative(parsedPage) && !IsNegative(parsedLimit)
    ensures r.Rejected? ==> r.message == InvalidPagination
    ensures r.Accepted? ==>
      && r.window.page >= 1 && r.window.limit >= 1 && r.window.offset >= 0
      && r.window.offset == (r.window.page - 1) * r.window.limit
      && r.window.page == (if IsPositive(parsedPage) then parsedPage.value else DefaultPage)
      && r.window.limit == (if IsPositive(parsedLimit) then parsedLimit.value else DefaultLimit)
  {
    var page := OrDefault(parsedPage, DefaultPage);
    var limit := OrDefault(parsedLimit, DefaultLimit);
    var offset := (page - 1) * limit;
    if page < 1 || limit < 1 then Rejected(InvalidPagination)
    else Accepted(Window(page, limit, offset))
  }

  /** Consecutive pages of the same size are adjacent and do not overlap:
      page p + 1 starts exactly where page p ends. */
  lemma NextPageFollows(p: int, l: Option<int>)
    requires p >= 1 && !IsNegative(l)
    ensures
      var here := Normalize(Some(p), l);
      var next := Normalize(Some(p + 1), l);
      && here.Accepted? && next.Accepted?
      && next.window.offset == here.window.offset + here.window.limit
  {
  }
}

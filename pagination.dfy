/** `moon.sqlalchemy`: the `Pagination` page object and `BaseQuery.paginate`. A query is modelled
    by the sequence of rows it would return: `limit`/`offset` become a window on that sequence and
    `count()` becomes its length. */
module Pagination {
  import opened Wrappers
  import opened IntMath

  /** The `error_out` argument: falsy, the literal `True`, or an exception class (by name). */
  datatype ErrorOut = Off | On | Raise(exception: string)

  /** What `paginate` and the page navigation methods can raise. */
  datatype Failure =
    | PageNotFound
    | Raised(exception: string)
    | AssertionError(message: string)
    | TypeError(message: string)

  const QueryRequiredMessage := "a query object is required for this method work."

  /** A `Pagination` object. `query` is `None` for a page built without a query. */
  datatype Page<T> = Page(query: Option<seq<T>>, pageNum: int, perPage: int, total: int, items: seq<T>)

  function Max(a: int, b: int): int {
    if a < b then b else a
  }

  function Min(a: int, b: int): int {
    if a < b then a else b
  }

  /** `query.limit(limit).offset(offset).all()`: at most `limit` rows starting at row `offset`.
      A negative offset or limit counts as zero. */
  function Window<T>(rows: seq<T>, offset: int, limit: int): (w: seq<T>)
    ensures |w| == Max(0, Min(Max(limit, 0), |rows| - Max(offset, 0)))
    ensures forall k :: 0 <= k < |w| ==> w[k] == rows[Max(offset, 0) + k]
  {
    var off := Max(offset, 0);
    var lim := Max(limit, 0);
    if off >= |rows| then [] else rows[off..Min(off + lim, |rows|)]
  }

  /** `pages`: 0 without a page size, else `ceil(total / per_page)`. */
  function Pages<T>(p: Page<T>): (n: int)
    ensures p.perPage == 0 ==> n == 0
    ensures p.perPage > 0 ==> (n - 1) * p.perPage < p.total <= n * p.perPage
    ensures p.perPage < 0 ==> n * p.perPage <= p.total < (n - 1) * p.perPage
    ensures p.perPage > 0 && p.total >= 0 ==> n >= 0
  {
    if p.perPage == 0 then 0 else CeilDiv(p.total, p.perPage)
  }

  predicate HasPrev<T>(p: Page<T>) {
    p.pageNum > 1
  }

  predicate HasNext<T>(p: Page<T>) {
    p.pageNum < Pages(p)
  }

  function PrevNum<T>(p: Page<T>): int {
    p.pageNum - 1
  }

  function NextNum<T>(p: Page<T>): int {
    p.pageNum + 1
  }

  /** What `raise error_out` raises once `True` has been mapped to `PageNotFound`. */
  function Raising(errorOut: ErrorOut): Failure
    requires errorOut != Off
  {
    match errorOut
    case On => PageNotFound
    case Raise(e) => Raised(e)
  }

  /** The rows of page `pageNum`: `per_page` of them from row `(page_num - 1) * per_page`. */
  function PageItems<T>(rows: seq<T>, pageNum: int, perPage: int): seq<T> {
    Window(rows, (pageNum - 1) * perPage, perPage)
  }

  /** `BaseQuery.paginate(page_num, per_page, error_out)` on a query returning `rows`. */
  function Paginate<T>(rows: seq<T>, pageNum: int, perPage: int, errorOut: ErrorOut): Result<Page<T>, Failure> {
    if pageNum < 1 && errorOut != Off then Err(Raising(errorOut))
    else
      var items := PageItems(rows, pageNum, perPage);
      if items == [] && pageNum != 1 && errorOut != Off then Err(Raising(errorOut))
      else
        var total := if pageNum == 1 && |items| < perPage then |items| else |rows|;
        Ok(Page(Some(rows), pageNum, perPage, total, items))
  }

  /** `Pagination.prev(error_out)`: the previous page of the same query. */
  function Prev<T>(p: Page<T>, errorOut: ErrorOut): Result<Page<T>, Failure> {
    match p.query
    case None => Err(AssertionError(QueryRequiredMessage))
    case Some(rows) => Paginate(rows, p.pageNum - 1, p.perPage, errorOut)
  }

  /** `Pagination.next(error_out)`: the next page of the same query. */
  function Next<T>(p: Page<T>, errorOut: ErrorOut): Result<Page<T>, Failure> {
    match p.query
    case None => Err(AssertionError(QueryRequiredMessage))
    case Some(rows) => Paginate(rows, p.pageNum + 1, p.perPage, errorOut)
  }

  /** The page-1 shortcut agrees with `count()`: the total is always the full row count. */
  lemma TotalIsRowCount<T>(rows: seq<T>, pageNum: int, perPage: int, errorOut: ErrorOut)
    requires Paginate(rows, pageNum, perPage, errorOut).Ok?
    ensures Paginate(rows, pageNum, perPage, errorOut).value.total == |rows|
  {
    var items := PageItems(rows, pageNum, perPage);
    if pageNum == 1 && |items| < perPage {
      assert (pageNum - 1) * perPage == 0;
    }
  }

  /** The items are the rows of that page: `rows[(n-1)*k .. n*k]`, cut at the end. */
  lemma PageSlice<T>(rows: seq<T>, pageNum: int, perPage: int, errorOut: ErrorOut)
    requires pageNum >= 1 && perPage >= 0
    requires Paginate(rows, pageNum, perPage, errorOut).Ok?
    ensures var start := Min((pageNum - 1) * perPage, |rows|);
      Paginate(rows, pageNum, perPage, errorOut).value.items == rows[start..Min(start + perPage, |rows|)]
    ensures |Paginate(rows, pageNum, perPage, errorOut).value.items| <= perPage
  {
    var start := Min((pageNum - 1) * perPage, |rows|);
    MulMonotone(0, pageNum - 1, perPage);
    var items := PageItems(rows, pageNum, perPage);
    assert items == rows[start..Min(start + perPage, |rows|)];
  }

  /** `error_out` decides whether a bad page raises: never when it is falsy; otherwise exactly for a
      page number below 1 or an empty page other than the first, raising `PageNotFound` for
      `True` and the given exception otherwise. */
  lemma BadPageNumbers<T>(rows: seq<T>, pageNum: int, perPage: int, errorOut: ErrorOut)
    ensures errorOut == Off ==> Paginate(rows, pageNum, perPage, errorOut).Ok?
    ensures errorOut != Off ==>
      (Paginate(rows, pageNum, perPage, errorOut).Err? <==>
        pageNum < 1 || (pageNum != 1 && PageItems(rows, pageNum, perPage) == []))
    ensures Paginate(rows, pageNum, perPage, On).Err? ==>
      Paginate(rows, pageNum, perPage, On).error == PageNotFound
    ensures forall e :: Paginate(rows, pageNum, perPage, Raise(e)).Err? ==>
      Paginate(rows, pageNum, perPage, Raise(e)).error == Raised(e)
  {
  }

  /** `has_next` holds exactly when rows remain after this page. */
  lemma HasNextIff<T>(rows: seq<T>, pageNum: int, perPage: int, errorOut: ErrorOut)
    requires perPage > 0
    requires Paginate(rows, pageNum, perPage, errorOut).Ok?
    ensures HasNext(Paginate(rows, pageNum, perPage, errorOut).value) <==> pageNum * perPage < |rows|
  {
    TotalIsRowCount(rows, pageNum, perPage, errorOut);
    BelowCeil(|rows|, perPage, pageNum);
  }

  /** A page that says it has a next page can be followed even with `error_out` set. */
  lemma NextOfHasNext<T>(rows: seq<T>, pageNum: int, perPage: int, errorOut: ErrorOut, nextOut: ErrorOut)
    requires perPage > 0 && pageNum >= 1
    requires Paginate(rows, pageNum, perPage, errorOut).Ok?
    requires HasNext(Paginate(rows, pageNum, perPage, errorOut).value)
    ensures Next(Paginate(rows, pageNum, perPage, errorOut).value, nextOut).Ok?
    ensures Next(Paginate(rows, pageNum, perPage, errorOut).value, nextOut).value.items != []
  {
    HasNextIff(rows, pageNum, perPage, errorOut);
    assert pageNum * perPage == (pageNum + 1 - 1) * perPage;
  }

  /** From any page after the first that `paginate` returned with `error_out` set, the previous
      page exists too. */
  lemma PrevOfHasPrev<T>(rows: seq<T>, pageNum: int, perPage: int, errorOut: ErrorOut, prevOut: ErrorOut)
    requires perPage > 0 && errorOut != Off
    requires Paginate(rows, pageNum, perPage, errorOut).Ok?
    requires HasPrev(Paginate(rows, pageNum, perPage, errorOut).value)
    ensures Prev(Paginate(rows, pageNum, perPage, errorOut).value, prevOut).Ok?
    ensures Prev(Paginate(rows, pageNum, perPage, errorOut).value, prevOut).value.items != []
  {
    assert (pageNum - 1) * perPage < |rows|;
    MulMonotone(pageNum - 2, pageNum - 1, perPage);
    assert (pageNum - 2) * perPage == (pageNum - 1 - 1) * perPage;
  }

  /** Navigation needs the query: a page built without one fails `prev` and `next`. */
  lemma NavigationNeedsQuery<T>(p: Page<T>, errorOut: ErrorOut)
    requires p.query.None?
    ensures Prev(p, errorOut) == Err(AssertionError(QueryRequiredMessage))
    ensures Next(p, errorOut) == Err(AssertionError(QueryRequiredMessage))
  {
  }

  /** `prev()` and `next()` land on `prev_num` and `next_num` with the same page size, and the
      page after a valid one always has a previous page. */
  lemma NavigationNumbers<T>(p: Page<T>, errorOut: ErrorOut)
    ensures Prev(p, errorOut).Ok? ==>
      Prev(p, errorOut).value.pageNum == PrevNum(p) && Prev(p, errorOut).value.perPage == p.perPage
    ensures Next(p, errorOut).Ok? ==>
      Next(p, errorOut).value.pageNum == NextNum(p) && Next(p, errorOut).value.perPage == p.perPage
    ensures Next(p, errorOut).Ok? && p.pageNum >= 1 ==> HasPrev(Next(p, errorOut).value)
    ensures Prev(p, errorOut).Ok? && p.query.Some? ==> Prev(p, errorOut).value.query == p.query
    ensures Next(p, errorOut).Ok? ==> Next(p, errorOut).value.query == p.query
  {
  }
}

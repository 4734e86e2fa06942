/** The older copy of the pagination code in the top-level `sqlalchemy` package. Its `Pagination`
    class is the same code as `moon.sqlalchemy`'s and is modelled by `Pagination.Page`; only
    `BaseQuery.paginate` differs: it raises `error_out` as given, without mapping `True` to
    `PageNotFound`. */
module LegacyPagination {
  import opened Wrappers
  import opened IntMath
  import opened Pagination

  /** Python 2.7's message for `raise True`. */
  const RaiseBoolMessage := "exceptions must be old-style classes or derived from BaseException, not bool"

  /** What `raise error_out` raises when `error_out` is passed through unchanged: `raise True`
      is itself a `TypeError`. */
  function RaisingAsGiven(errorOut: ErrorOut): Failure
    requires errorOut != Off
  {
    match errorOut
    case On => TypeError(RaiseBoolMessage)
    case Raise(e) => Raised(e)
  }

  /** `BaseQuery.paginate` of the older copy, as written. */
  function Paginate<T>(rows: seq<T>, pageNum: int, perPage: int, errorOut: ErrorOut): Result<Page<T>, Failure> {
    if pageNum < 1 && errorOut != Off then Err(RaisingAsGiven(errorOut))
    else
      var items := PageItems(rows, pageNum, perPage);
      if items == [] && pageNum != 1 && errorOut != Off then Err(RaisingAsGiven(errorOut))
      else
        var total := if pageNum == 1 && |items| < perPage then |items| else |rows|;
        Ok(Page(Some(rows), pageNum, perPage, total, items))
  }

  /** The older `Pagination.prev`. */
  function Prev<T>(p: Page<T>, errorOut: ErrorOut): Result<Page<T>, Failure> {
    match p.query
    case None => Err(AssertionError(QueryRequiredMessage))
    case Some(rows) => Paginate(rows, p.pageNum - 1, p.perPage, errorOut)
  }

  /** The older `Pagination.next`. */
  function Next<T>(p: Page<T>, errorOut: ErrorOut): Result<Page<T>, Failure> {
    match p.query
    case None => Err(AssertionError(QueryRequiredMessage))
    case Some(rows) => Paginate(rows, p.pageNum + 1, p.perPage, errorOut)
  }

  /** Both copies agree on everything but the exception raised for `error_out=True`: they
      succeed on the same inputs with the same page, and fail on the same inputs. */
  lemma AgreesWithMoon<T>(rows: seq<T>, pageNum: int, perPage: int, errorOut: ErrorOut)
    ensures Paginate(rows, pageNum, perPage, errorOut).Ok? <==>
      Pagination.Paginate(rows, pageNum, perPage, errorOut).Ok?
    ensures Paginate(rows, pageNum, perPage, errorOut).Ok? ==>
      Paginate(rows, pageNum, perPage, errorOut) == Pagination.Paginate(rows, pageNum, perPage, errorOut)
    ensures errorOut != On ==>
      Paginate(rows, pageNum, perPage, errorOut) == Pagination.Paginate(rows, pageNum, perPage, errorOut)
  {
  }

  /** The older copy's `prev` and `next` need the query, and otherwise behave as the newer ones
      except for the exception raised under `error_out=True`. */
  lemma NavigationAgrees<T>(p: Page<T>, errorOut: ErrorOut)
    ensures p.query.None? ==> Prev(p, errorOut) == Err(AssertionError(QueryRequiredMessage))
    ensures p.query.None? ==> Next(p, errorOut) == Err(AssertionError(QueryRequiredMessage))
    ensures errorOut != On ==> Prev(p, errorOut) == Pagination.Prev(p, errorOut)
    ensures errorOut != On ==> Next(p, errorOut) == Pagination.Next(p, errorOut)
    ensures Prev(p, errorOut).Ok? <==> Pagination.Prev(p, errorOut).Ok?
    ensures Next(p, errorOut).Ok? <==> Pagination.Next(p, errorOut).Ok?
  {
    if p.query.Some? {
      AgreesWithMoon(p.query.value, p.pageNum - 1, p.perPage, errorOut);
      AgreesWithMoon(p.query.value, p.pageNum + 1, p.perPage, errorOut);
    }
  }

  /** The older copy's slice, total and page count: `(n-1)*k`-offset slice of at most `k` rows,
      the full row count as total, and `ceil(total / k)` pages. */
  lemma SliceAndTotal<T>(rows: seq<T>, pageNum: int, perPage: int, errorOut: ErrorOut)
    requires pageNum >= 1 && perPage > 0
    requires Paginate(rows, pageNum, perPage, errorOut).Ok?
    ensures var p := Paginate(rows, pageNum, perPage, errorOut).value;
      var start := Min((pageNum - 1) * perPage, |rows|);
      && p.items == rows[start..Min(start + perPage, |rows|)]
      && p.total == |rows|
      && (Pages(p) - 1) * perPage < |rows| <= Pages(p) * perPage
      && (HasNext(p) <==> pageNum * perPage < |rows|)
      && (HasPrev(p) <==> pageNum > 1)
  {
    AgreesWithMoon(rows, pageNum, perPage, errorOut);
    PageSlice(rows, pageNum, perPage, errorOut);
    TotalIsRowCount(rows, pageNum, perPage, errorOut);
    HasNextIff(rows, pageNum, perPage, errorOut);
  }

  /** The older copy's bad-page rule: with a truthy `error_out` a page number below 1 or an
      empty later page raises, and `error_out=True` raises a `TypeError`. */
  lemma BadPageNumbers<T>(rows: seq<T>, pageNum: int, perPage: int, errorOut: ErrorOut)
    ensures errorOut == Off ==> Paginate(rows, pageNum, perPage, errorOut).Ok?
    ensures errorOut != Off ==>
      (Paginate(rows, pageNum, perPage, errorOut).Err? <==>
        pageNum < 1 || (pageNum != 1 && PageItems(rows, pageNum, perPage) == []))
    ensures Paginate(rows, pageNum, perPage, On).Err? ==>
      Paginate(rows, pageNum, perPage, On).error == TypeError(RaiseBoolMessage)
  {
  }

  /** `paginate(0, 10, error_out=True)` on any query: the older copy fails with a `TypeError`
      where the newer one raises `PageNotFound`. */
  lemma RaiseTrueExample(rows: seq<int>)
    ensures Paginate(rows, 0, 10, On) == Err(TypeError(RaiseBoolMessage))
    ensures Pagination.Paginate(rows, 0, 10, On) == Err(PageNotFound)
  {
  }
}

/** List requests, read from query pairs, and the page envelope. */
module Pagination {
  import opened Wrappers
  import opened Numbers

  const DEFAULT_PER_PAGE: int := 10
  const MAX_PER_PAGE: int := 100

  type Pairs = seq<(string, string)>

  /** What a list request says, as a value. */
  datatype Request = Request(page: int, perPage: int, sortBy: string, order: string, filters: map<string, string>)
  {
    /** A filter that is absent or empty does not count. */
    function Filter(key: string): (r: Option<string>) {
      if key in filters && filters[key] != "" then Some(filters[key]) else None
    }

    function Offset(): int {
      WrapI64((page - 1) * perPage)
    }

    predicate Normal() {
      && 1 <= page <= 9_223_372_036_854_775_807 && 1 <= perPage <= 100
      && (order == "asc" || order == "desc" || order == "")
    }
  }

  // Reading a query: the last pair for a key decides.

  function LastValue(pairs: Pairs, key: string): Option<string> {
    if pairs == [] then None
    else if pairs[|pairs| - 1].0 == key then Some(pairs[|pairs| - 1].1)
    else LastValue(pairs[..|pairs| - 1], key)
  }

  function ParsedOr(value: Option<string>, default: int): int {
    if value.None? then default
    else match ParseI64(value.value) case Some(n) => n case None => default
  }

  predicate Reserved(key: string) {
    key == "page" || key == "per_page" || key == "sort_by" || key == "order"
  }

  ghost predicate ReadsFilters(pairs: Pairs, filters: map<string, string>) {
    forall key ::
      if !Reserved(key) && LastValue(pairs, key).Some?
      then key in filters && filters[key] == LastValue(pairs, key).value
      else key !in filters
  }

  function OrEmpty(value: Option<string>): string {
    if value.Some? then value.value else ""
  }

  /** The request these pairs stand for, before it is normalised. */
  ghost predicate Reads(pairs: Pairs, r: Request) {
    && r.page == ParsedOr(LastValue(pairs, "page"), 1)
    && r.perPage == ParsedOr(LastValue(pairs, "per_page"), DEFAULT_PER_PAGE)
    && r.sortBy == OrEmpty(LastValue(pairs, "sort_by"))
    && r.order == OrEmpty(LastValue(pairs, "order"))
    && ReadsFilters(pairs, r.filters)
  }

  function Normalized(r: Request): Request {
    r.(page := if r.page < 1 then 1 else r.page,
       perPage := if r.perPage < 1 || r.perPage > MAX_PER_PAGE then DEFAULT_PER_PAGE else r.perPage,
       order := if r.order != "asc" && r.order != "desc" then "" else r.order)
  }

  /** Normalising gives a normal request, and changes only what is not normal. */
  lemma {:induction false} NormalizedIsNormal(r: Request)
    requires r.page <= I64_MAX
    ensures Normalized(r).Normal() && (Normalized(r) == r <==> r.Normal())
    ensures Normalized(r).sortBy == r.sortBy && Normalized(r).filters == r.filters
    ensures Normalized(r).page == if r.page < 1 then 1 else r.page
    ensures Normalized(r).perPage == if 1 <= r.perPage <= 100 then r.perPage else 10
    ensures Normalized(r).order in {r.order, ""}
  {
  }

  /** The page and the page size of a query, by number: a page counts from 1 up to the largest i64, a size
      from 1 up to 100, and anything else asks for page 1 and size 10. */
  lemma {:induction false} NumbersOfAQuery(pairs: Pairs, read: Request, n: nat)
    requires Reads(pairs, read)
    ensures var page, page' := LastValue(pairs, "page"), Normalized(read).page;
            && (page == Some(Decimal(n)) ==> page' == if 1 <= n <= 9_223_372_036_854_775_807 then n else 1)
            && (page.None? || ParseI64(page.value).None? || ParseI64(page.value).value < 1 ==> page' == 1)
    ensures var size, size' := LastValue(pairs, "per_page"), Normalized(read).perPage;
            && (size == Some(Decimal(n)) ==> size' == if 1 <= n <= 100 then n else 10)
            && (size.None? || ParseI64(size.value).None? || ParseI64(size.value).value < 1 ==> size' == 10)
  {
    ParsePrinted(n, I64_MIN, I64_MAX);
  }

  /** Its texts: sort_by and order are their last values or empty, and every other key, and none of the four,
      becomes a filter with its last value. */
  lemma {:induction false} TextsOfAQuery(pairs: Pairs, read: Request, key: string)
    requires Reads(pairs, read)
    ensures read.sortBy == match LastValue(pairs, "sort_by") case Some(value) => value case None => ""
    ensures read.order == match LastValue(pairs, "order") case Some(value) => value case None => ""
    ensures key in read.filters
            <==> LastValue(pairs, key).Some? && key != "page" && key != "per_page" && key != "sort_by" && key != "order"
    ensures key in read.filters ==> LastValue(pairs, key) == Some(read.filters[key])
  {
  }

  lemma {:induction false} ReadOneMore(pairs: Pairs, key: string, value: string, r: Request)
    requires Reads(pairs, r)
    ensures Reads(pairs + [(key, value)],
                  if key == "page" then r.(page := ParsedOr(Some(value), 1))
                  else if key == "per_page" then r.(perPage := ParsedOr(Some(value), DEFAULT_PER_PAGE))
                  else if key == "sort_by" then r.(sortBy := value)
                  else if key == "order" then r.(order := value)
                  else r.(filters := r.filters[key := value]))
  {
    var longer := pairs + [(key, value)];
    assert longer[..|longer| - 1] == pairs;
    assert forall k :: LastValue(longer, k) == if k == key then Some(value) else LastValue(pairs, k);
  }

  class ListRequest {
    var page: int
    var perPage: int
    var sortBy: string
    var order: string
    var filters: map<string, string>

    constructor Default()
      ensures View() == Request(1, DEFAULT_PER_PAGE, "", "", map[])
    {
      page, perPage, sortBy, order, filters := 1, DEFAULT_PER_PAGE, "", "", map[];
    }

    function View(): Request
      reads this
    {
      Request(page, perPage, sortBy, order, filters)
    }

    method Normalize()
      modifies this
      ensures View() == Normalized(old(View()))
    {
      if page < 1 {
        page := 1;
      }
      if perPage < 1 || perPage > MAX_PER_PAGE {
        perPage := DEFAULT_PER_PAGE;
      }
      if order != "asc" && order != "desc" {
        order := "";
      }
    }

    /** The loop over the pairs ends in the request that the last value of each key describes,
        normalised. */
    static method FromQuery(pairs: Pairs) returns (request: ListRequest)
      ensures fresh(request) && request.View().Normal()
      ensures exists read :: Reads(pairs, read) && request.View() == Normalized(read)
    {
      request := new ListRequest.Default();
      for i := 0 to |pairs|
        invariant fresh(request) && Reads(pairs[..i], request.View())
        invariant request.page <= I64_MAX
      {
        var (key, value) := pairs[i];
        assert pairs[..i] + [(key, value)] == pairs[..i + 1];
        ReadOneMore(pairs[..i], key, value, request.View());
        if key == "page" {
          request.page := ParsedOr(Some(value), 1);
        } else if key == "per_page" {
          request.perPage := ParsedOr(Some(value), DEFAULT_PER_PAGE);
        } else if key == "sort_by" {
          request.sortBy := value;
        } else if key == "order" {
          request.order := value;
        } else {
          request.filters := request.filters[key := value];
        }
      }
      assert pairs[..|pairs|] == pairs;
      request.Normalize();
    }
  }

  /** The pairs determine the request that is read from them: nothing else about them matters. */
  lemma {:induction false} ReadingIsDetermined(pairs: Pairs, other: Pairs, r: Request, s: Request)
    requires Reads(pairs, r) && Reads(other, s)
    requires forall key :: LastValue(pairs, key) == LastValue(other, key)
    ensures r == s
  {
    assert forall key :: key in r.filters <==> key in s.filters;
    assert r.filters == s.filters;
  }

  lemma {:induction false} MulMonotone(a: int, b: int, c: nat)
    requires a <= b
    ensures a * c <= b * c
  {
  }

  /** The offset of a normal request is the number of rows before its page exactly when that number fits
      an i64; otherwise it has wrapped around. */
  lemma {:induction false} OffsetIsExactIff(r: Request)
    requires r.Normal()
    ensures r.Offset() == (r.page - 1) * r.perPage <==> r.page - 1 <= I64_MAX / r.perPage
  {
    var most := I64_MAX / r.perPage;
    if r.page - 1 <= most {
      MulMonotone(r.page - 1, most, r.perPage);
    } else {
      MulMonotone(most + 1, r.page - 1, r.perPage);
    }
  }

  // The page envelope.

  datatype MetaData = MetaData(
    totalCount: int, totalPages: int, currentPage: int, perPage: int,
    nextPage: Option<int>, previousPage: Option<int>)

  /** The number of pages is the exact ceiling of count over page size. */
  ghost predicate IsPageCount(pages: int, totalCount: int, perPage: int) {
    pages >= 0 && pages * perPage >= totalCount && (pages - 1) * perPage < totalCount
  }

  lemma {:induction false} DivisionIsPageCount(totalCount: nat, perPage: nat)
    requires perPage >= 1
    ensures IsPageCount(totalCount / perPage + (if totalCount % perPage != 0 then 1 else 0), totalCount, perPage)
  {
    var q := totalCount / perPage;
    assert totalCount == q * perPage + totalCount % perPage;
    assert (q + 1) * perPage == q * perPage + perPage && (q - 1) * perPage == q * perPage - perPage;
  }

  /** The links of a page, given the number of pages. */
  function NextPage(page: int, totalPages: int): Option<int> {
    var next := WrapI64(page + 1);
    if next <= totalPages then Some(next) else None
  }

  function PreviousPage(page: int, totalPages: int): Option<int> {
    if 2 <= page <= totalPages + 1 then Some(page - 1) else None
  }

  method NewMetaData(totalCount: int, currentPage: int, perPage: int) returns (meta: MetaData)
    requires 0 <= totalCount <= I64_MAX && 1 <= currentPage <= I64_MAX
    ensures meta.totalCount == totalCount && meta.currentPage == currentPage
    ensures meta.perPage == if perPage < 1 then 1 else perPage
    ensures IsPageCount(meta.totalPages, totalCount, meta.perPage)
    ensures totalCount == 0 ==> meta.totalPages == 0
    ensures meta.nextPage == NextPage(currentPage, meta.totalPages)
    ensures currentPage < 9_223_372_036_854_775_807 ==>
              meta.nextPage == if currentPage < meta.totalPages then Some(currentPage + 1) else None
    ensures meta.previousPage == PreviousPage(currentPage, meta.totalPages)
    ensures meta.previousPage == if 2 <= currentPage <= meta.totalPages + 1 then Some(currentPage - 1) else None
  {
    var perPage' := if perPage < 1 then 1 else perPage;
    var totalPages := totalCount / perPage';
    if totalCount % perPage' != 0 {
      totalPages := totalPages + 1;
    }
    DivisionIsPageCount(totalCount, perPage');
    var next := WrapI64(currentPage + 1);
    var nextPage := if next <= totalPages then Some(next) else None;
    var previous := currentPage - 1;
    var previousPage := if previous >= 1 && previous <= totalPages then Some(previous) else None;
    meta := MetaData(totalCount, totalPages, currentPage, perPage', nextPage, previousPage);
  }

  /** The next link is right exactly when the page number can be incremented. */
  lemma {:induction false} NextPageIsRightIff(page: int, totalPages: int)
    requires 1 <= page <= I64_MAX && 0 <= totalPages <= I64_MAX
    ensures NextPage(page, totalPages) == (if page < totalPages then Some(page + 1) else None)
            <==> page < 9_223_372_036_854_775_807
  {
  }

  /** Following the next links from a page. */
  function Following(page: int, totalPages: int): seq<int>
    requires 1 <= page <= totalPages < I64_MAX
    decreases totalPages - page
  {
    var next := NextPage(page, totalPages);
    [page] + if next.Some? then Following(next.value, totalPages) else []
  }

  /** From page 1 they visit every page once, in order, and stop. */
  lemma {:induction false} FollowingVisitsEveryPage(page: int, totalPages: int)
    requires 1 <= page <= totalPages < I64_MAX
    ensures Following(page, totalPages) == seq(totalPages - page + 1, i => page + i)
    decreases totalPages - page
  {
    if page < totalPages {
      FollowingVisitsEveryPage(page + 1, totalPages);
    }
  }

  /** On the pages that exist, previous and next are inverse. */
  lemma {:induction false} PreviousInvertsNext(page: int, other: int, totalPages: int)
    requires 1 <= page <= totalPages < I64_MAX && 1 <= other <= totalPages
    ensures NextPage(page, totalPages) == Some(other) <==> PreviousPage(other, totalPages) == Some(page)
  {
  }

  /** A page past the end has no next link unless its number wraps around, and leads back only to the last
      page, and only from the place right after it. */
  lemma {:induction false} LinksPastTheEnd(page: int, totalPages: int)
    requires 0 <= totalPages < page <= 9_223_372_036_854_775_807
    ensures NextPage(page, totalPages) == if page == I64_MAX then Some(I64_MIN) else None
    ensures forall other :: PreviousPage(page, totalPages) == Some(other)
                            <==> other == totalPages && page == totalPages + 1 && totalPages >= 1
  {
  }

  /** The query page=9223372036854775807 is read as it stands, and both computations wrap around. */
  lemma {:induction false} HugePageWraps(read: Request, totalPages: int)
    requires Reads([("page", Decimal(I64_MAX))], read) && 0 <= totalPages
    ensures var r := Normalized(read);
            && r.Normal() && r.page == I64_MAX && r.perPage == 10
            && r.Offset() == -20 && NextPage(r.page, totalPages) == Some(I64_MIN)
  {
    var pairs := [("page", Decimal(I64_MAX))];
    assert LastValue(pairs, "page") == Some(Decimal(I64_MAX));
    assert pairs[..0] == [] && LastValue(pairs, "per_page") == None && LastValue(pairs, "order") == None;
    ParseIntRoundTrip(I64_MAX, I64_MIN, I64_MAX);
  }
}

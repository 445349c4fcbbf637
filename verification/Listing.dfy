/** Ordered result lists, their pages, and when the pages of a listing fit together. */
module Listings {
  import opened Wrappers
  import opened Numbers
  import opened IamTables
  import opened Pagination
  import opened UserQueries

  /** How the database compares text: case folding for ILIKE and a collation for ORDER BY, which also
      places NULL. */
  datatype Locale = Locale(fold: char -> char, le: (Option<string>, Option<string>) -> bool)

  ghost predicate TotalOrder(le: (Option<string>, Option<string>) -> bool) {
    && (forall a, b :: le(a, b) || le(b, a))
    && (forall a, b :: le(a, b) && le(b, a) ==> a == b)
    && (forall a, b, c :: le(a, b) && le(b, c) ==> le(a, c))
  }

  function SortKey(row: Joined, column: Column): Option<string> {
    match column
    case UserName => Some(row.user.userName)
    case Email => Some(row.user.email)
    case FirstName => Some(row.user.firstName)
    case LastName => Some(row.user.lastName)
    case StatusName => row.status
    case DepartmentName => row.department
  }

  predicate InOrder(locale: Locale, column: Column, direction: Direction, a: Joined, b: Joined) {
    if direction.Asc? then locale.le(SortKey(a, column), SortKey(b, column))
    else locale.le(SortKey(b, column), SortKey(a, column))
  }

  /** A list in which a database may return these rows: all of them, each once, and sorted. Rows with
      equal keys may come in either order. */
  ghost predicate IsOrdering(locale: Locale, column: Column, direction: Direction, rows: set<Joined>,
                             full: seq<Joined>)
  {
    && (forall row :: row in full <==> row in rows)
    && (forall i, j | 0 <= i < j < |full| :: full[i] != full[j] && InOrder(locale, column, direction, full[i], full[j]))
  }

  ghost predicate DistinctKeys(column: Column, rows: set<Joined>) {
    forall a, b | a in rows && b in rows && SortKey(a, column) == SortKey(b, column) :: a == b
  }

  lemma {:induction false} TailIsOrdering(locale: Locale, column: Column, direction: Direction, rows: set<Joined>,
      full: seq<Joined>)
    requires IsOrdering(locale, column, direction, rows, full) && full != []
    ensures IsOrdering(locale, column, direction, rows - {full[0]}, full[1..])
  {
    assert full == [full[0]] + full[1..];
  }

  lemma {:induction false} OrderingSize(locale: Locale, column: Column, direction: Direction, rows: set<Joined>,
      full: seq<Joined>)
    requires IsOrdering(locale, column, direction, rows, full)
    ensures |full| == |rows|
  {
    if full == [] {
      assert rows == {};
    } else {
      TailIsOrdering(locale, column, direction, rows, full);
      OrderingSize(locale, column, direction, rows - {full[0]}, full[1..]);
    }
  }

  /** Distinct keys leave the database no choice. */
  lemma {:induction false} OrderingIsUnique(locale: Locale, column: Column, direction: Direction,
                                            rows: set<Joined>, full: seq<Joined>, other: seq<Joined>)
    requires TotalOrder(locale.le) && DistinctKeys(column, rows)
    requires IsOrdering(locale, column, direction, rows, full) && IsOrdering(locale, column, direction, rows, other)
    ensures full == other
  {
    OrderingSize(locale, column, direction, rows, full);
    OrderingSize(locale, column, direction, rows, other);
    if full != [] {
      assert full[0] in other && other[0] in full;
      assert full[0] == other[0];
      TailIsOrdering(locale, column, direction, rows, full);
      TailIsOrdering(locale, column, direction, rows, other);
      OrderingIsUnique(locale, column, direction, rows - {full[0]}, full[1..], other[1..]);
      assert full == [full[0]] + full[1..] && other == [other[0]] + other[1..];
    }
  }

  function Swapped(full: seq<Joined>, i: nat): seq<Joined>
    requires i + 1 < |full|
  {
    full[i := full[i + 1]][i + 1 := full[i]]
  }

  lemma {:induction false} SwappedIsOrdering(locale: Locale, column: Column, direction: Direction,
                          rows: set<Joined>, full: seq<Joined>, i: nat)
    requires TotalOrder(locale.le) && IsOrdering(locale, column, direction, rows, full)
    requires i + 1 < |full| && SortKey(full[i], column) == SortKey(full[i + 1], column)
    ensures IsOrdering(locale, column, direction, rows, Swapped(full, i)) && Swapped(full, i) != full
  {
    var other := Swapped(full, i);
    assert other[i] == full[i + 1] && other[i + 1] == full[i];
    forall row ensures row in other <==> row in rows {
      if row in full {
        var k :| 0 <= k < |full| && full[k] == row;
        assert other[if k == i then i + 1 else if k == i + 1 then i else k] == row;
      }
    }
  }

  lemma {:induction false} NothingBetween(locale: Locale, column: Column, direction: Direction, rows: set<Joined>,
                                          full: seq<Joined>, i: nat, later: nat)
    requires TotalOrder(locale.le) && IsOrdering(locale, column, direction, rows, full)
    requires i < later < |full| && SortKey(full[i], column) == SortKey(full[later], column)
    ensures SortKey(full[i], column) == SortKey(full[i + 1], column)
  {
    assert InOrder(locale, column, direction, full[i], full[i + 1]);
    assert i + 1 == later || InOrder(locale, column, direction, full[i + 1], full[later]);
  }

  lemma {:induction false} AdjacentTie(locale: Locale, column: Column, direction: Direction, rows: set<Joined>,
      full: seq<Joined>)
    returns (i: nat)
    requires TotalOrder(locale.le) && IsOrdering(locale, column, direction, rows, full) && !DistinctKeys(column, rows)
    ensures i + 1 < |full| && SortKey(full[i], column) == SortKey(full[i + 1], column)
  {
    var a, b :| a in rows && b in rows && SortKey(a, column) == SortKey(b, column) && a != b;
    assert a in full && b in full;
    var j :| 0 <= j < |full| && full[j] == a;
    var k :| 0 <= k < |full| && full[k] == b;
    i := if j < k then j else k;
    NothingBetween(locale, column, direction, rows, full, i, if j < k then k else j);
  }

  /** A listing has one possible order exactly when no two of its rows have the same key. */
  lemma {:induction false} OrderingIsUniqueIff(locale: Locale, column: Column, direction: Direction,
      rows: set<Joined>, full: seq<Joined>)
    requires TotalOrder(locale.le) && IsOrdering(locale, column, direction, rows, full)
    ensures (forall other :: IsOrdering(locale, column, direction, rows, other) ==> other == full)
            <==> DistinctKeys(column, rows)
  {
    if DistinctKeys(column, rows) {
      forall other | IsOrdering(locale, column, direction, rows, other) ensures other == full {
        OrderingIsUnique(locale, column, direction, rows, full, other);
      }
    } else {
      var i := AdjacentTie(locale, column, direction, rows, full);
      SwappedIsOrdering(locale, column, direction, rows, full, i);
    }
  }

  // Pages.

  function Min(a: int, b: int): int {
    if a < b then a else b
  }

  /** OFFSET and LIMIT. */
  function Slice<T>(full: seq<T>, offset: nat, limit: nat): seq<T> {
    full[Min(offset, |full|)..Min(offset + limit, |full|)]
  }

  /** A tie across a page boundary can show one row on two pages, and so leave another out: the two pages
      may come from different orderings. */
  lemma {:induction false} TieCanRepeatARow(locale: Locale, column: Column, direction: Direction,
                         rows: set<Joined>, full: seq<Joined>, page: nat, perPage: nat)
    requires TotalOrder(locale.le) && IsOrdering(locale, column, direction, rows, full)
    requires page >= 1 && perPage >= 1 && page * perPage < |full|
    requires SortKey(full[page * perPage - 1], column) == SortKey(full[page * perPage], column)
    ensures var other := Swapped(full, page * perPage - 1);
            && IsOrdering(locale, column, direction, rows, other)
            && full[page * perPage - 1] in Slice(full, (page - 1) * perPage, perPage)
            && full[page * perPage - 1] in Slice(other, page * perPage, perPage)
  {
    var last := page * perPage - 1;
    var other := Swapped(full, last);
    SwappedIsOrdering(locale, column, direction, rows, full, last);
    var start := (page - 1) * perPage;
    assert start + perPage == page * perPage;
    assert Slice(full, start, perPage)[perPage - 1] == full[last];
    assert Slice(other, page * perPage, perPage)[0] == full[last];
  }

  function Flatten<T>(pages: seq<seq<T>>): seq<T> {
    if pages == [] then [] else Flatten(pages[..|pages| - 1]) + pages[|pages| - 1]
  }

  lemma {:induction false} OneMorePage(p: nat, perPage: nat)
    ensures (p + 1) * perPage == p * perPage + perPage >= p * perPage
  {
  }

  lemma {:induction false} TakeMore<T>(full: seq<T>, start: nat, n: nat)
    ensures full[..Min(start, |full|)] + Slice(full, start, n) == full[..Min(start + n, |full|)]
  {
  }

  /** Consecutive slices of one list, put together, are the list up to where the last one ends. */
  lemma {:induction false} SlicesMeet<T>(full: seq<T>, perPage: nat, pages: seq<seq<T>>)
    requires forall p | 0 <= p < |pages| :: pages[p] == Slice(full, p * perPage, perPage)
    ensures Flatten(pages) == full[..Min(|pages| * perPage, |full|)]
  {
    if pages != [] {
      var p := |pages| - 1;
      assert forall q | 0 <= q < p :: pages[..p][q] == pages[q];
      SlicesMeet(full, perPage, pages[..p]);
      OneMorePage(p, perPage);
      TakeMore(full, p * perPage, perPage);
    }
  }

  lemma {:induction false} AllPagesFull<T>(full: seq<T>, perPage: nat, pages: seq<seq<T>>)
    requires IsPageCount(|pages|, |full|, perPage) && |pages| > 0
    requires forall p | 0 <= p < |pages| :: pages[p] == Slice(full, p * perPage, perPage) && p * perPage < |full|
    ensures Flatten(pages) == full
    ensures forall p | 0 <= p < |pages| - 1 :: |pages[p]| == perPage
  {
    SlicesMeet(full, perPage, pages);
    forall p | 0 <= p < |pages| - 1 ensures |pages[p]| == perPage {
      OneMorePage(p, perPage);
      assert pages[p + 1] == Slice(full, (p + 1) * perPage, perPage);
    }
  }

  /** What the select statement of a request may return. */
  ghost predicate IsPage(t: Tables, locale: Locale, r: Request, rows: seq<Joined>) {
    exists full |
      IsOrdering(locale, SortColumn(r.sortBy), SortOrder(r.order), Selected(t, locale.fold, Conditions(r)), full) ::
      r.Offset() >= 0 && r.perPage >= 0 && rows == Slice(full, r.Offset(), r.perPage)
  }

  /** What a sort_by sorts by, by its own name. */
  function NamedKey(sortBy: string, row: Joined): Option<string> {
    if sortBy == "email" then Some(row.user.email)
    else if sortBy == "first_name" then Some(row.user.firstName)
    else if sortBy == "last_name" then Some(row.user.lastName)
    else if sortBy == "status" then row.status
    else if sortBy == "department" then row.department
    else Some(row.user.userName)
  }

  lemma {:induction false} SortKeyIsNamed(sortBy: string, row: Joined)
    ensures SortKey(row, SortColumn(sortBy)) == NamedKey(sortBy, row)
  {
  }

  /** The rows of a page are distinct and sorted by what the request names, upwards exactly if it asks for asc. */
  lemma {:induction false} PageIsSorted(t: Tables, locale: Locale, r: Request, rows: seq<Joined>)
    requires IsPage(t, locale, r, rows)
    ensures forall i, j | 0 <= i < j < |rows| ::
              var a, b := NamedKey(r.sortBy, rows[i]), NamedKey(r.sortBy, rows[j]);
              rows[i] != rows[j] && if r.order == "asc" then locale.le(a, b) else locale.le(b, a)
  {
    var column, direction := SortColumn(r.sortBy), SortOrder(r.order);
    var full :| IsOrdering(locale, column, direction, Selected(t, locale.fold, Conditions(r)), full)
                && r.Offset() >= 0 && r.perPage >= 0 && rows == Slice(full, r.Offset(), r.perPage);
    var start := Min(r.Offset(), |full|);
    forall i, j | 0 <= i < j < |rows|
      ensures var a, b := NamedKey(r.sortBy, rows[i]), NamedKey(r.sortBy, rows[j]);
              rows[i] != rows[j] && if r.order == "asc" then locale.le(a, b) else locale.le(b, a)
    {
      assert rows[i] == full[start + i] && rows[j] == full[start + j];
      assert InOrder(locale, column, direction, full[start + i], full[start + j]);
      SortKeyIsNamed(r.sortBy, rows[i]);
      SortKeyIsNamed(r.sortBy, rows[j]);
    }
  }

  lemma {:induction false} UniqueColumnsHaveDistinctKeys(t: Tables, locale: Locale, r: Request)
    requires Consistent(t) && (SortColumn(r.sortBy).UserName? || SortColumn(r.sortBy).Email?)
    ensures DistinctKeys(SortColumn(r.sortBy), Selected(t, locale.fold, Conditions(r)))
  {
    SelectedIsListed(t, locale.fold, r);
  }

  lemma {:induction false} PageOffset(r: Request, page: int, pages: nat, count: nat)
    requires r.Normal() && IsPageCount(pages, count, r.perPage) && 1 <= page <= pages && count <= I64_MAX
    ensures (page - 1) * r.perPage < count && r.(page := page).Offset() == (page - 1) * r.perPage >= 0
  {
    assert (page - 1) * r.perPage <= (pages - 1) * r.perPage;
  }

  lemma {:induction false} PageIsSlice(t: Tables, locale: Locale, r: Request, p: nat, pages: nat, rows: seq<Joined>,
      full: seq<Joined>)
    requires TotalOrder(locale.le) && r.Normal() && p < pages
    requires DistinctKeys(SortColumn(r.sortBy), Selected(t, locale.fold, Conditions(r)))
    requires |full| <= I64_MAX && IsPageCount(pages, |full|, r.perPage)
    requires IsOrdering(locale, SortColumn(r.sortBy), SortOrder(r.order), Selected(t, locale.fold, Conditions(r)), full)
    requires IsPage(t, locale, r.(page := p + 1), rows)
    ensures rows == Slice(full, p * r.perPage, r.perPage) && p * r.perPage < |full|
  {
    var column, direction := SortColumn(r.sortBy), SortOrder(r.order);
    var s := r.(page := p + 1);
    PageOffset(r, p + 1, pages, |full|);
    assert Conditions(s) == Conditions(r);
    var other :| IsOrdering(locale, column, direction, Selected(t, locale.fold, Conditions(s)), other)
                 && rows == Slice(other, s.Offset(), s.perPage);
    OrderingIsUnique(locale, column, direction, Selected(t, locale.fold, Conditions(r)), full, other);
  }

  lemma {:induction false} PagesCover(t: Tables, locale: Locale, r: Request, pages: seq<seq<Joined>>, full: seq<Joined>)
    requires TotalOrder(locale.le) && r.Normal() && |full| <= I64_MAX && IsPageCount(|pages|, |full|, r.perPage)
    requires DistinctKeys(SortColumn(r.sortBy), Selected(t, locale.fold, Conditions(r)))
    requires IsOrdering(locale, SortColumn(r.sortBy), SortOrder(r.order), Selected(t, locale.fold, Conditions(r)), full)
    requires forall p | 0 <= p < |pages| :: IsPage(t, locale, r.(page := p + 1), pages[p])
    requires pages != []
    ensures Flatten(pages) == full && forall p | 0 <= p < |pages| - 1 :: |pages[p]| == r.perPage
  {
    forall p | 0 <= p < |pages|
      ensures pages[p] == Slice(full, p * r.perPage, r.perPage) && p * r.perPage < |full|
    {
      PageIsSlice(t, locale, r, p, |pages|, pages[p], full);
    }
    AllPagesFull(full, r.perPage, pages);
  }

  lemma {:induction false} SomeOrdering(t: Tables, locale: Locale, r: Request,
      first: seq<Joined>) returns (full: seq<Joined>)
    requires Consistent(t) && IsPage(t, locale, r.(page := 1), first)
    ensures IsOrdering(locale, SortColumn(r.sortBy), SortOrder(r.order), Selected(t, locale.fold, Conditions(r)), full)
    ensures |full| == |ListedUsers(t, locale.fold, r)|
  {
    var s := r.(page := 1);
    full :| IsOrdering(locale, SortColumn(s.sortBy), SortOrder(s.order), Selected(t, locale.fold, Conditions(s)), full);
    assert Conditions(s) == Conditions(r);
    OrderingSize(locale, SortColumn(r.sortBy), SortOrder(r.order), Selected(t, locale.fold, Conditions(r)), full);
    SelectedIsListed(t, locale.fold, r);
  }

  /** For fixed tables and a unique sort column, the pages 1..N of a request, each sorted by the database
      on its own, together are exactly the sorted list of the listed users: none is missing, none is
      repeated, and every page but the last is full. */
  lemma {:induction false} PagesAreExact(t: Tables, locale: Locale, r: Request, pages: seq<seq<Joined>>)
    returns (full: seq<Joined>)
    requires Consistent(t) && TotalOrder(locale.le) && r.Normal()
    requires SortColumn(r.sortBy).UserName? || SortColumn(r.sortBy).Email?
    requires |ListedUsers(t, locale.fold, r)| <= I64_MAX
    requires IsPageCount(|pages|, |ListedUsers(t, locale.fold, r)|, r.perPage)
    requires forall p | 0 <= p < |pages| :: IsPage(t, locale, r.(page := p + 1), pages[p])
    ensures IsOrdering(locale, SortColumn(r.sortBy), SortOrder(r.order), Selected(t, locale.fold, Conditions(r)), full)
    ensures Flatten(pages) == full
    ensures forall p | 0 <= p < |pages| - 1 :: |pages[p]| == r.perPage
  {
    UniqueColumnsHaveDistinctKeys(t, locale, r);
    if pages == [] {
      SelectedIsListed(t, locale.fold, r);
      full := [];
    } else {
      full := SomeOrdering(t, locale, r, pages[0]);
      PagesCover(t, locale, r, pages, full);
    }
  }
}

/** Sorting has no tie-break, and every page of a listing is sorted anew. When does that show? */
module PageTies {
  import opened Sets
  import opened UserQueries
  import opened Listings

  /** The first row of page p, counted from 0, has the key of the row before it. */
  predicate TieBefore(column: Column, full: seq<Joined>, perPage: nat, p: nat) {
    && p >= 1 && 1 <= p * perPage < |full|
    && SortKey(full[p * perPage - 1], column) == SortKey(full[p * perPage], column)
  }

  function Page(full: seq<Joined>, perPage: nat, p: nat): seq<Joined> {
    Slice(full, p * perPage, perPage)
  }

  /** Whatever order the database picks, this page has the same rows. */
  ghost predicate SettledPage(locale: Locale, column: Column, direction: Direction, rows: set<Joined>,
                              full: seq<Joined>, perPage: nat, p: nat)
  {
    forall other | IsOrdering(locale, column, direction, rows, other) ::
      forall row :: row in Page(other, perPage, p) <==> row in Page(full, perPage, p)
  }

  function Elements(s: seq<Joined>): set<Joined> {
    set row | row in s
  }

  lemma {:induction false} ElementsButLast(s: seq<Joined>)
    requires s != []
    ensures Elements(s) == Elements(s[..|s| - 1]) + {s[|s| - 1]}
  {
    assert s == s[..|s| - 1] + [s[|s| - 1]];
  }

  lemma {:induction false} ElementsAtMost(s: seq<Joined>)
    ensures |Elements(s)| <= |s|
  {
    if s == [] {
      assert Elements(s) == {};
    } else {
      ElementsAtMost(s[..|s| - 1]);
      ElementsButLast(s);
    }
  }

  lemma {:induction false} ElementsOfDistinct(s: seq<Joined>)
    requires forall i, j | 0 <= i < j < |s| :: s[i] != s[j]
    ensures |Elements(s)| == |s|
  {
    if s == [] {
      assert Elements(s) == {};
    } else {
      ElementsOfDistinct(s[..|s| - 1]);
      ElementsButLast(s);
      assert s[|s| - 1] !in Elements(s[..|s| - 1]);
    }
  }

  lemma {:induction false} SliceAt(s: seq<Joined>, lo: nat, hi: nat, k: nat)
    requires lo <= hi <= |s| && k < |s|
    requires forall i, j | 0 <= i < j < |s| :: s[i] != s[j]
    ensures s[k] in s[lo..hi] <==> lo <= k < hi
  {
    if lo <= k < hi {
      assert s[lo..hi][k - lo] == s[k];
    }
    assert forall i | 0 <= i < hi - lo :: s[lo..hi][i] == s[lo + i];
  }

  /** With no tie at a cut, every row before it comes strictly before every row after it. */
  lemma {:induction false} StrictlyBefore(locale: Locale, column: Column, direction: Direction, rows: set<Joined>,
                                          full: seq<Joined>, cut: nat, i: nat, j: nat)
    requires TotalOrder(locale.le) && IsOrdering(locale, column, direction, rows, full)
    requires i < cut <= j < |full| && SortKey(full[cut - 1], column) != SortKey(full[cut], column)
    ensures !InOrder(locale, column, direction, full[j], full[i])
  {
    assert i == cut - 1 || InOrder(locale, column, direction, full[i], full[cut - 1]);
    assert InOrder(locale, column, direction, full[cut - 1], full[cut]);
    assert cut == j || InOrder(locale, column, direction, full[cut], full[j]);
  }

  /** If a row from after the cut stands at i, all rows from before the cut stand before i. */
  lemma {:induction false} LateRowsFollow(locale: Locale, column: Column, direction: Direction, rows: set<Joined>,
                                          full: seq<Joined>, other: seq<Joined>, cut: nat, i: nat)
    requires TotalOrder(locale.le) && IsOrdering(locale, column, direction, rows, full)
    requires IsOrdering(locale, column, direction, rows, other) && i < |other|
    requires 1 <= cut < |full| && SortKey(full[cut - 1], column) != SortKey(full[cut], column)
    requires other[i] !in Elements(full[..cut])
    ensures Elements(full[..cut]) <= Elements(other[..i])
  {
    assert other[i] in other && other[i] in full;
    var j :| 0 <= j < |full| && full[j] == other[i];
    SliceAt(full, 0, cut, j);
    forall row | row in Elements(full[..cut]) ensures row in Elements(other[..i]) {
      var k :| 0 <= k < cut && full[..cut][k] == row;
      StrictlyBefore(locale, column, direction, rows, full, cut, k, j);
      assert full[k] in other;
      var m :| 0 <= m < |other| && other[m] == full[k];
      assert m < i;
      assert other[..i][m] == row;
    }
  }

  /** So every order has the same rows before the cut. */
  lemma {:induction false} CutIsSettled(locale: Locale, column: Column, direction: Direction, rows: set<Joined>,
                                        full: seq<Joined>, other: seq<Joined>, cut: nat)
    requires TotalOrder(locale.le) && IsOrdering(locale, column, direction, rows, full)
    requires IsOrdering(locale, column, direction, rows, other) && |other| == |full|
    requires 1 <= cut < |full| && SortKey(full[cut - 1], column) != SortKey(full[cut], column)
    ensures Elements(other[..cut]) == Elements(full[..cut])
  {
    var early := Elements(full[..cut]);
    ElementsOfDistinct(full[..cut]);
    forall i | 0 <= i < cut ensures other[i] in early {
      if other[i] !in early {
        LateRowsFollow(locale, column, direction, rows, full, other, cut, i);
        ElementsAtMost(other[..i]);
        SubsetSize(early, Elements(other[..i]));
      }
    }
    assert Elements(other[..cut]) <= early;
    ElementsOfDistinct(other[..cut]);
    SameSizeSubset(Elements(other[..cut]), early);
  }

  lemma {:induction false} PrefixIsSettled(locale: Locale, column: Column, direction: Direction, rows: set<Joined>,
                                           full: seq<Joined>, other: seq<Joined>, cut: nat)
    requires TotalOrder(locale.le) && IsOrdering(locale, column, direction, rows, full)
    requires IsOrdering(locale, column, direction, rows, other) && |other| == |full|
    requires 1 <= cut < |full| ==> SortKey(full[cut - 1], column) != SortKey(full[cut], column)
    ensures Elements(other[..Min(cut, |full|)]) == Elements(full[..Min(cut, |full|)])
  {
    if 1 <= cut < |full| {
      CutIsSettled(locale, column, direction, rows, full, other, cut);
    } else if cut >= |full| {
      assert other[..|full|] == other && full[..|full|] == full;
      forall row ensures row in other <==> row in full {
      }
    }
  }

  /** A row is in a slice if it is before the end of it and not before its start. */
  lemma {:induction false} InSlice(s: seq<Joined>, start: nat, n: nat, row: Joined)
    requires forall i, j | 0 <= i < j < |s| :: s[i] != s[j]
    ensures row in Slice(s, start, n)
            <==> row in Elements(s[..Min(start + n, |s|)]) && row !in Elements(s[..Min(start, |s|)])
  {
    var lo, hi := Min(start, |s|), Min(start + n, |s|);
    if row in s {
      var k :| 0 <= k < |s| && s[k] == row;
      SliceAt(s, lo, hi, k);
      SliceAt(s, 0, hi, k);
      SliceAt(s, 0, lo, k);
    }
  }

  lemma {:induction false} PageIsSettled(locale: Locale, column: Column, direction: Direction, rows: set<Joined>,
                                         full: seq<Joined>, other: seq<Joined>, perPage: nat, p: nat)
    requires TotalOrder(locale.le) && IsOrdering(locale, column, direction, rows, full)
    requires IsOrdering(locale, column, direction, rows, other)
    requires !TieBefore(column, full, perPage, p) && !TieBefore(column, full, perPage, p + 1)
    ensures forall row :: row in Page(other, perPage, p) <==> row in Page(full, perPage, p)
  {
    OrderingSize(locale, column, direction, rows, full);
    OrderingSize(locale, column, direction, rows, other);
    var start := p * perPage;
    assert (p + 1) * perPage == start + perPage;
    PrefixIsSettled(locale, column, direction, rows, full, other, start);
    PrefixIsSettled(locale, column, direction, rows, full, other, start + perPage);
    forall row ensures row in Page(other, perPage, p) <==> row in Page(full, perPage, p) {
      InSlice(full, start, perPage, row);
      InSlice(other, start, perPage, row);
    }
  }

  lemma {:induction false} TieIsSeen(full: seq<Joined>, first: nat, perPage: nat)
    requires 1 <= first < |full| && perPage >= 1
    ensures full[first - 1] in Slice(Swapped(full, first - 1), first, perPage)
  {
    assert Slice(Swapped(full, first - 1), first, perPage)[0] == full[first - 1];
  }

  lemma {:induction false} TieUnsettles(locale: Locale, column: Column, direction: Direction, rows: set<Joined>,
                                        full: seq<Joined>, perPage: nat, p: nat)
    requires TotalOrder(locale.le) && IsOrdering(locale, column, direction, rows, full)
    requires TieBefore(column, full, perPage, p)
    ensures !SettledPage(locale, column, direction, rows, full, perPage, p)
  {
    var first := p * perPage;
    var other := Swapped(full, first - 1);
    SwappedIsOrdering(locale, column, direction, rows, full, first - 1);
    TieIsSeen(full, first, perPage);
    var row := full[first - 1];
    SliceAt(full, first, Min(first + perPage, |full|), first - 1);
    assert row in Page(other, perPage, p) && row !in Page(full, perPage, p);
  }

  /** For every sort column: the rows of each page are the same in whatever order the database sorts that
      page if and only if no two rows with equal keys meet at a page boundary. */
  lemma {:induction false} PagesAreSettledIff(locale: Locale, column: Column, direction: Direction, rows: set<Joined>,
                                              full: seq<Joined>, perPage: nat)
    requires TotalOrder(locale.le) && IsOrdering(locale, column, direction, rows, full)
    ensures (forall p: nat :: SettledPage(locale, column, direction, rows, full, perPage, p))
            <==> forall p: nat :: !TieBefore(column, full, perPage, p)
  {
    if p: nat :| TieBefore(column, full, perPage, p) {
      TieUnsettles(locale, column, direction, rows, full, perPage, p);
    } else {
      forall p: nat ensures SettledPage(locale, column, direction, rows, full, perPage, p) {
        forall other | IsOrdering(locale, column, direction, rows, other)
          ensures forall row :: row in Page(other, perPage, p) <==> row in Page(full, perPage, p)
        {
          assert !TieBefore(column, full, perPage, p) && !TieBefore(column, full, perPage, p + 1);
          PageIsSettled(locale, column, direction, rows, full, other, perPage, p);
        }
      }
    }
  }

  /** And then no row is missed or repeated: wherever a row stands in one order, it is on the page of that
      place in every order, and on no other page. */
  lemma {:induction false} EveryRowHasOnePage(locale: Locale, column: Column, direction: Direction, rows: set<Joined>,
                                              full: seq<Joined>, other: seq<Joined>, perPage: nat, k: nat, p: nat)
    requires TotalOrder(locale.le) && IsOrdering(locale, column, direction, rows, full)
    requires IsOrdering(locale, column, direction, rows, other) && k < |full|
    requires forall q: nat :: !TieBefore(column, full, perPage, q)
    ensures full[k] in Page(other, perPage, p) <==> p * perPage <= k < (p + 1) * perPage
  {
    PageIsSettled(locale, column, direction, rows, full, other, perPage, p);
    var start := p * perPage;
    assert (p + 1) * perPage == start + perPage;
    SliceAt(full, Min(start, |full|), Min(start + perPage, |full|), k);
  }
}

/** The proposal browser's list logic: the four conjunctive filters, the
    summary counts, fifty-per-page pagination with its navigation, and the
    window of at most five page numbers, with the first and last page and
    ellipses around it. Rendering and fetching are not modelled. */
module ProposalList {
  import opened Text
  import Seqs

  /** The fields of a listed proposal the browser looks at. */
  datatype Row = Row(index: int, title: string, status: string, hasUal: bool)

  /** The filter inputs; an empty input leaves its filter off, and the UAL
      filter is on only for "with" and "without". */
  datatype Filters = Filters(index: string, title: string, status: string, ual: string)

  const NoFilters := Filters("", "", "", "")

  // ---------------------------------------------------------------------
  // Filtering

  predicate IndexMatches(f: Filters, p: Row)
  {
    Contains(IntToString(p.index), f.index)
  }

  predicate TitleMatches(f: Filters, p: Row)
  {
    Contains(Lower(p.title), Lower(f.title))
  }

  predicate StatusMatches(f: Filters, p: Row)
  {
    p.status == f.status
  }

  predicate UalMatches(f: Filters, p: Row)
  {
    if f.ual == "with" then p.hasUal
    else if f.ual == "without" then !p.hasUal
    else true
  }

  /** The condition of every active filter holds of `p`. */
  predicate Passes(f: Filters, p: Row)
  {
    && (|f.index| > 0 ==> IndexMatches(f, p))
    && (|f.title| > 0 ==> TitleMatches(f, p))
    && (|f.status| > 0 ==> StatusMatches(f, p))
    && UalMatches(f, p)
  }

  /** One filter pass, made only when its input is set. */
  function FilterIf(rows: seq<Row>, active: bool, keep: Row -> bool): seq<Row>
  {
    if active then Seqs.Filter(rows, keep) else rows
  }

  /** The filters applied one after another, as the component does. */
  function ApplyFilters(rows: seq<Row>, f: Filters): seq<Row>
  {
    var a := FilterIf(rows, |f.index| > 0, (p: Row) => IndexMatches(f, p));
    var b := FilterIf(a, |f.title| > 0, (p: Row) => TitleMatches(f, p));
    var c := FilterIf(b, |f.status| > 0, (p: Row) => StatusMatches(f, p));
    if f.ual == "with" then Seqs.Filter(c, HasUal)
    else if f.ual == "without" then Seqs.Filter(c, NoUal)
    else c
  }

  /** Filtering by two predicates that agree everywhere gives the same result. */
  lemma {:induction false} FilterExtensional(s: seq<Row>, f: Row -> bool, g: Row -> bool)
    requires forall x :: f(x) == g(x)
    ensures Seqs.Filter(s, f) == Seqs.Filter(s, g)
  {
    if |s| > 0 {
      FilterExtensional(s[1..], f, g);
    }
  }

  /** A conditional filter pass over a filtered list is one filter by the
      combined condition. */
  lemma FilterIfFuses(all: seq<Row>, prev: Row -> bool, active: bool, keep: Row -> bool, next: Row -> bool)
    requires forall x :: next(x) == (prev(x) && (active ==> keep(x)))
    ensures FilterIf(Seqs.Filter(all, prev), active, keep) == Seqs.Filter(all, next)
  {
    if active {
      Seqs.FilterFusion(all, prev, keep, next);
    } else {
      FilterExtensional(all, prev, next);
    }
  }

  /** The successive passes amount to one filter by the conjunction of the
      active conditions. */
  lemma ApplyFiltersIsOneFilter(rows: seq<Row>, f: Filters)
    ensures ApplyFilters(rows, f) == Seqs.Filter(rows, (p: Row) => Passes(f, p))
  {
    var all := (p: Row) => true;
    var p1 := (p: Row) => |f.index| > 0 ==> IndexMatches(f, p);
    var p2 := (p: Row) => p1(p) && (|f.title| > 0 ==> TitleMatches(f, p));
    var p3 := (p: Row) => p2(p) && (|f.status| > 0 ==> StatusMatches(f, p));
    var p4 := (p: Row) => Passes(f, p);
    Seqs.FilterKeepsAll(rows, all);
    FilterIfFuses(rows, all, |f.index| > 0, (p: Row) => IndexMatches(f, p), p1);
    FilterIfFuses(rows, p1, |f.title| > 0, (p: Row) => TitleMatches(f, p), p2);
    FilterIfFuses(rows, p2, |f.status| > 0, (p: Row) => StatusMatches(f, p), p3);
    var c := Seqs.Filter(rows, p3);
    if f.ual == "with" {
      Seqs.FilterFusion(rows, p3, HasUal, p4);
    } else if f.ual == "without" {
      Seqs.FilterFusion(rows, p3, NoUal, p4);
    } else {
      FilterExtensional(rows, p3, p4);
    }
  }

  /** The filtered list keeps exactly the proposals that pass every active
      filter, in their original order. */
  lemma ApplyFiltersSpec(rows: seq<Row>, f: Filters)
    ensures Seqs.IsSubsequence(ApplyFilters(rows, f), rows)
    ensures forall i :: 0 <= i < |ApplyFilters(rows, f)| ==> Passes(f, ApplyFilters(rows, f)[i])
    ensures forall i :: 0 <= i < |rows| && Passes(f, rows[i]) ==> rows[i] in ApplyFilters(rows, f)
  {
    ApplyFiltersIsOneFilter(rows, f);
    Seqs.FilterIsSubsequence(rows, (p: Row) => Passes(f, p));
  }

  /** With no filter set the list is shown whole. */
  lemma NoFiltersShowAll(rows: seq<Row>)
    ensures ApplyFilters(rows, NoFilters) == rows
  {
    ApplyFiltersIsOneFilter(rows, NoFilters);
    Seqs.FilterKeepsAll(rows, (p: Row) => Passes(NoFilters, p));
  }

  // ---------------------------------------------------------------------
  // Summary counts

  datatype Stats = Stats(total: nat, withUal: nat, executed: nat, rejected: nat)

  predicate HasUal(p: Row) { p.hasUal }
  predicate NoUal(p: Row) { !p.hasUal }
  predicate Executed(p: Row) { p.status == "Executed" }
  predicate Rejected(p: Row) { p.status == "Rejected" }

  /** The counts are the lengths of filtered lists. */
  function StatsOf(rows: seq<Row>): Stats
  {
    Stats(|rows|, |Seqs.Filter(rows, HasUal)|, |Seqs.Filter(rows, Executed)|, |Seqs.Filter(rows, Rejected)|)
  }

  /** Each count is the number of proposals satisfying its predicate, none
      exceeds the total, and executed and rejected proposals are disjoint. */
  lemma StatsBounds(rows: seq<Row>)
    ensures var st := StatsOf(rows);
      && st.total == |rows|
      && st.withUal == Seqs.Count(rows, HasUal) <= st.total
      && st.executed == Seqs.Count(rows, Executed)
      && st.rejected == Seqs.Count(rows, Rejected)
      && st.executed + st.rejected <= st.total
  {
    Seqs.CountIsFilterLength(rows, HasUal);
    Seqs.CountIsFilterLength(rows, Executed);
    Seqs.CountIsFilterLength(rows, Rejected);
    Seqs.CountDisjoint(rows, Executed, Rejected);
  }

  // ---------------------------------------------------------------------
  // Pagination

  const ItemsPerPage: nat := 50

  /** `Math.ceil(n / 50)`: the fewest pages of fifty that hold `n` items. */
  function TotalPages(n: nat): (t: nat)
    ensures n <= t * ItemsPerPage
    ensures t == 0 || (t - 1) * ItemsPerPage < n
    ensures t == 0 <==> n == 0
  {
    (n + ItemsPerPage - 1) / ItemsPerPage
  }

  /** `Array.prototype.slice`'s reading of an index: negative counts from the
      end, and the result is clamped to the sequence. */
  function SliceIndex(x: int, len: nat): (r: nat)
    ensures r <= len
    ensures 0 <= x <= len ==> r == x
  {
    if x < 0 then (if len + x < 0 then 0 else len + x)
    else if x > len then len else x
  }

  function Slice<T>(s: seq<T>, start: int, end: int): seq<T>
  {
    var a := SliceIndex(start, |s|);
    var b := SliceIndex(end, |s|);
    if a >= b then [] else s[a..b]
  }

  function Min(a: int, b: int): int { if a <= b then a else b }
  function Max(a: int, b: int): int { if a >= b then a else b }

  /** The items shown on page `page` (counted from 1). */
  function PageItems<T>(rows: seq<T>, page: int): (r: seq<T>)
    ensures page >= 1 ==>
      r == rows[Min((page - 1) * ItemsPerPage, |rows|)..Min(page * ItemsPerPage, |rows|)]
    ensures page >= 1 ==> |r| <= ItemsPerPage
    ensures 1 <= page <= TotalPages(|rows|) ==> |r| > 0
  {
    var start := (page - 1) * ItemsPerPage;
    Slice(rows, start, start + ItemsPerPage)
  }

  /** Pages 1 to `k`, one after another. */
  function FirstPages<T>(rows: seq<T>, k: nat): seq<T>
  {
    if k == 0 then [] else FirstPages(rows, k - 1) + PageItems(rows, k)
  }

  /** The first `k` pages are the first `50 * k` items. */
  lemma {:induction false} FirstPagesArePrefix<T>(rows: seq<T>, k: nat)
    ensures FirstPages(rows, k) == rows[..Min(k * ItemsPerPage, |rows|)]
  {
    if k > 0 {
      FirstPagesArePrefix(rows, k - 1);
      var a := Min((k - 1) * ItemsPerPage, |rows|);
      var b := Min(k * ItemsPerPage, |rows|);
      assert rows[..a] + rows[a..b] == rows[..b];
    }
  }

  /** The pages, read in order, are the whole filtered list: every item is
      on exactly one page and none is lost. */
  lemma PagesPartitionList<T>(rows: seq<T>)
    ensures FirstPages(rows, TotalPages(|rows|)) == rows
  {
    FirstPagesArePrefix(rows, TotalPages(|rows|));
  }

  /** `goToPage`: the page clamped to the existing ones, and 1 when there
      are none. */
  function GoToPage(page: int, totalPages: nat): (r: int)
    ensures r >= 1
    ensures totalPages >= 1 ==> r <= totalPages
    ensures 1 <= page <= totalPages ==> r == page
    ensures totalPages >= 1 && page > totalPages ==> r == totalPages
    ensures page < 1 || totalPages == 0 ==> r == 1
  {
    Max(1, Min(page, totalPages))
  }

  /** Clamping twice is clamping once. */
  lemma GoToPageIdempotent(page: int, totalPages: nat)
    ensures GoToPage(GoToPage(page, totalPages), totalPages) == GoToPage(page, totalPages)
  {
  }

  function PreviousPage(current: int): (r: int)
    ensures r >= 1
    ensures current > 1 ==> r == current - 1
  {
    Max(1, current - 1)
  }

  function NextPage(current: int, totalPages: nat): (r: int)
    ensures r <= totalPages
    ensures current < totalPages ==> r == current + 1
  {
    Min(totalPages, current + 1)
  }

  /** Stepping back or forward from a page in range stays in range. */
  lemma StepsStayInRange(current: int, totalPages: nat)
    requires 1 <= current <= totalPages
    ensures 1 <= PreviousPage(current) <= totalPages
    ensures 1 <= NextPage(current, totalPages) <= totalPages
  {
  }

  // ---------------------------------------------------------------------
  // The page-number window

  const MaxVisiblePages: nat := 5

  /** The first and last page number of the window, shifted left near the
      end so it keeps five numbers when there are that many pages. */
  function WindowBounds(current: int, totalPages: nat): (int, int)
  {
    var start := Max(1, current - MaxVisiblePages / 2);
    var end := Min(totalPages, start + MaxVisiblePages - 1);
    var start' := if end - start < MaxVisiblePages - 1 then Max(1, end - MaxVisiblePages + 1) else start;
    (start', end)
  }

  /** The numbers from `a` to `b`, both included. */
  function Range(a: int, b: int): (r: seq<int>)
    ensures |r| == if b < a then 0 else b - a + 1
    ensures forall i :: 0 <= i < |r| ==> r[i] == a + i
  {
    seq(if b < a then 0 else b - a + 1, i => a + i)
  }

  /** The page numbers drawn as buttons of their own. */
  function Window(current: int, totalPages: nat): (r: seq<int>)
    ensures forall i :: 0 <= i < |r| ==> r[i] == r[0] + i
    ensures forall i :: 0 <= i < |r| ==> 1 <= r[i] <= totalPages
    ensures |r| <= MaxVisiblePages
    ensures totalPages >= 1 ==> |r| == Min(MaxVisiblePages, totalPages)
    ensures 1 <= current <= totalPages ==> current in r
  {
    var (a, b) := WindowBounds(current, totalPages);
    var r := Range(a, b);
    assert 1 <= current <= totalPages ==> r[current - a] == current;
    r
  }

  datatype PageItem = PageButton(n: int) | Ellipsis

  /** Page 1, and an ellipsis when page 2 is skipped, before a window that
      starts at `a`. */
  function LeadOf(a: int): seq<PageItem>
  {
    if a > 1 then [PageButton(1)] + (if a > 2 then [Ellipsis] else []) else []
  }

  /** An ellipsis when a page is skipped, and the last page, after a window
      that ends at `b`. */
  function TrailOf(b: int, totalPages: nat): seq<PageItem>
  {
    if b < totalPages then (if b < totalPages - 1 then [Ellipsis] else []) + [PageButton(totalPages)] else []
  }

  /** The pagination bar between the arrows. */
  function PageBar(current: int, totalPages: nat): seq<PageItem>
  {
    var (a, b) := WindowBounds(current, totalPages);
    LeadOf(a) + Buttons(Window(current, totalPages)) + TrailOf(b, totalPages)
  }

  function Buttons(ns: seq<int>): (r: seq<PageItem>)
    ensures |r| == |ns|
    ensures forall i :: 0 <= i < |r| ==> r[i] == PageButton(ns[i])
  {
    seq(|ns|, i requires 0 <= i < |ns| => PageButton(ns[i]))
  }

  /** Adjacent buttons are consecutive pages, and an ellipsis stands between
      two buttons exactly where pages are skipped. */
  ghost predicate WellSpaced(items: seq<PageItem>)
  {
    && (forall i :: 0 <= i < |items| - 1 && items[i].PageButton? && items[i + 1].PageButton? ==>
          items[i + 1].n == items[i].n + 1)
    && (forall i :: 0 <= i < |items| && items[i].Ellipsis? ==>
          0 < i < |items| - 1 && items[i - 1].PageButton? && items[i + 1].PageButton?
          && items[i + 1].n > items[i - 1].n + 1)
  }

  lemma WindowBoundsInRange(current: int, totalPages: nat)
    requires totalPages >= 1
    ensures 1 <= WindowBounds(current, totalPages).0 <= WindowBounds(current, totalPages).1 <= totalPages
    ensures Window(current, totalPages) == Range(WindowBounds(current, totalPages).0, WindowBounds(current, totalPages).1)
  {
  }

  lemma RangeWellSpaced(a: int, b: int)
    requires a <= b
    ensures WellSpaced(Buttons(Range(a, b)))
  {
  }

  /** Two well-spaced runs of buttons joined where the pages continue. */
  lemma JoinAdjacent(x: seq<PageItem>, y: seq<PageItem>)
    requires |x| > 0 && |y| > 0 && x[|x| - 1].PageButton? && y[0].PageButton?
    requires y[0].n == x[|x| - 1].n + 1
    requires WellSpaced(x) && WellSpaced(y)
    ensures WellSpaced(x + y)
  {
    var r := x + y;
    forall i | 0 <= i < |r| - 1 && r[i].PageButton? && r[i + 1].PageButton?
      ensures r[i + 1].n == r[i].n + 1
    {
      if i < |x| - 1 {
        assert r[i] == x[i] && r[i + 1] == x[i + 1];
      } else if i >= |x| {
        assert r[i] == y[i - |x|] && r[i + 1] == y[i + 1 - |x|];
      }
    }
    forall i | 0 <= i < |r| && r[i].Ellipsis?
      ensures 0 < i < |r| - 1 && r[i - 1].PageButton? && r[i + 1].PageButton? && r[i + 1].n > r[i - 1].n + 1
    {
      if i < |x| {
        assert r[i] == x[i] && r[i - 1] == x[i - 1] && r[i + 1] == x[i + 1];
      } else {
        assert r[i] == y[i - |x|] && r[i - 1] == y[i - 1 - |x|] && r[i + 1] == y[i + 1 - |x|];
      }
    }
  }

  /** Two well-spaced runs of buttons joined by an ellipsis over skipped pages. */
  lemma JoinWithGap(x: seq<PageItem>, y: seq<PageItem>)
    requires |x| > 0 && |y| > 0 && x[|x| - 1].PageButton? && y[0].PageButton?
    requires y[0].n > x[|x| - 1].n + 1
    requires WellSpaced(x) && WellSpaced(y)
    ensures WellSpaced(x + [Ellipsis] + y)
  {
    var r := x + [Ellipsis] + y;
    var n := |x|;
    forall i | 0 <= i < |r| - 1 && r[i].PageButton? && r[i + 1].PageButton?
      ensures r[i + 1].n == r[i].n + 1
    {
      if i < n - 1 {
        assert r[i] == x[i] && r[i + 1] == x[i + 1];
      } else if i > n {
        assert r[i] == y[i - n - 1] && r[i + 1] == y[i - n];
      }
    }
    forall i | 0 <= i < |r| && r[i].Ellipsis?
      ensures 0 < i < |r| - 1 && r[i - 1].PageButton? && r[i + 1].PageButton? && r[i + 1].n > r[i - 1].n + 1
    {
      if i < n {
        assert r[i] == x[i] && r[i - 1] == x[i - 1] && r[i + 1] == x[i + 1];
      } else if i > n {
        assert r[i] == y[i - n - 1] && r[i - 1] == y[i - n - 2] && r[i + 1] == y[i - n];
      } else {
        assert r[i - 1] == x[n - 1] && r[i + 1] == y[0];
      }
    }
  }

  lemma PrependLead(a: int, m: seq<PageItem>)
    requires a >= 1 && |m| > 0 && m[0] == PageButton(a) && WellSpaced(m)
    ensures WellSpaced(LeadOf(a) + m)
    ensures (LeadOf(a) + m)[0] == PageButton(1)
    ensures (LeadOf(a) + m)[|LeadOf(a) + m| - 1] == m[|m| - 1]
  {
    if a == 1 {
      assert LeadOf(a) + m == m;
    } else {
      PrependFirstPage(a, m);
    }
  }

  lemma PrependFirstPage(a: int, m: seq<PageItem>)
    requires a >= 2 && |m| > 0 && m[0] == PageButton(a) && WellSpaced(m)
    ensures WellSpaced(LeadOf(a) + m)
    ensures (LeadOf(a) + m)[|LeadOf(a) + m| - 1] == m[|m| - 1]
  {
    var one := [PageButton(1)];
    assert WellSpaced(one);
    if a == 2 {
      assert LeadOf(a) == one;
      JoinAdjacent(one, m);
    } else {
      assert LeadOf(a) == one + [Ellipsis];
      JoinWithGap(one, m);
    }
  }

  lemma AppendTrail(m: seq<PageItem>, b: int, totalPages: nat)
    requires |m| > 0 && m[|m| - 1] == PageButton(b) && b <= totalPages && WellSpaced(m)
    ensures WellSpaced(m + TrailOf(b, totalPages))
    ensures (m + TrailOf(b, totalPages))[0] == m[0]
    ensures (m + TrailOf(b, totalPages))[|m + TrailOf(b, totalPages)| - 1] == PageButton(totalPages)
  {
    if b == totalPages - 1 {
      JoinAdjacent(m, [PageButton(totalPages)]);
    } else if b < totalPages - 1 {
      JoinWithGap(m, [PageButton(totalPages)]);
      assert m + TrailOf(b, totalPages) == m + [Ellipsis] + [PageButton(totalPages)];
    } else {
      assert m + TrailOf(b, totalPages) == m;
    }
  }

  /** The bar runs from page 1 to the last page, every page either drawn or
      covered by an ellipsis, and draws the current page. */
  lemma PageBarSpec(current: int, totalPages: nat)
    requires totalPages >= 1
    ensures var bar := PageBar(current, totalPages);
      && |bar| > 0
      && bar[0] == PageButton(1) && bar[|bar| - 1] == PageButton(totalPages)
      && WellSpaced(bar)
      && (1 <= current <= totalPages ==> PageButton(current) in bar)
  {
    PageBarShape(current, totalPages);
    if 1 <= current <= totalPages {
      PageBarShowsCurrent(current, totalPages);
    }
  }

  lemma PageBarShape(current: int, totalPages: nat)
    requires totalPages >= 1
    ensures var bar := PageBar(current, totalPages);
      |bar| > 0 && bar[0] == PageButton(1) && bar[|bar| - 1] == PageButton(totalPages) && WellSpaced(bar)
  {
    var a := WindowBounds(current, totalPages).0;
    var b := WindowBounds(current, totalPages).1;
    WindowBoundsInRange(current, totalPages);
    var mid := Buttons(Window(current, totalPages));
    RangeWellSpaced(a, b);
    assert mid[0] == PageButton(a) && mid[|mid| - 1] == PageButton(b);
    PrependLead(a, mid);
    var front := LeadOf(a) + mid;
    AppendTrail(front, b, totalPages);
    assert PageBar(current, totalPages) == front + TrailOf(b, totalPages);
  }

  lemma PageBarShowsCurrent(current: int, totalPages: nat)
    requires 1 <= current <= totalPages
    ensures PageButton(current) in PageBar(current, totalPages)
  {
    var a := WindowBounds(current, totalPages).0;
    var b := WindowBounds(current, totalPages).1;
    var w := Window(current, totalPages);
    var mid := Buttons(w);
    var j :| 0 <= j < |w| && w[j] == current;
    assert mid[j] == PageButton(current);
    var bar := LeadOf(a) + mid + TrailOf(b, totalPages);
    assert PageBar(current, totalPages) == bar;
    assert bar[|LeadOf(a)| + j] == PageButton(current);
  }
}

/**
 * The pagination bar: `getPageNumbers` chooses which zero-based page indices get a
 * button, with `-1` standing for an ellipsis, and the bar renders a Previous button,
 * one control per entry of that list, and a Next button.
 */
module Pagination {
  import opened Wrappers

  const MAX_VISIBLE_PAGES := 5
  const ELLIPSIS := -1

  /** The indices `lo`, `lo + 1`, ..., `hi - 1`; empty when `hi <= lo`. */
  function Range(lo: int, hi: int): (r: seq<int>)
    ensures |r| == if lo <= hi then hi - lo else 0
    decreases hi - lo
  {
    if hi <= lo then [] else Range(lo, hi - 1) + [hi - 1]
  }

  /** `r` counts up by one from `lo`. */
  predicate CountsFrom(r: seq<int>, lo: int) {
    forall k :: 0 <= k < |r| ==> r[k] == lo + k
  }

  /** The `k`-th entry of a range is `lo + k`. */
  lemma {:induction false} RangeIndex(lo: int, hi: int)
    ensures CountsFrom(Range(lo, hi), lo)
    decreases hi - lo
  {
    if lo < hi {
      RangeIndex(lo, hi - 1);
    }
  }

  /** The list `getPageNumbers` returns, by case. */
  function Window(currentPage: int, totalPages: int): seq<int> {
    if totalPages <= MAX_VISIBLE_PAGES then Range(0, totalPages)
    else if currentPage <= 2 then Range(0, 4) + [ELLIPSIS, totalPages - 1]
    else if currentPage >= totalPages - 2 then [0, ELLIPSIS] + Range(totalPages - 4, totalPages)
    else [0, ELLIPSIS] + Range(currentPage - 1, currentPage + 2) + [ELLIPSIS, totalPages - 1]
  }

  /** The ranges `Window` is built from count up from their lower ends. */
  lemma WindowRanges(currentPage: int, totalPages: int)
    ensures CountsFrom(Range(0, totalPages), 0)
    ensures CountsFrom(Range(0, 4), 0)
    ensures CountsFrom(Range(totalPages - 4, totalPages), totalPages - 4)
    ensures CountsFrom(Range(currentPage - 1, currentPage + 2), currentPage - 1)
  {
    RangeIndex(0, totalPages);
    RangeIndex(0, 4);
    RangeIndex(totalPages - 4, totalPages);
    RangeIndex(currentPage - 1, currentPage + 2);
  }

  /** `getPageNumbers`: pushes the page indices and ellipsis markers one by one. */
  method PageNumbers(currentPage: int, totalPages: int) returns (pages: seq<int>)
    ensures pages == Window(currentPage, totalPages)
  {
    pages := [];
    if totalPages <= MAX_VISIBLE_PAGES {
      var i := 0;
      while i < totalPages
        invariant 0 <= i && (i <= totalPages || i == 0)
        invariant pages == Range(0, i)
      {
        pages := pages + [i];
        i := i + 1;
      }
    } else if currentPage <= 2 {
      var i := 0;
      while i < 4
        invariant 0 <= i <= 4
        invariant pages == Range(0, i)
      {
        pages := pages + [i];
        i := i + 1;
      }
      pages := pages + [ELLIPSIS];
      pages := pages + [totalPages - 1];
    } else if currentPage >= totalPages - 2 {
      pages := pages + [0];
      pages := pages + [ELLIPSIS];
      var i := totalPages - 4;
      while i < totalPages
        invariant totalPages - 4 <= i <= totalPages
        invariant pages == [0, ELLIPSIS] + Range(totalPages - 4, i)
      {
        pages := pages + [i];
        i := i + 1;
      }
    } else {
      pages := pages + [0];
      pages := pages + [ELLIPSIS];
      var i := currentPage - 1;
      while i <= currentPage + 1
        invariant currentPage - 1 <= i <= currentPage + 2
        invariant pages == [0, ELLIPSIS] + Range(currentPage - 1, i)
      {
        pages := pages + [i];
        i := i + 1;
      }
      pages := pages + [ELLIPSIS];
      pages := pages + [totalPages - 1];
    }
  }

  /** With at most five pages every page is listed, in order, with no ellipsis. */
  lemma SmallWindow(currentPage: int, totalPages: int)
    requires totalPages <= MAX_VISIBLE_PAGES
    ensures var w := Window(currentPage, totalPages);
      |w| == (if totalPages < 0 then 0 else totalPages) &&
      (forall k :: 0 <= k < |w| ==> w[k] == k) &&
      ELLIPSIS !in w
  {
    WindowEntries(currentPage, totalPages);
  }

  /**
   * With more than five pages the list is, entry by entry: the first four pages, an
   * ellipsis and the last page when the current page is among the first three; the
   * first page, an ellipsis and the last four pages when it is among the last two; and
   * otherwise the first page, an ellipsis, the current page with its two neighbours,
   * an ellipsis and the last page.
   */
  lemma LargeWindowEntries(currentPage: int, totalPages: int)
    requires totalPages > MAX_VISIBLE_PAGES
    ensures Window(currentPage, totalPages) ==
      if currentPage <= 2 then [0, 1, 2, 3, ELLIPSIS, totalPages - 1]
      else if currentPage >= totalPages - 2 then [0, ELLIPSIS, totalPages - 4, totalPages - 3, totalPages - 2, totalPages - 1]
      else [0, ELLIPSIS, currentPage - 1, currentPage, currentPage + 1, ELLIPSIS, totalPages - 1]
  {
    WindowRanges(currentPage, totalPages);
  }

  /**
   * With more than five pages the list starts at the first page, ends at the last, and
   * has seven entries in the middle case and six otherwise.
   */
  lemma LargeWindowShape(currentPage: int, totalPages: int)
    requires totalPages > MAX_VISIBLE_PAGES
    ensures var w := Window(currentPage, totalPages);
      |w| == (if 2 < currentPage < totalPages - 2 then 7 else 6) &&
      w[0] == 0 && w[|w| - 1] == totalPages - 1
  {
    LargeWindowEntries(currentPage, totalPages);
  }

  /** The entries of the list, by case. */
  lemma WindowEntries(currentPage: int, totalPages: int)
    ensures totalPages <= MAX_VISIBLE_PAGES ==> CountsFrom(Window(currentPage, totalPages), 0)
    ensures totalPages > MAX_VISIBLE_PAGES ==>
      Window(currentPage, totalPages) ==
        if currentPage <= 2 then [0, 1, 2, 3, ELLIPSIS, totalPages - 1]
        else if currentPage >= totalPages - 2 then [0, ELLIPSIS, totalPages - 4, totalPages - 3, totalPages - 2, totalPages - 1]
        else [0, ELLIPSIS, currentPage - 1, currentPage, currentPage + 1, ELLIPSIS, totalPages - 1]
  {
    if totalPages > MAX_VISIBLE_PAGES {
      LargeWindowEntries(currentPage, totalPages);
    } else {
      RangeIndex(0, totalPages);
    }
  }

  /** Every entry is an ellipsis or a page index in `[0, totalPages)`, and the list has at most seven entries. */
  lemma WindowBounds(currentPage: int, totalPages: int)
    ensures var w := Window(currentPage, totalPages);
      |w| <= 7 &&
      forall k :: 0 <= k < |w| ==> w[k] == ELLIPSIS || 0 <= w[k] < totalPages
  {
    WindowEntries(currentPage, totalPages);
  }

  /** Ignoring ellipses, the page indices are strictly increasing. */
  lemma WindowIncreasing(currentPage: int, totalPages: int)
    ensures var w := Window(currentPage, totalPages);
      forall i, j :: 0 <= i < j < |w| && w[i] != ELLIPSIS && w[j] != ELLIPSIS ==> w[i] < w[j]
  {
    WindowEntries(currentPage, totalPages);
  }

  /** A valid current page always has its own button. */
  lemma CurrentPageShown(currentPage: int, totalPages: int)
    requires 0 <= currentPage < totalPages
    ensures currentPage in Window(currentPage, totalPages)
  {
    WindowEntries(currentPage, totalPages);
    var w := Window(currentPage, totalPages);
    if totalPages <= MAX_VISIBLE_PAGES {
      assert w[currentPage] == currentPage;
    } else if currentPage <= 2 {
      assert w[currentPage] == currentPage;
    } else if currentPage >= totalPages - 2 {
      assert w[currentPage - totalPages + 6] == currentPage;
    } else {
      assert w[3] == currentPage;
    }
  }

  /**
   * An ellipsis is never first or last, never next to another ellipsis, and stands
   * between a smaller and a larger page index.
   */
  lemma EllipsisPlacement(currentPage: int, totalPages: int)
    ensures var w := Window(currentPage, totalPages);
      forall k :: 0 <= k < |w| && w[k] == ELLIPSIS ==>
        0 < k < |w| - 1 && w[k - 1] != ELLIPSIS && w[k + 1] != ELLIPSIS && w[k - 1] < w[k + 1]
  {
    WindowEntries(currentPage, totalPages);
  }

  /**
   * An ellipsis stands for no page at all exactly in the middle case with the current
   * page three before the last (for example 6 pages, current page 3: 0, …, 2, 3, 4, …, 5).
   */
  lemma EmptyEllipsis(currentPage: int, totalPages: int)
    ensures var w := Window(currentPage, totalPages);
      (exists k :: 0 < k < |w| - 1 && w[k] == ELLIPSIS && w[k - 1] + 1 == w[k + 1]) <==>
      (totalPages > MAX_VISIBLE_PAGES && currentPage == totalPages - 3)
  {
    WindowEntries(currentPage, totalPages);
    var w := Window(currentPage, totalPages);
    if totalPages > MAX_VISIBLE_PAGES && currentPage == totalPages - 3 {
      assert w[5] == ELLIPSIS && w[4] + 1 == w[6];
    }
  }

  /** One control of the rendered bar. */
  datatype Control =
    | Previous(disabled: bool, target: int)
    | PageButton(page: int, number: int, active: bool)
    | Ellipsis
    | Next(disabled: bool, target: int)

  /** The value a click on the control hands to `onPageChange`, if a click does anything. */
  function Emits(c: Control): Option<int> {
    match c
    case Previous(disabled, target) => if disabled then None else Some(target)
    case PageButton(page, _, _) => Some(page)
    case Ellipsis => None
    case Next(disabled, target) => if disabled then None else Some(target)
  }

  /** The control rendered for one entry of the page list. */
  function ControlFor(page: int, currentPage: int): (c: Control)
    ensures c.Ellipsis? <==> page == ELLIPSIS
    ensures !c.Ellipsis? ==> c.PageButton? && c.number == page + 1 && (c.active <==> page == currentPage)
    ensures Emits(c) == if page == ELLIPSIS then None else Some(page)
  {
    if page == ELLIPSIS then Ellipsis else PageButton(page, page + 1, currentPage == page)
  }

  function Controls(pages: seq<int>, currentPage: int): (cs: seq<Control>)
    ensures |cs| == |pages|
    ensures forall k :: 0 <= k < |pages| ==> cs[k] == ControlFor(pages[k], currentPage)
  {
    if pages == [] then [] else [ControlFor(pages[0], currentPage)] + Controls(pages[1..], currentPage)
  }

  /** The rendered bar: Previous, one control per entry of the page list, Next. */
  function View(currentPage: int, totalPages: int): (v: seq<Control>)
    ensures |v| == |Window(currentPage, totalPages)| + 2
    ensures v[0].Previous? && v[|v| - 1].Next?
    ensures forall k :: 1 <= k < |v| - 1 ==> v[k] == ControlFor(Window(currentPage, totalPages)[k - 1], currentPage)
  {
    [Previous(currentPage == 0, currentPage - 1)]
    + Controls(Window(currentPage, totalPages), currentPage)
    + [Next(currentPage == totalPages - 1, currentPage + 1)]
  }

  /**
   * Previous is disabled exactly on the first page and otherwise goes one page back;
   * Next is disabled exactly on the last page and otherwise goes one page on.
   */
  lemma NavigationButtons(currentPage: int, totalPages: int)
    ensures var v := View(currentPage, totalPages);
      v[0].Previous? && (v[0].disabled <==> currentPage == 0) &&
      (Emits(v[0]) == if currentPage == 0 then None else Some(currentPage - 1)) &&
      v[|v| - 1].Next? && (v[|v| - 1].disabled <==> currentPage == totalPages - 1) &&
      (Emits(v[|v| - 1]) == if currentPage == totalPages - 1 then None else Some(currentPage + 1))
  {
  }

  /**
   * A numbered button is labelled with its one-based page number and hands its own
   * zero-based index to `onPageChange`; an ellipsis does nothing.
   */
  lemma NumberedButtons(currentPage: int, totalPages: int)
    ensures var v := View(currentPage, totalPages);
      forall k :: 1 <= k < |v| - 1 ==>
        (v[k].PageButton? ==> v[k].number == v[k].page + 1 && Emits(v[k]) == Some(v[k].page)) &&
        (v[k].Ellipsis? ==> Emits(v[k]) == None)
  {
  }

  /** From a valid current page, every click lands on a valid page. */
  lemma NavigationStaysInRange(currentPage: int, totalPages: int)
    requires 0 <= currentPage < totalPages
    ensures var v := View(currentPage, totalPages);
      forall k :: 0 <= k < |v| && Emits(v[k]).Some? ==> 0 <= Emits(v[k]).value < totalPages
  {
    var v := View(currentPage, totalPages);
    var w := Window(currentPage, totalPages);
    WindowBounds(currentPage, totalPages);
    forall k | 1 <= k < |v| - 1
      ensures v[k] == ControlFor(w[k - 1], currentPage)
    {
    }
  }

  /** From a valid current page, exactly one button is highlighted, and it is the current page's. */
  lemma OneActiveButton(currentPage: int, totalPages: int)
    requires 0 <= currentPage < totalPages
    ensures var v := View(currentPage, totalPages);
      (exists k :: 0 <= k < |v| && v[k].PageButton? && v[k].active && v[k].page == currentPage) &&
      (forall i, j ::
        (0 <= i < |v| && 0 <= j < |v| && v[i].PageButton? && v[i].active && v[j].PageButton? && v[j].active) ==> i == j)
  {
    var v := View(currentPage, totalPages);
    var w := Window(currentPage, totalPages);
    CurrentPageShown(currentPage, totalPages);
    WindowIncreasing(currentPage, totalPages);
    var k :| 0 <= k < |w| && w[k] == currentPage;
    assert v[k + 1] == ControlFor(w[k], currentPage);
    forall i, j | 0 <= i < |v| && 0 <= j < |v| && v[i].PageButton? && v[i].active && v[j].PageButton? && v[j].active
      ensures i == j
    {
      assert v[i] == ControlFor(w[i - 1], currentPage);
      assert v[j] == ControlFor(w[j - 1], currentPage);
    }
  }

  /**
   * With no pages at all, Next stays enabled and asks for page 1, since it is disabled
   * only when the current page equals `totalPages - 1`.
   */
  lemma NextEnabledWithoutPages()
    ensures var v := View(0, 0);
      v == [Previous(true, -1), Next(false, 1)] && Emits(v[1]) == Some(1)
  {
  }
}

/**
 * The page-number bar of components/shared/pagination.tsx: up to seven page
 * buttons, with "..." standing for runs of pages that are not shown.
 */
module Pagination {

  datatype PageEntry = Number(n: int) | Ellipsis

  function Max(a: int, b: int): int { if a < b then b else a }
  function Min(a: int, b: int): int { if a < b then a else b }

  /** The buttons lo, lo+1, ..., hi (none when hi < lo). */
  function Range(lo: int, hi: int): (r: seq<PageEntry>)
    ensures |r| == if hi < lo then 0 else hi - lo + 1
    ensures forall k :: 0 <= k < |r| ==> r[k] == Number(lo + k)
    decreases hi - lo
  {
    if lo > hi then [] else [Number(lo)] + Range(lo + 1, hi)
  }

  /** `canGoPrevious`. */
  predicate CanGoPrevious(currentPage: int) {
    currentPage > 1
  }

  /** `canGoNext`. */
  predicate CanGoNext(currentPage: int, totalPages: int) {
    currentPage < totalPages
  }

  /** The bar is rendered only for more than one page. */
  predicate Visible(totalPages: int) {
    totalPages > 1
  }

  /** The layout `getPageNumbers` produces. */
  function PageNumbers(currentPage: int, totalPages: int): seq<PageEntry> {
    if totalPages <= 7 then Range(1, totalPages)
    else
      [Number(1)]
      + (if currentPage > 3 then [Ellipsis] else [])
      + Range(Max(2, currentPage - 1), Min(currentPage + 1, totalPages - 1))
      + (if currentPage < totalPages - 2 then [Ellipsis] else [])
      + [Number(totalPages)]
  }

  /** `getPageNumbers`: pushes the first page, an optional "...", the window around the current page, an optional "..." and the last page. */
  method GetPageNumbers(currentPage: int, totalPages: int) returns (pages: seq<PageEntry>)
    ensures pages == PageNumbers(currentPage, totalPages)
  {
    if totalPages <= 7 {
      return Range(1, totalPages);
    }
    pages := [Number(1)];
    if currentPage > 3 {
      pages := pages + [Ellipsis];
    }
    ghost var head := pages;
    var lo, hi := Max(2, currentPage - 1), Min(currentPage + 1, totalPages - 1);
    var i := lo;
    while i <= hi
      invariant lo <= i <= Max(lo, hi + 1)
      invariant pages == head + Range(lo, i - 1)
    {
      assert Range(lo, i) == Range(lo, i - 1) + [Number(i)];
      pages := pages + [Number(i)];
      i := i + 1;
    }
    assert pages == head + Range(lo, hi);
    if currentPage < totalPages - 2 {
      pages := pages + [Ellipsis];
    }
    if totalPages > 1 {
      pages := pages + [Number(totalPages)];
    }
  }

  /** Up to seven pages: every page, 1 to totalPages, with no ellipsis. */
  lemma FewPagesAllShown(currentPage: int, totalPages: int)
    requires 0 <= totalPages <= 7
    ensures |PageNumbers(currentPage, totalPages)| == totalPages
    ensures forall k :: 0 <= k < totalPages ==> PageNumbers(currentPage, totalPages)[k] == Number(k + 1)
  {
  }

  /**
   * The positions of the layout for more than seven pages: 1, an optional
   * "...", the window lo..hi, an optional "...", and the last page.
   */
  lemma {:induction false} Layout(currentPage: int, totalPages: int)
    requires totalPages > 7
    ensures var ps := PageNumbers(currentPage, totalPages);
            var lead := if currentPage > 3 then 1 else 0;
            var trail := if currentPage < totalPages - 2 then 1 else 0;
            var lo, hi := Max(2, currentPage - 1), Min(currentPage + 1, totalPages - 1);
            var m := if hi < lo then 0 else hi - lo + 1;
            && |ps| == 2 + lead + m + trail
            && ps[0] == Number(1)
            && (lead == 1 ==> ps[1] == Ellipsis)
            && (forall k :: 1 + lead <= k < 1 + lead + m ==> ps[k] == Number(lo + k - 1 - lead))
            && (trail == 1 ==> ps[1 + lead + m] == Ellipsis)
            && ps[|ps| - 1] == Number(totalPages)
  {
  }

  /**
   * More than seven pages: first entry 1, last entry totalPages, a leading
   * "..." exactly when currentPage > 3 and a trailing one exactly when
   * currentPage < totalPages - 2, and never more than seven entries.
   */
  lemma {:induction false} ManyPagesShape(currentPage: int, totalPages: int)
    requires 1 <= currentPage <= totalPages
    requires totalPages > 7
    ensures var ps := PageNumbers(currentPage, totalPages);
            && 3 <= |ps| <= 7
            && ps[0] == Number(1) && ps[|ps| - 1] == Number(totalPages)
            && (ps[1] == Ellipsis <==> currentPage > 3)
            && (ps[|ps| - 2] == Ellipsis <==> currentPage < totalPages - 2)
            && (forall k :: 0 <= k < |ps| && ps[k].Ellipsis? ==> k == 1 || k == |ps| - 2)
  {
    Layout(currentPage, totalPages);
  }

  /** Page numbers are strictly increasing and lie within 1..totalPages, for any current page. */
  lemma {:induction false} NumbersIncreasing(currentPage: int, totalPages: int)
    ensures var ps := PageNumbers(currentPage, totalPages);
            && (forall k :: 0 <= k < |ps| && ps[k].Number? ==> 1 <= ps[k].n <= totalPages)
            && (forall j, k :: 0 <= j < k < |ps| && ps[j].Number? && ps[k].Number? ==> ps[j].n < ps[k].n)
  {
    if totalPages > 7 {
      Layout(currentPage, totalPages);
    }
  }

  /** A valid current page is always one of the buttons. */
  lemma {:induction false} CurrentPageShown(currentPage: int, totalPages: int)
    requires 1 <= currentPage <= totalPages
    ensures Number(currentPage) in PageNumbers(currentPage, totalPages)
  {
    var ps := PageNumbers(currentPage, totalPages);
    if totalPages <= 7 {
      assert ps[currentPage - 1] == Number(currentPage);
    } else {
      Layout(currentPage, totalPages);
      var lead := if currentPage > 3 then 1 else 0;
      var lo := Max(2, currentPage - 1);
      if currentPage == 1 {
        assert ps[0] == Number(currentPage);
      } else if currentPage == totalPages {
        assert ps[|ps| - 1] == Number(currentPage);
      } else {
        assert ps[1 + lead + (currentPage - lo)] == Number(currentPage - lo + lo);
      }
    }
  }

  /**
   * Nothing is lost: every page 1..totalPages is either a button or lies
   * strictly between the two buttons around an ellipsis, and an ellipsis
   * always stands for at least one page.
   */
  lemma {:induction false} EveryPageAccountedFor(currentPage: int, totalPages: int, p: int)
    requires 1 <= p <= totalPages
    ensures var ps := PageNumbers(currentPage, totalPages);
            || Number(p) in ps
            || exists k :: 0 < k < |ps| - 1 && ps[k] == Ellipsis && ps[k - 1].Number? && ps[k + 1].Number? &&
                           ps[k - 1].n < p < ps[k + 1].n
  {
    var ps := PageNumbers(currentPage, totalPages);
    if totalPages <= 7 {
      assert ps[p - 1] == Number(p);
    } else {
      Layout(currentPage, totalPages);
      var lead := if currentPage > 3 then 1 else 0;
      var lo, hi := Max(2, currentPage - 1), Min(currentPage + 1, totalPages - 1);
      var m := if hi < lo then 0 else hi - lo + 1;
      if p == 1 {
        assert ps[0] == Number(p);
      } else if p == totalPages {
        assert ps[|ps| - 1] == Number(p);
      } else if lo <= p <= hi {
        assert ps[1 + lead + (p - lo)] == Number(p);
      } else if p < lo {
        assert ps[1] == Ellipsis && ps[2].Number?;
      } else {
        var k := 1 + lead + m;
        assert ps[k] == Ellipsis && ps[k - 1].Number? && ps[k + 1].Number?;
      }
    }
  }

  /** Each ellipsis hides at least one page, and two ellipses are never adjacent. */
  lemma {:induction false} EllipsisHidesPages(currentPage: int, totalPages: int)
    ensures var ps := PageNumbers(currentPage, totalPages);
            forall k :: 0 <= k < |ps| && ps[k] == Ellipsis ==>
              0 < k < |ps| - 1 && ps[k - 1].Number? && ps[k + 1].Number? && ps[k + 1].n >= ps[k - 1].n + 2
  {
    if totalPages > 7 {
      Layout(currentPage, totalPages);
    }
  }

  /** The bar is hidden exactly when there would be at most one button. */
  lemma VisibleIffSeveralButtons(currentPage: int, totalPages: int)
    ensures Visible(totalPages) <==> |PageNumbers(currentPage, totalPages)| >= 2
  {
    if totalPages > 7 {
      Layout(currentPage, totalPages);
    }
  }

  /** The previous and next buttons, when enabled, lead to valid pages. */
  lemma NavigationStaysInRange(currentPage: int, totalPages: int)
    requires 1 <= currentPage <= totalPages
    ensures CanGoPrevious(currentPage) <==> currentPage != 1
    ensures CanGoNext(currentPage, totalPages) <==> currentPage != totalPages
    ensures CanGoPrevious(currentPage) ==> 1 <= currentPage - 1 <= totalPages
    ensures CanGoNext(currentPage, totalPages) ==> 1 <= currentPage + 1 <= totalPages
  {
  }
}

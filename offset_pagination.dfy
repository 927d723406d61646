/**
  The table's own page-number paging over the rows loaded so far: one extra page is
  counted while the backend has more rows, and moving onto that last page asks it for
  them.
*/
module OffsetPagination {

  /** `useState(10)`: the page size never changes. */
  const PageSize: nat := 10

  /** `total`: the rows loaded, plus one more page while there are more to fetch. The
      count exceeds the loaded rows exactly while more exist, and the extra rows fill whole
      pages, so the last page is as full as the loaded rows leave it. */
  function Total(rows: nat, hasMore: bool): (t: nat)
    ensures rows <= t && (t == rows <==> !hasMore)
    ensures t % PageSize == rows % PageSize
  {
    if hasMore then rows + PageSize else rows
  }

  /** `Math.ceil(total / pageSize)`: the fewest pages of `PageSize` rows that hold `total`. */
  function MaxPage(total: nat): (m: nat)
    ensures (m - 1) * PageSize < total <= m * PageSize || (total == 0 && m == 0)
  {
    if total % PageSize == 0 then total / PageSize else total / PageSize + 1
  }

  /** While more rows exist there is exactly one page more than the loaded rows fill. */
  lemma {:induction false} ExtraPageWhileMore(rows: nat)
    ensures MaxPage(Total(rows, true)) == MaxPage(rows) + 1
    ensures MaxPage(Total(rows, true)) >= 1
  {
    assert (rows + PageSize) % PageSize == rows % PageSize;
    assert (rows + PageSize) / PageSize == rows / PageSize + 1;
  }

  class Pager {
    /** The current page, from 1. */
    var page: int
    /** How many times the load-more callback was awaited. */
    var loadMoreCalls: nat

    constructor()
      ensures page == 1 && loadMoreCalls == 0
    {
      page := 1;
      loadMoreCalls := 0;
    }

    /**
      `handlePageChange(nextPage)`: ignored while loading or for a page outside
      `[1, maxPage]`; otherwise moving forward onto the last page first awaits the
      load-more callback, and then the page becomes `nextPage`. `loaded` says whether that
      await completed: a missing callback or a rejected promise ends the handler before
      the page is set.
    */
    method HandlePageChange(nextPage: int, rows: nat, hasMore: bool, loading: bool, loaded: bool)
      modifies this
      ensures var maxPage := MaxPage(Total(rows, hasMore));
        var accepted := !loading && 1 <= nextPage <= maxPage;
        var loadsMore := hasMore && nextPage > old(page) && nextPage == maxPage;
        && (accepted && (!loadsMore || loaded) ==> page == nextPage)
        && (!accepted || (loadsMore && !loaded) ==> page == old(page))
        && (loadMoreCalls == old(loadMoreCalls) + 1 <==> accepted && loadsMore)
        && loadMoreCalls <= old(loadMoreCalls) + 1
    {
      var maxPage := MaxPage(Total(rows, hasMore));
      if !loading && nextPage >= 1 && nextPage <= maxPage {
        if hasMore && nextPage > page && nextPage == maxPage {
          loadMoreCalls := loadMoreCalls + 1;
          if !loaded {
            return;
          }
        }
        page := nextPage;
      }
    }

    /** The effect run when the row count or `hasMore` changes: with exactly two pages and
        more to fetch, paging starts over at page 1. */
    method OnTotalChange(rows: nat, hasMore: bool)
      modifies this
      ensures MaxPage(Total(rows, hasMore)) == 2 && hasMore ==> page == 1
      ensures !(MaxPage(Total(rows, hasMore)) == 2 && hasMore) ==> page == old(page)
      ensures loadMoreCalls == old(loadMoreCalls)
    {
      if MaxPage(Total(rows, hasMore)) == 2 && hasMore {
        page := 1;
      }
    }
  }

  /** The reset happens exactly when more rows exist and the loaded ones fit on one page
      (at least one row, at most ten). */
  lemma ResetCondition(rows: nat)
    ensures MaxPage(Total(rows, true)) == 2 <==> 1 <= rows <= PageSize
  {
    ExtraPageWhileMore(rows);
  }
}

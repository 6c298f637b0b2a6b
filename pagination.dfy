/** The "load more" listing feed shared by src/pages/HomePage.jsx (pages of 8) and
    src/pages/CategoryDetailPage.jsx (pages of 20): the list shown, the last page loaded, whether more
    remain, and the two loading flags. The query result is an input. */
module Pagination {

  /** `PAGINATION.HOMEPAGE_LIMIT` and `PAGINATION.DEFAULT_PAGE_SIZE` of src/utils/constants.js. */
  const HomePageLimit: nat := 8
  const DefaultPageSize: nat := 20

  /** `isLoadMore ? page + 1 : 0`. */
  function CurrentPage(isLoadMore: bool, page: nat): nat
  {
    if isLoadMore then page + 1 else 0
  }

  /** The inclusive row range `[from, to]` asked for page `currentPage`. */
  function RequestRange(pageSize: nat, currentPage: nat): (r: (int, int))
    requires pageSize > 0
    ensures r.1 - r.0 + 1 == pageSize
  {
    var from := currentPage * pageSize;
    (from, from + pageSize - 1)
  }

  /** Consecutive pages are adjacent: each range starts right after the previous one ends, so pages never
      overlap and leave no gap. */
  lemma RangesAdjacent(pageSize: nat, p: nat, q: nat)
    requires pageSize > 0
    ensures RequestRange(pageSize, p).1 + 1 == RequestRange(pageSize, p + 1).0
    ensures p < q ==> RequestRange(pageSize, p).1 < RequestRange(pageSize, q).0
  {
    if p < q {
      MultiplyMonotone(pageSize, p + 1, q);
    }
  }

  lemma MultiplyMonotone(k: nat, a: nat, b: nat)
    requires a <= b
    ensures a * k <= b * k
  {
  }

  /** Every row index belongs to exactly one page's range: the page `index / pageSize`. */
  lemma RangeOwner(pageSize: nat, index: nat, page: nat)
    requires pageSize > 0
    ensures RequestRange(pageSize, page).0 <= index <= RequestRange(pageSize, page).1 <==> page == index / pageSize
  {
    var owner := index / pageSize;
    assert owner * pageSize <= index < owner * pageSize + pageSize;
    if page < owner {
      MultiplyMonotone(pageSize, page + 1, owner);
    } else if owner < page {
      MultiplyMonotone(pageSize, owner + 1, page);
    }
  }

  /** When every page loaded so far was full, "load more" asks exactly for the first row not yet shown. */
  lemma LoadMoreContinues(pageSize: nat, page: nat, loaded: nat)
    requires pageSize > 0
    requires loaded == (page + 1) * pageSize
    ensures RequestRange(pageSize, CurrentPage(true, page)).0 == loaded
  {
  }

  /** A query's outcome: an error, or the rows with the exact total count. */
  datatype Response<T> = Failed | Fetched(data: seq<T>, count: int)

  /** The feed's state hooks. */
  class Feed<T> {
    const pageSize: nat
    var items: seq<T>
    var page: nat
    var hasMore: bool
    var loading: bool
    var loadingMore: bool

    /** The page on mount: empty, still loading, and assuming more to come. */
    constructor(pageSize: nat)
      requires pageSize > 0
      ensures this.pageSize == pageSize
      ensures items == [] && page == 0 && hasMore && loading && !loadingMore
    {
      this.pageSize := pageSize;
      items := [];
      page := 0;
      hasMore := true;
      loading := true;
      loadingMore := false;
    }

    /** `fetchAnnonces(isLoadMore)`: raises its own loading flag, asks for the range of the current page,
        and clears the flag again. An error changes nothing else. A result is appended on "load more"
        (and its page recorded) or replaces the list on a fresh fetch (back to page 0); more remain
        exactly when fewer rows are shown than the query counted. */
    method Fetch(isLoadMore: bool, response: Response<T>) returns (from: int, to: int)
      requires pageSize > 0
      modifies this
      ensures (from, to) == RequestRange(pageSize, CurrentPage(isLoadMore, old(page)))
      ensures response.Failed? ==> items == old(items) && page == old(page) && hasMore == old(hasMore)
      ensures response.Fetched? ==>
                items == (if isLoadMore then old(items) + response.data else response.data) &&
                page == CurrentPage(isLoadMore, old(page)) &&
                (hasMore <==> |items| < response.count)
      ensures isLoadMore ==> !loadingMore && loading == old(loading)
      ensures !isLoadMore ==> !loading && loadingMore == old(loadingMore)
    {
      if isLoadMore {
        loadingMore := true;
      } else {
        loading := true;
      }
      var currentPage := if isLoadMore then page + 1 else 0;
      from := currentPage * pageSize;
      to := from + pageSize - 1;
      if response.Fetched? {
        var shown := |items|;
        if isLoadMore {
          items := items + response.data;
          page := currentPage;
        } else {
          items := response.data;
          page := 0;
        }
        var totalLoaded := if isLoadMore then shown + |response.data| else |response.data|;
        hasMore := totalLoaded < response.count;
      }
      if isLoadMore {
        loadingMore := false;
      } else {
        loading := false;
      }
    }

    /** The paging part of the category page's filter reset: page 0, more assumed to come. */
    method ResetPaging()
      modifies this
      ensures page == 0 && hasMore
      ensures items == old(items) && loading == old(loading) && loadingMore == old(loadingMore)
    {
      page := 0;
      hasMore := true;
    }
  }
}

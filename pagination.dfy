/** The pagination of the article history table: page arithmetic, the page-size choices
    and the windowed list of page buttons. */
module Pagination {
  import Text
  import ArticleSort

  /** `Math.ceil(total / perPage)`. */
  function TotalPages(total: nat, perPage: int): (pages: nat)
    requires perPage > 0
    ensures total == 0 ==> pages == 0
    ensures total > 0 ==> (pages - 1) * perPage < total <= pages * perPage
  {
    (total + perPage - 1) / perPage
  }

  function StartIndex(page: int, perPage: int): int { (page - 1) * perPage }

  function EndIndex(page: int, perPage: int, total: nat): int {
    if StartIndex(page, perPage) + perPage < total then StartIndex(page, perPage) + perPage else total
  }

  /** `sortedArticles.slice(startIndex, endIndex)`. */
  function PageItems<T>(items: seq<T>, page: int, perPage: int): seq<T> {
    Text.Slice(items, StartIndex(page, perPage), EndIndex(page, perPage, |items|))
  }

  /** A page shows at most `perPage` items, those at positions `startIndex` to
      `endIndex` of the list, and each item of the list is shown on exactly the page
      `index / perPage + 1`, which is one of the `totalPages` pages. */
  lemma PageSlice<T>(items: seq<T>, page: int, perPage: int)
    requires perPage > 0 && page >= 1
    ensures |PageItems(items, page, perPage)| <= perPage
    ensures StartIndex(page, perPage) < |items| ==>
              PageItems(items, page, perPage) == items[StartIndex(page, perPage)..EndIndex(page, perPage, |items|)]
    ensures StartIndex(page, perPage) >= |items| ==> PageItems(items, page, perPage) == []
    ensures forall i :: 0 <= i < |items| ==>
              (StartIndex(page, perPage) <= i < EndIndex(page, perPage, |items|) <==> page == i / perPage + 1)
    ensures forall i :: 0 <= i < |items| ==> 1 <= i / perPage + 1 <= TotalPages(|items|, perPage)
  {
    var start := StartIndex(page, perPage);
    assert start >= 0 by { Nonneg(page - 1, perPage); }
    forall i | 0 <= i < |items|
      ensures start <= i < EndIndex(page, perPage, |items|) <==> page == i / perPage + 1
      ensures 1 <= i / perPage + 1 <= TotalPages(|items|, perPage)
    {
      PageOfIndex(i, page, perPage);
      QuotientBound(i, |items|, perPage);
    }
  }

  lemma Nonneg(a: int, b: int)
    requires a >= 0 && b > 0
    ensures a * b >= 0
  {
  }

  lemma PageOfIndex(i: nat, page: int, perPage: int)
    requires perPage > 0 && page >= 1
    ensures (page - 1) * perPage <= i < (page - 1) * perPage + perPage <==> page == i / perPage + 1
  {
    var q := i / perPage;
    assert q * perPage <= i < q * perPage + perPage;
    if page - 1 < q {
      MulMono(page - 1 + 1, q, perPage);
    } else if page - 1 > q {
      MulMono(q + 1, page - 1, perPage);
    }
  }

  lemma MulMono(a: int, b: int, c: int)
    requires a <= b && c > 0
    ensures a * c <= b * c
  {
  }

  lemma QuotientBound(i: nat, total: nat, perPage: int)
    requires perPage > 0 && i < total
    ensures i / perPage + 1 <= TotalPages(total, perPage)
  {
    var q := i / perPage;
    var t := TotalPages(total, perPage);
    if q + 1 > t {
      MulMono(t, q, perPage);
    }
  }

  /** `handlePageChange(page)`: the page kept within 1 and `totalPages`. */
  function ClampPage(page: int, totalPages: int): (r: int)
    ensures r >= 1
    ensures totalPages >= 1 ==> r <= totalPages
    ensures 1 <= page <= totalPages ==> r == page
    ensures page < 1 ==> r == 1
    ensures page > totalPages && totalPages >= 1 ==> r == totalPages
  {
    var lower := if page < totalPages then page else totalPages;
    if lower > 1 then lower else 1
  }

  /** `getPageSizeOptions()`: 5, 10 and 20, then 50 and 100 when there are more items. */
  method GetPageSizeOptions(total: int) returns (options: seq<int>)
    ensures |options| >= 3 && options[..3] == [5, 10, 20]
    ensures 50 in options <==> total > 50
    ensures 100 in options <==> total > 100
    ensures forall i, j :: 0 <= i < j < |options| ==> options[i] < options[j]
    ensures forall k :: k in options ==> k in {5, 10, 20, 50, 100}
  {
    options := [5, 10, 20];
    if total > 50 {
      options := options + [50];
    }
    if total > 100 {
      options := options + [100];
    }
  }

  // ---------------------------------------------------------------- page buttons

  datatype PageItem = Page(n: int) | Ellipsis

  /** The page buttons `a` to `b`, none when `a > b`. */
  function Range(a: int, b: int): (r: seq<PageItem>)
    decreases b - a + 1
    ensures |r| == if a <= b then b - a + 1 else 0
    ensures forall i :: 0 <= i < |r| ==> r[i] == Page(a + i)
  {
    if a > b then [] else Range(a, b - 1) + [Page(b)]
  }

  const MaxVisiblePages := 5

  /** The first page of the window: two before the current one, at least 1. */
  function WindowStart(currentPage: int): int {
    if currentPage - 2 > 1 then currentPage - 2 else 1
  }

  /** The last page of the window: four after its first, at most the last page. */
  function WindowEnd(totalPages: int, currentPage: int): int {
    var start := WindowStart(currentPage);
    if start + MaxVisiblePages - 1 < totalPages then start + MaxVisiblePages - 1 else totalPages
  }

  /** Page 1 and an ellipsis before a window that does not start at 1. */
  function Head(start: int): seq<PageItem> {
    if start > 1 then [Page(1)] + (if start > 2 then [Ellipsis] else []) else []
  }

  /** An ellipsis and the last page after a window that does not end there. */
  function Tail(end: int, totalPages: int): seq<PageItem> {
    if end < totalPages then (if end < totalPages - 1 then [Ellipsis] else []) + [Page(totalPages)] else []
  }

  /** The list `getPageNumbers` builds: all pages when there are at most five; else the
      window, preceded by page 1 and followed by the last page where they are not in it. */
  function PageNumbers(totalPages: int, currentPage: int): seq<PageItem> {
    if totalPages <= MaxVisiblePages then Range(1, totalPages)
    else
      var start := WindowStart(currentPage);
      var end := WindowEnd(totalPages, currentPage);
      Head(start) + Range(start, end) + Tail(end, totalPages)
  }

  /** Pushes the page buttons `a` to `b` onto `pages`. */
  method PushRange(pages: seq<PageItem>, a: int, b: int) returns (r: seq<PageItem>)
    ensures r == pages + Range(a, b)
  {
    r := pages;
    var i := a;
    while i <= b
      invariant a <= i <= (if a <= b then b + 1 else a)
      invariant r == pages + Range(a, i - 1)
    {
      r := r + [Page(i)];
      i := i + 1;
    }
  }

  /** `getPageNumbers()`, building the list with pushes as the page does. */
  method GetPageNumbers(totalPages: int, currentPage: int) returns (pages: seq<PageItem>)
    ensures pages == PageNumbers(totalPages, currentPage)
  {
    pages := [];
    if totalPages <= MaxVisiblePages {
      pages := PushRange(pages, 1, totalPages);
    } else {
      var startPage := if currentPage - 2 > 1 then currentPage - 2 else 1;
      var endPage := if startPage + MaxVisiblePages - 1 < totalPages then startPage + MaxVisiblePages - 1 else totalPages;
      if startPage > 1 {
        pages := pages + [Page(1)];
        if startPage > 2 {
          pages := pages + [Ellipsis];
        }
      }
      assert pages == Head(startPage);
      pages := PushRange(pages, startPage, endPage);
      ghost var body := pages;
      if endPage < totalPages {
        if endPage < totalPages - 1 {
          pages := pages + [Ellipsis];
        }
        pages := pages + [Page(totalPages)];
      }
      assert pages == body + Tail(endPage, totalPages);
    }
  }

  /** With at most five pages, every page has a button, in order. */
  lemma FewPages(totalPages: int, currentPage: int)
    requires totalPages <= MaxVisiblePages
    ensures var items := PageNumbers(totalPages, currentPage);
            |items| == (if totalPages > 0 then totalPages else 0) &&
            forall i :: 0 <= i < |items| ==> items[i] == Page(i + 1)
  {
  }

  /** The window holds the current page and at most five pages. */
  lemma WindowBounds(totalPages: int, currentPage: int)
    requires totalPages > MaxVisiblePages && 1 <= currentPage <= totalPages
    ensures 1 <= WindowStart(currentPage) <= currentPage <= WindowEnd(totalPages, currentPage) <= totalPages
    ensures WindowEnd(totalPages, currentPage) - WindowStart(currentPage) <= 4
  {
  }

  /** With more than five pages and the current page in range, the list starts with page
      1, ends with the last page, shows the current page and has at most nine entries. */
  lemma ManyPagesEnds(totalPages: int, currentPage: int)
    requires totalPages > MaxVisiblePages && 1 <= currentPage <= totalPages
    ensures var items := PageNumbers(totalPages, currentPage);
            |items| <= 9 && items[0] == Page(1) && items[|items| - 1] == Page(totalPages) &&
            Page(currentPage) in items &&
            forall i :: 0 <= i < |items| && items[i].Page? ==> 1 <= items[i].n <= totalPages
  {
    var start, end := WindowStart(currentPage), WindowEnd(totalPages, currentPage);
    WindowBounds(totalPages, currentPage);
    var head, mid, tail := Head(start), Range(start, end), Tail(end, totalPages);
    var items := head + mid + tail;
    assert items == PageNumbers(totalPages, currentPage);
    assert items[|head| + currentPage - start] == mid[currentPage - start];
    if head == [] {
      assert items[0] == mid[0];
    }
    if tail == [] {
      assert items[|items| - 1] == mid[|mid| - 1];
    }
    forall i | 0 <= i < |items| && items[i].Page? ensures 1 <= items[i].n <= totalPages {
      if |head| <= i < |head| + |mid| {
        assert items[i] == mid[i - |head|];
      }
    }
  }

  /** With more than five pages and the current page in range, neighbouring buttons are
      consecutive pages, and an ellipsis stands only between two pages at least two
      apart: every page is either shown or hidden behind an ellipsis. */
  lemma ManyPagesGaps(totalPages: int, currentPage: int)
    requires totalPages > MaxVisiblePages && 1 <= currentPage <= totalPages
    ensures var items := PageNumbers(totalPages, currentPage);
            (forall i :: 0 <= i < |items| - 1 && items[i].Page? && items[i + 1].Page? ==>
               items[i + 1].n == items[i].n + 1) &&
            (forall i :: 0 <= i < |items| && items[i].Ellipsis? ==>
               0 < i < |items| - 1 && items[i - 1].Page? && items[i + 1].Page? &&
               items[i + 1].n >= items[i - 1].n + 2)
  {
    var start, end := WindowStart(currentPage), WindowEnd(totalPages, currentPage);
    WindowBounds(totalPages, currentPage);
    var head, mid, tail := Head(start), Range(start, end), Tail(end, totalPages);
    var items := head + mid + tail;
    assert items == PageNumbers(totalPages, currentPage);
    forall i | 0 <= i < |items| && items[i].Ellipsis?
      ensures 0 < i < |items| - 1 && items[i - 1].Page? && items[i + 1].Page? &&
              items[i + 1].n >= items[i - 1].n + 2
    {
      if i < |head| {
        assert i == 1 && items[0] == Page(1) && items[2] == mid[0];
      } else {
        assert i == |head| + |mid| && items[i - 1] == mid[|mid| - 1] && items[i + 1] == Page(totalPages);
      }
    }
    forall i | 0 <= i < |items| - 1 && items[i].Page? && items[i + 1].Page?
      ensures items[i + 1].n == items[i].n + 1
    {
      if i < |head| {
        assert head == [Page(1)] && start == 2 && items[i + 1] == mid[0];
      } else if i + 1 < |head| + |mid| {
        assert items[i] == mid[i - |head|] && items[i + 1] == mid[i + 1 - |head|];
      } else {
        assert i == |head| + |mid| - 1 && items[i] == mid[|mid| - 1];
        assert tail == [Page(totalPages)] && end == totalPages - 1;
      }
    }
  }

  /** The state of the table's sorting and paging controls over a fixed list of items. */
  class TableState {
    var sortBy: string
    var sortOrder: string
    var currentPage: int
    var perPage: int
    const articles: seq<ArticleSort.Article>

    predicate Valid()
      reads this
    {
      perPage > 0 && 1 <= currentPage &&
      (TotalPages(|articles|, perPage) >= 1 ==> currentPage <= TotalPages(|articles|, perPage))
    }

    constructor(articles: seq<ArticleSort.Article>)
      ensures Valid()
      ensures this.articles == articles && sortBy == "views" && sortOrder == "desc" && currentPage == 1 && perPage == 5
    {
      this.articles := articles;
      sortBy := "views";
      sortOrder := "desc";
      currentPage := 1;
      perPage := 5;
    }

    /** `currentArticles`: the shown page of the sorted articles. */
    function CurrentArticles(): seq<ArticleSort.Article>
      reads this
    {
      PageItems(ArticleSort.Sort(articles, sortBy, sortOrder), currentPage, perPage)
    }

    /** `handleSortChange`: the same key flips the order, another key is chosen with a
        descending order; either way the first page is shown. */
    method HandleSortChange(newSortBy: string)
      requires Valid()
      modifies this
      ensures Valid()
      ensures old(sortBy) == newSortBy ==>
                sortBy == newSortBy && sortOrder == (if old(sortOrder) == "asc" then "desc" else "asc")
      ensures old(sortBy) != newSortBy ==> sortBy == newSortBy && sortOrder == "desc"
      ensures currentPage == 1 && perPage == old(perPage)
    {
      if sortBy == newSortBy {
        sortOrder := if sortOrder == "asc" then "desc" else "asc";
      } else {
        sortBy := newSortBy;
        sortOrder := "desc";
      }
      currentPage := 1;
    }

    /** `handlePageSizeChange`: a new page size, from the first page. */
    method HandlePageSizeChange(newSize: int)
      requires Valid() && newSize > 0
      modifies this
      ensures Valid()
      ensures perPage == newSize && currentPage == 1
      ensures sortBy == old(sortBy) && sortOrder == old(sortOrder)
    {
      perPage := newSize;
      currentPage := 1;
    }

    /** `handlePageChange`: the requested page, kept within range. */
    method HandlePageChange(page: int)
      requires Valid()
      modifies this
      ensures Valid()
      ensures currentPage == ClampPage(page, TotalPages(|articles|, perPage))
      ensures 1 <= page <= TotalPages(|articles|, perPage) ==> currentPage == page
      ensures perPage == old(perPage) && sortBy == old(sortBy) && sortOrder == old(sortOrder)
    {
      currentPage := ClampPage(page, TotalPages(|articles|, perPage));
    }
  }
}

/**
 * Client-side pagination of the sorted posts: the slice shown for the current
 * page, the number of pages, and the window of at most three page-number
 * buttons rendered around the current page.
 */
module Pagination {

  const PostsPerPage := 10
  const MaxPageNumbers := 3
  const HalfMaxPageNumbers := MaxPageNumbers / 2

  function Min(a: int, b: int): int { if a <= b then a else b }
  function Max(a: int, b: int): int { if a >= b then a else b }

  /** A slice bound as `Array.prototype.slice` reads it: negative counts from the end, then clamped to `[0, len]`. */
  function RelativeIndex(i: int, len: nat): (r: nat)
    ensures r <= len
    ensures 0 <= i ==> r == Min(i, len)
  {
    if i < 0 then Max(len + i, 0) else Min(i, len)
  }

  /** `s.slice(start, end)`; for non-negative bounds, the ordinary clamped subsequence. */
  function JsSlice<T>(s: seq<T>, start: int, end: int): (r: seq<T>)
    ensures |r| <= |s|
    ensures 0 <= start <= end ==> r == s[Min(start, |s|)..Min(end, |s|)]
  {
    var from, to := RelativeIndex(start, |s|), RelativeIndex(end, |s|);
    if from < to then s[from..to] else []
  }

  /**
   * `currentPosts`: the slice from `indexOfFirstPost` to `indexOfLastPost`.
   * For a page number of at least 1 it is the page's run of at most ten
   * posts, or empty past the end.
   */
  function CurrentPosts<T>(sorted: seq<T>, currentPage: int): (r: seq<T>)
    ensures |r| <= PostsPerPage
    ensures 1 <= currentPage ==>
      r == sorted[Min((currentPage - 1) * PostsPerPage, |sorted|)..Min(currentPage * PostsPerPage, |sorted|)]
  {
    var indexOfLastPost := currentPage * PostsPerPage;
    var indexOfFirstPost := indexOfLastPost - PostsPerPage;
    JsSlice(sorted, indexOfFirstPost, indexOfLastPost)
  }

  /** `Math.ceil(n / postsPerPage)`: the least number of pages that hold `n` posts. */
  function TotalPages(n: nat): (r: nat)
    ensures r * PostsPerPage >= n
    ensures r == 0 || (r - 1) * PostsPerPage < n
  {
    if n % PostsPerPage == 0 then n / PostsPerPage else n / PostsPerPage + 1
  }

  /** A page number of at least 1 shows posts exactly when it is at most the page count. */
  lemma PageNonEmptyIff<T>(sorted: seq<T>, currentPage: int)
    ensures 1 <= currentPage ==> (CurrentPosts(sorted, currentPage) != [] <==> currentPage <= TotalPages(|sorted|))
  {
  }

  /** Pages 1 through `k`, concatenated. */
  function PagesUpTo<T>(sorted: seq<T>, k: nat): seq<T> {
    if k == 0 then [] else PagesUpTo(sorted, k - 1) + CurrentPosts(sorted, k)
  }

  lemma {:induction false} PagesUpToIsPrefix<T>(sorted: seq<T>, k: nat)
    ensures PagesUpTo(sorted, k) == sorted[..Min(k * PostsPerPage, |sorted|)]
  {
    if k > 0 {
      PagesUpToIsPrefix(sorted, k - 1);
      var a, b := Min((k - 1) * PostsPerPage, |sorted|), Min(k * PostsPerPage, |sorted|);
      assert sorted[..a] + sorted[a..b] == sorted[..b];
    }
  }

  /**
   * The pages partition the sorted posts: every page from 1 to `totalPages`
   * is non-empty, the last one holds the remainder, and pages 1 through
   * `totalPages` concatenated give back the whole sequence.
   */
  lemma PagesPartition<T>(sorted: seq<T>)
    ensures PagesUpTo(sorted, TotalPages(|sorted|)) == sorted
    ensures forall p :: 1 <= p <= TotalPages(|sorted|) ==> CurrentPosts(sorted, p) != []
    ensures |sorted| > 0 ==>
      |CurrentPosts(sorted, TotalPages(|sorted|))| == |sorted| - (TotalPages(|sorted|) - 1) * PostsPerPage
  {
    PagesUpToIsPrefix(sorted, TotalPages(|sorted|));
    assert sorted[..|sorted|] == sorted;
  }

  /** The first page of the window: `currentPage - 1`, clamped so that the whole window fits in `[1, totalPages]`. */
  function WindowStart(totalPages: nat, currentPage: int): int {
    var last := totalPages - Min(MaxPageNumbers, totalPages) + 1;
    if currentPage - HalfMaxPageNumbers < 1 then 1
    else if currentPage - HalfMaxPageNumbers > last then last
    else currentPage - HalfMaxPageNumbers
  }

  /**
   * The page numbers rendered as buttons: an ascending run of
   * `min(3, totalPages)` consecutive pages inside `[1, totalPages]` that holds
   * the current page whenever it is in range, centred on it when possible.
   */
  function PageWindow(totalPages: nat, currentPage: int): (w: seq<int>)
    ensures |w| == Min(MaxPageNumbers, totalPages)
    ensures forall i :: 0 <= i < |w| ==> 1 <= w[i] <= totalPages
    ensures forall i, j :: 0 <= i <= j < |w| ==> w[j] - w[i] == j - i
    ensures currentPage in w <==> 1 <= currentPage <= totalPages
    ensures MaxPageNumbers <= totalPages && 1 < currentPage < totalPages ==> w[1] == currentPage
  {
    var start := WindowStart(totalPages, currentPage);
    var w := seq(Min(MaxPageNumbers, totalPages), k => start + k);
    assert 1 <= currentPage <= totalPages ==> w[currentPage - start] == currentPage;
    w
  }

  /** A rendered page-number button; `active` is the highlighted current page. */
  datatype PageButton = PageButton(page: int, active: bool)

  /** The buttons of the window: exactly one is active when the current page is in range, none otherwise. */
  function PageButtons(totalPages: nat, currentPage: int): (b: seq<PageButton>)
    ensures |b| == |PageWindow(totalPages, currentPage)|
    ensures forall i :: 0 <= i < |b| ==> b[i].page == PageWindow(totalPages, currentPage)[i]
    ensures (exists i :: 0 <= i < |b| && b[i].active) <==> 1 <= currentPage <= totalPages
    ensures forall i, j :: 0 <= i < |b| && 0 <= j < |b| && b[i].active && b[j].active ==> i == j
  {
    var w := PageWindow(totalPages, currentPage);
    var b := seq(|w|, k requires 0 <= k < |w| => PageButton(w[k], w[k] == currentPage));
    assert forall i :: 0 <= i < |b| ==> (b[i].active <==> w[i] == currentPage);
    b
  }

  /** When the current page is in range, its button is among the rendered ones and is the active one. */
  lemma ActiveButtonForCurrentPage(totalPages: nat, currentPage: int)
    ensures 1 <= currentPage <= totalPages ==> PageButton(currentPage, true) in PageButtons(totalPages, currentPage)
  {
    if 1 <= currentPage <= totalPages {
      var w, b := PageWindow(totalPages, currentPage), PageButtons(totalPages, currentPage);
      var i :| 0 <= i < |w| && w[i] == currentPage;
      assert b[i] == PageButton(currentPage, true);
    }
  }

  /** A single page gives a single button, the active page 1. */
  lemma SinglePageButtons()
    ensures PageButtons(1, 1) == [PageButton(1, true)]
  {
    assert PageWindow(1, 1) == [1];
  }

  /**
   * `renderPageNumbers`: choose the first and last page by the four cases
   * (few pages, near the start, near the end, in the middle), then push one
   * button per page in between.
   */
  method RenderPageNumbers(totalPages: nat, currentPage: int) returns (pageNumbers: seq<PageButton>)
    ensures pageNumbers == PageButtons(totalPages, currentPage)
  {
    pageNumbers := [];
    var startPage: int;
    var endPage: int;
    if totalPages <= MaxPageNumbers {
      startPage := 1;
      endPage := totalPages;
    } else if currentPage <= HalfMaxPageNumbers {
      startPage := 1;
      endPage := MaxPageNumbers;
    } else if currentPage + HalfMaxPageNumbers >= totalPages {
      startPage := totalPages - MaxPageNumbers + 1;
      endPage := totalPages;
    } else {
      startPage := currentPage - HalfMaxPageNumbers;
      endPage := currentPage + HalfMaxPageNumbers;
    }
    assert startPage == WindowStart(totalPages, currentPage);
    assert endPage - startPage + 1 == Min(MaxPageNumbers, totalPages);
    var i := startPage;
    while i <= endPage
      invariant startPage <= i <= endPage + 1
      invariant |pageNumbers| == i - startPage
      invariant forall k :: 0 <= k < |pageNumbers| ==>
        pageNumbers[k] == PageButton(startPage + k, startPage + k == currentPage)
    {
      pageNumbers := pageNumbers + [PageButton(i, i == currentPage)];
      i := i + 1;
    }
  }
}

/**
 * The `PostsDisplay` component: its state (the fetch outcome and the
 * user-editable view state), the event handlers that update it, and the
 * choice of what is rendered.
 *
 * The network request itself is not modelled: its outcome arrives through
 * `FetchSucceeded` or `FetchFailed`.
 */
module Component {
  import opened Posts
  import opened Pagination
  import Sorting

  datatype Option<T> = None | Some(value: T)

  /** What the component renders, reduced to the mode and the data it shows. */
  datatype View =
    | Loading
    | Failed(message: string)
    | Listing(items: seq<Post>, prevDisabled: bool, buttons: seq<PageButton>, nextDisabled: bool)
    | NoResults

  /** `if (error)`: `null` and the empty message are both falsy. */
  predicate ErrorShown(error: Option<string>): (r: bool)
    ensures r ==> error.Some?
    ensures error == None ==> !r
    ensures error == Some("") ==> !r
    ensures error.Some? && error.value != "" ==> r
  {
    error.Some? && error.value != ""
  }

  /**
   * The render function: "Loading..." while the fetch is pending, then the
   * error message, then either the current page of posts with its
   * pagination controls or "No results found".
   */
  function RenderView(loading: bool, error: Option<string>, posts: seq<Post>, query: string, sortBy: string,
                      currentPage: int): (r: View)
    ensures loading ==> r == Loading
    ensures !loading && ErrorShown(error) ==> r == Failed(error.value)
    ensures r.NoResults? <==>
      !loading && !ErrorShown(error) && CurrentPosts(Sorting.SortedPosts(posts, query, sortBy), currentPage) == []
    ensures r.Listing? <==>
      !loading && !ErrorShown(error) && CurrentPosts(Sorting.SortedPosts(posts, query, sortBy), currentPage) != []
    ensures r.Listing? ==>
      var sorted := Sorting.SortedPosts(posts, query, sortBy);
      && r.items == CurrentPosts(sorted, currentPage)
      && r.nextDisabled == (currentPage == TotalPages(|sorted|))
      && r.buttons == PageButtons(TotalPages(|sorted|), currentPage)
    ensures r.Listing? ==>
      && 1 <= |r.items| <= PostsPerPage
      && (forall p :: p in r.items ==> p in posts && MatchesQuery(p, query))
      && r.prevDisabled == (currentPage == 1)
      && (1 <= currentPage ==> PageButton(currentPage, true) in r.buttons)
  {
    if loading then Loading
    else if ErrorShown(error) then Failed(error.value)
    else
      var sorted := Sorting.SortedPosts(posts, query, sortBy);
      var currentPosts := CurrentPosts(sorted, currentPage);
      var totalPages := TotalPages(|sorted|);
      if |currentPosts| > 0 then
        assert forall p :: p in currentPosts ==> p in sorted;
        PageNonEmptyIff(sorted, currentPage);
        ActiveButtonForCurrentPage(totalPages, currentPage);
        Listing(currentPosts, currentPage == 1, PageButtons(totalPages, currentPage), currentPage == totalPages)
      else NoResults
  }

  /**
   * When between one and ten posts match, page 1 lists all of them in sorted
   * order, both arrows are disabled and the only button is the active page 1.
   */
  lemma SinglePageListing(posts: seq<Post>, query: string, sortBy: string)
    requires 1 <= |Sorting.SortedPosts(posts, query, sortBy)| <= PostsPerPage
    ensures RenderView(false, None, posts, query, sortBy, 1)
      == Listing(Sorting.SortedPosts(posts, query, sortBy), true, [PageButton(1, true)], true)
  {
    var sorted := Sorting.SortedPosts(posts, query, sortBy);
    assert TotalPages(|sorted|) == 1;
    assert sorted[0..|sorted|] == sorted;
    SinglePageButtons();
  }

  /** The page number is at least 1, and past the last page only while there are no pages at all. */
  predicate PageInRange(currentPage: int, matching: nat) {
    1 <= currentPage <= Max(1, TotalPages(matching))
  }

  /**
   * With the page number in range, "No results found" is shown exactly when no
   * post matches the query.
   */
  lemma NoResultsIffNothingMatches(posts: seq<Post>, query: string, sortBy: string, currentPage: int)
    ensures PageInRange(currentPage, |SearchFilter(posts, query)|) ==>
      (CurrentPosts(Sorting.SortedPosts(posts, query, sortBy), currentPage) == [] <==> SearchFilter(posts, query) == [])
  {
    PageNonEmptyIff(Sorting.SortedPosts(posts, query, sortBy), currentPage);
  }

  /** The component instance: fetch state and view state, updated by its handlers. */
  class PostsDisplay {
    var posts: seq<Post>
    var loading: bool
    var error: Option<string>
    var searchQuery: string
    var currentPage: int
    var sortBy: string

    /** The page number stays in range; until the fetch resolves it is 1 and there is no error. */
    ghost predicate Valid()
      reads this
    {
      && PageInRange(currentPage, |SearchFilter(posts, searchQuery)|)
      && (loading ==> currentPage == 1 && error == None)
    }

    function SortedPosts(): seq<Post>
      reads this
    {
      Sorting.SortedPosts(posts, searchQuery, sortBy)
    }

    function PageCount(): nat
      reads this
    {
      TotalPages(|SortedPosts()|)
    }

    /**
     * What the component shows now. With the page in range and the list on
     * screen, "No results found" means that nothing matches the query.
     */
    function Render(): (r: View)
      reads this
      ensures loading ==> r == Loading
      ensures !loading && ErrorShown(error) ==> r == Failed(error.value)
      ensures Valid() && !loading && !ErrorShown(error) ==> (r.NoResults? <==> SearchFilter(posts, searchQuery) == [])
      ensures Valid() && !loading && !ErrorShown(error) ==> (r.Listing? <==> SearchFilter(posts, searchQuery) != [])
      ensures r.Listing? ==> r.items == CurrentPosts(SortedPosts(), currentPage) && r.nextDisabled == (currentPage == PageCount())
      ensures r.Listing? ==> r.prevDisabled == (currentPage == 1) && r.buttons == PageButtons(PageCount(), currentPage)
    {
      NoResultsIffNothingMatches(posts, searchQuery, sortBy, currentPage);
      RenderView(loading, error, posts, searchQuery, sortBy, currentPage)
    }

    /** Mounting: no posts, loading, no error, empty query, page 1, sorted by "date". */
    constructor ()
      ensures Valid()
      ensures posts == [] && loading && error == None
      ensures searchQuery == "" && currentPage == 1 && sortBy == "date"
      ensures Render() == Loading
    {
      posts := [];
      loading := true;
      error := None;
      searchQuery := "";
      currentPage := 1;
      sortBy := "date";
    }

    /** The fetch resolved with `data`: store the posts and stop loading. */
    method FetchSucceeded(data: seq<Post>)
      requires Valid() && loading
      modifies this`posts, this`loading
      ensures Valid()
      ensures posts == data && !loading
      ensures Render().NoResults? <==> SearchFilter(data, searchQuery) == []
    {
      posts := data;
      loading := false;
      NoResultsIffNothingMatches(posts, searchQuery, sortBy, currentPage);
    }

    /** The fetch failed with `message`: store it and stop loading. */
    method FetchFailed(message: string)
      requires Valid() && loading
      modifies this`error, this`loading
      ensures Valid()
      ensures error == Some(message) && !loading
      ensures message != "" ==> Render() == Failed(message)
    {
      error := Some(message);
      loading := false;
    }

    /** `handleSearch`: set the query and go back to page 1. */
    method HandleSearch(value: string)
      requires Valid()
      modifies this`searchQuery, this`currentPage
      ensures Valid()
      ensures searchQuery == value && currentPage == 1
      ensures !loading && !ErrorShown(error) ==> (Render().NoResults? <==> SearchFilter(posts, value) == [])
    {
      searchQuery := value;
      currentPage := 1;
      NoResultsIffNothingMatches(posts, searchQuery, sortBy, currentPage);
    }

    /** `handleSortByChange`: set the sort key; the page number is kept. */
    method HandleSortByChange(value: string)
      requires Valid()
      modifies this`sortBy
      ensures Valid()
      ensures sortBy == value
      ensures SortedPosts() == Sorting.SortPosts(SearchFilter(posts, searchQuery), value)
      ensures |SortedPosts()| == |old(SortedPosts())| && multiset(SortedPosts()) == multiset(old(SortedPosts()))
    {
      sortBy := value;
    }

    /** `handlePageChange`: set the page number to exactly the given one. */
    method HandlePageChange(pageNumber: int)
      modifies this`currentPage
      ensures currentPage == pageNumber
    {
      currentPage := pageNumber;
    }

    /** A click on the "<" button, which exists only while posts are listed and is disabled on page 1. */
    method ClickPrevious()
      requires Valid() && Render().Listing?
      modifies this`currentPage
      ensures Valid()
      ensures currentPage == if old(currentPage) == 1 then old(currentPage) else old(currentPage) - 1
    {
      if !Render().prevDisabled {
        PageNonEmptyIff(SortedPosts(), currentPage);
        HandlePageChange(currentPage - 1);
      }
    }

    /** A click on the ">" button, which exists only while posts are listed and is disabled on the last page. */
    method ClickNext()
      requires Valid() && Render().Listing?
      modifies this`currentPage
      ensures Valid()
      ensures currentPage == if old(currentPage) == old(PageCount()) then old(currentPage) else old(currentPage) + 1
    {
      if !Render().nextDisabled {
        PageNonEmptyIff(SortedPosts(), currentPage);
        HandlePageChange(currentPage + 1);
      }
    }

    /** A click on a page-number button; only the buttons of the rendered window exist. */
    method ClickPageNumber(pageNumber: int)
      requires Valid() && Render().Listing?
      requires exists i :: 0 <= i < |Render().buttons| && Render().buttons[i].page == pageNumber
      modifies this`currentPage
      ensures Valid()
      ensures currentPage == pageNumber
    {
      var buttons := PageButtons(PageCount(), currentPage);
      assert Render().buttons == buttons;
      var i :| 0 <= i < |buttons| && buttons[i].page == pageNumber;
      assert 1 <= pageNumber <= PageCount() by {
        assert buttons[i].page == PageWindow(PageCount(), currentPage)[i];
      }
      HandlePageChange(pageNumber);
    }
  }
}

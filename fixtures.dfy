/**
 * The outcomes that the component's test file expects, restated on the model:
 * the two fixture posts are listed once fetched, a failed fetch shows its
 * message, and searching for "Post 1" keeps only the first post. The failed
 * fetch's message is a parameter: the component shows the rejection's
 * `message`, whatever the HTTP client puts there.
 */
module Fixtures {
  import opened Text
  import opened Posts
  import opened Sorting
  import opened Pagination
  import opened Component

  function FirstPost(): Post { Post(1, "Post 1", "Body 1") }
  function SecondPost(): Post { Post(2, "Post 2", "Body 2") }
  function FixturePosts(): seq<Post> { [FirstPost(), SecondPost()] }

  lemma LowerFixtureTitle1()
    ensures ToLower("Post 1") == "post 1"
  {
  }

  lemma LowerFixtureTitle2()
    ensures ToLower("Post 2") == "post 2"
  {
  }

  lemma LowerFixtureBody2()
    ensures ToLower("Body 2") == "body 2"
  {
  }

  lemma FirstPostMatches()
    ensures MatchesQuery(FirstPost(), "Post 1")
  {
    LowerFixtureTitle1();
    assert StartsWith("post 1", "post 1");
  }

  lemma SecondPostDoesNotMatch()
    ensures !MatchesQuery(SecondPost(), "Post 1")
  {
    LowerFixtureTitle1();
    LowerFixtureTitle2();
    LowerFixtureBody2();
    SameLengthIncludes("post 2", "post 1");
    SameLengthIncludes("body 2", "post 1");
  }

  /** Of two posts, a query that only the first one matches keeps only the first. */
  lemma FilterKeepsFirstOfTwo(posts: seq<Post>, query: string)
    requires |posts| == 2 && MatchesQuery(posts[0], query) && !MatchesQuery(posts[1], query)
    ensures SearchFilter(posts, query) == [posts[0]]
  {
    assert posts[1..][1..] == [];
  }

  /** Searching the fixture for "Post 1" keeps the first post and drops the second. */
  lemma SearchPost1KeepsOnlyFirst()
    ensures SearchFilter(FixturePosts(), "Post 1") == [FirstPost()]
  {
    FixtureSearchPost1();
    FilterKeepsFirstOfTwo(FixturePosts(), "Post 1");
  }

  /** The initial view state (empty query, "date") keeps the fixture as fetched. */
  lemma FixtureSortedUnchanged()
    ensures Sorting.SortedPosts(FixturePosts(), "", "date") == FixturePosts()
  {
    SearchFilterEmptyQuery(FixturePosts());
    SortOtherKeyKeepsOrder(FixturePosts(), "date");
  }

  /** With the empty query and the initial "date" key the fixture is listed as fetched, on a single page. */
  lemma FixtureListedInOrder()
    ensures RenderView(false, None, FixturePosts(), "", "date", 1)
      == Listing(FixturePosts(), true, [PageButton(1, true)], true)
  {
    FixtureSortedUnchanged();
    SinglePageListing(FixturePosts(), "", "date");
  }

  /** A query that the first of two posts matches and the second does not lists only the first. */
  lemma SearchKeepsMatchingPost(posts: seq<Post>, query: string, sortBy: string)
    requires |posts| == 2 && MatchesQuery(posts[0], query) && !MatchesQuery(posts[1], query)
    ensures RenderView(false, None, posts, query, sortBy, 1)
      == Listing([posts[0]], true, [PageButton(1, true)], true)
  {
    FilterKeepsFirstOfTwo(posts, query);
    assert Sorting.SortPosts([posts[0]], sortBy) == [posts[0]];
    SinglePageListing(posts, query, sortBy);
  }

  /** Mount, then the fetch returns the two fixture posts: "Loading..." first, then both posts. */
  method DisplaysFetchedPosts() returns (before: View, after: View)
    ensures before == Loading
    ensures after == Listing(FixturePosts(), true, [PageButton(1, true)], true)
  {
    var c := new PostsDisplay();
    before := c.Render();
    c.FetchSucceeded(FixturePosts());
    FixtureListedInOrder();
    after := c.Render();
  }

  /** Mount, then the fetch fails with a non-empty `message`: "Loading..." first, then that message and no list. */
  method DisplaysErrorMessage(message: string) returns (before: View, after: View)
    requires message != ""
    ensures before == Loading
    ensures after == Failed(message)
  {
    var c := new PostsDisplay();
    before := c.Render();
    c.FetchFailed(message);
    after := c.Render();
  }

  /** Mount and let the fetch return `fetched`. */
  method MountAndFetch(fetched: seq<Post>) returns (c: PostsDisplay)
    ensures fresh(c) && c.Valid()
    ensures c.posts == fetched && c.searchQuery == "" && c.sortBy == "date"
    ensures !c.loading && c.error == None && c.currentPage == 1
  {
    c := new PostsDisplay();
    c.FetchSucceeded(fetched);
  }

  /** Mount, let the fetch return `fetched`, then type `query` into the search box. */
  method FetchThenSearch(fetched: seq<Post>, query: string) returns (c: PostsDisplay)
    ensures c.posts == fetched && c.searchQuery == query && c.sortBy == "date"
    ensures !c.loading && c.error == None && c.currentPage == 1
  {
    c := MountAndFetch(fetched);
    c.HandleSearch(query);
  }

  /**
   * Mount, fetch two posts, then type a query that only the first one matches:
   * only the first post is listed. The fixture with the query "Post 1" is such
   * an input (`FixtureSearchPost1`).
   */
  method FiltersPostsByTitle(fetched: seq<Post>, query: string) returns (after: View)
    requires |fetched| == 2 && MatchesQuery(fetched[0], query) && !MatchesQuery(fetched[1], query)
    ensures after == Listing([fetched[0]], true, [PageButton(1, true)], true)
  {
    var c := FetchThenSearch(fetched, query);
    SearchKeepsMatchingPost(fetched, query, "date");
    after := c.Render();
  }

  /** The fixture and the query "Post 1" are an input of the search scenario. */
  lemma FixtureSearchPost1()
    ensures |FixturePosts()| == 2
    ensures MatchesQuery(FixturePosts()[0], "Post 1") && !MatchesQuery(FixturePosts()[1], "Post 1")
  {
    FirstPostMatches();
    SecondPostDoesNotMatch();
  }
}

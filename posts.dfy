/**
 * Posts as fetched from the remote collection, and the search step of the
 * derived view: keep the posts whose lower-cased title or body includes the
 * lower-cased query, in their original order.
 */
module Posts {
  import opened Text

  /** One post of the fetched collection; only the fields the component reads. */
  datatype Post = Post(id: int, title: string, body: string)

  /** The filter callback: the lower-cased title or the lower-cased body includes the lower-cased query. */
  predicate MatchesQuery(p: Post, query: string): (r: bool)
    ensures query == [] ==> r
    ensures ToLower(query) == ToLower(p.title) || ToLower(query) == ToLower(p.body) ==> r
    ensures r ==> |query| <= |p.title| || |query| <= |p.body|
  {
    var q := ToLower(query);
    Includes(ToLower(p.title), q) || Includes(ToLower(p.body), q)
  }

  /** `a` can be obtained from `b` by deleting elements, without reordering the rest. */
  predicate IsSubsequence(a: seq<Post>, b: seq<Post>)
    decreases |b|
  {
    if a == [] then true
    else if b == [] then false
    else (a[0] == b[0] && IsSubsequence(a[1..], b[1..])) || IsSubsequence(a, b[1..])
  }

  /**
   * `posts.filter(...)` with the search callback: an order-preserving
   * subsequence holding exactly the matching posts.
   */
  function SearchFilter(posts: seq<Post>, query: string): (r: seq<Post>)
    ensures IsSubsequence(r, posts)
    ensures forall p :: p in r <==> p in posts && MatchesQuery(p, query)
    ensures multiset(r) <= multiset(posts)
  {
    if posts == [] then []
    else
      var rest := SearchFilter(posts[1..], query);
      assert posts == [posts[0]] + posts[1..];
      if MatchesQuery(posts[0], query) then
        assert ([posts[0]] + rest)[1..] == rest;
        [posts[0]] + rest
      else rest
  }

  /** Filtering commutes with concatenation: the relative order of the kept posts is the original one. */
  lemma {:induction false} SearchFilterConcat(a: seq<Post>, b: seq<Post>, query: string)
    ensures SearchFilter(a + b, query) == SearchFilter(a, query) + SearchFilter(b, query)
  {
    if a != [] {
      var ab := a + b;
      assert ab[0] == a[0] && ab[1..] == a[1..] + b;
      SearchFilterConcat(a[1..], b, query);
      if MatchesQuery(a[0], query) {
        assert SearchFilter(ab, query) == [a[0]] + SearchFilter(ab[1..], query);
        assert SearchFilter(a, query) == [a[0]] + SearchFilter(a[1..], query);
      } else {
        assert SearchFilter(ab, query) == SearchFilter(ab[1..], query);
        assert SearchFilter(a, query) == SearchFilter(a[1..], query);
      }
    } else {
      assert a + b == b;
    }
  }

  /** The empty query keeps every post, in the original order. */
  lemma {:induction false} SearchFilterEmptyQuery(posts: seq<Post>)
    ensures SearchFilter(posts, "") == posts
  {
    if posts != [] {
      assert StartsWith(ToLower(posts[0].title), ToLower(""));
      SearchFilterEmptyQuery(posts[1..]);
    }
  }

  /** The search is case-insensitive: lower-casing the query first changes nothing. */
  lemma {:induction false} SearchFilterCaseInsensitive(posts: seq<Post>, query: string)
    ensures SearchFilter(posts, ToLower(query)) == SearchFilter(posts, query)
  {
    ToLowerIdempotent(query);
    if posts != [] {
      SearchFilterCaseInsensitive(posts[1..], query);
    }
  }

  /** Searching again with the same query changes nothing. */
  lemma {:induction false} SearchFilterIdempotent(posts: seq<Post>, query: string)
    ensures SearchFilter(SearchFilter(posts, query), query) == SearchFilter(posts, query)
  {
    if posts != [] {
      SearchFilterIdempotent(posts[1..], query);
    }
  }
}

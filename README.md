# PostsDisplay — a Dafny model of the posts list component

`PostsDisplay` is a browser component. It fetches a collection of posts once and shows them one page at a time. The user can search them, sort them and move between pages. This project models the logic of that component and proves its properties:

- **Search filter** (`Posts`). A post is kept when its lower-cased title or body includes the lower-cased query. The kept posts keep their original order.
- **Sort step** (`Sorting`). Sorting by `"title"` compares titles. Sorting by `"date"` compares a field that posts do not have, so the order stays as it is. Any other key leaves the order unchanged too. The sort is stable.
- **Pagination** (`Pagination`). The current page is a slice of 10 posts. The page count is `ceil(n / 10)`. The page-number window shows at most three buttons around the current page. `RenderPageNumbers` is the imperative window builder, proved against the function `PageWindow`.
- **Component state** (`Component`). The class `PostsDisplay` holds the fetch state (`posts`, `loading`, `error`) and the view state (`searchQuery`, `sortBy`, `currentPage`). It also holds the event handlers and the render-mode choice.
- **Scenarios** (`Fixtures`). The component's test file describes three scenarios. This module restates the outcomes those tests expect and proves them on the model. The failed fetch's error message is an abstract fetch outcome there, a parameter of the scenario.

The files are `text.dfy`, `posts.dfy`, `sorting.dfy`, `pagination.dfy`, `component.dfy` and `fixtures.dfy`. They form one program and are verified together.

Three behaviours of the code are easy to misread, and the model follows the code:

- The sort key is the string value of the `<select>`: `""`, `"date"` or `"title"`. Any other string falls through to the comparator's final `return 0`.
- The `date` comparator subtracts `new Date(a.date)` from `new Date(b.date)`. Posts carry no `date` field, so both dates are invalid and the difference is NaN. The sort reads NaN as 0, so this comparator never reorders anything.
- The error check is `if (error)`. An empty error message is falsy, so it does not show the error view. The model keeps this (`ErrorShown`).

## Model

| member | source | states |
|---|---|---|
| `Text.ToLower` | src/Posts/postsDisplay.js:47-50 | lower-casing keeps the length, turns each of `A`-`Z` into its lower-case letter at the same position, leaves no upper-case letter, and changes exactly the upper-case letters |
| `Text.ToLowerIdempotent` | src/Posts/postsDisplay.js:47-50 | lower-casing twice is the same as lower-casing once |
| `Text.ToLowerIdentifiesCase` | src/Posts/postsDisplay.js:47-50 | two strings lower-case to the same string exactly when they differ only in the case of letters |
| `Text.Includes` | src/Posts/postsDisplay.js:49-50 | the empty query is included in every string; a prefix is included; an included query is no longer than the string |
| `Text.OccursImpliesIncludes` | src/Posts/postsDisplay.js:49-50 | every occurrence of the query in a string is found by `includes` |
| `Text.IncludesIffOccurs` | src/Posts/postsDisplay.js:49-50 | `includes` holds exactly when the query occurs at some position |
| `Text.SameLengthIncludes` | src/Posts/postsDisplay.js:49-50 | a string includes a query of the same length only if the two are equal |
| `Posts.MatchesQuery` | src/Posts/postsDisplay.js:45-51 | the empty query matches every post; a query equal to the title or the body up to letter case matches; a matching query is no longer than the title or the body |
| `Posts.SearchFilter` | src/Posts/postsDisplay.js:44-52 | the result is an order-preserving subsequence of the posts; it holds exactly the posts whose lower-cased title or body includes the lower-cased query; no post appears more often than in the input |
| `Posts.SearchFilterConcat` | src/Posts/postsDisplay.js:44-52 | filtering a concatenation is the concatenation of the filtered parts, so the relative order is kept |
| `Posts.SearchFilterEmptyQuery` | src/Posts/postsDisplay.js:47-51 | the empty query keeps every post in its original order |
| `Posts.SearchFilterCaseInsensitive` | src/Posts/postsDisplay.js:47 | lower-casing the query first gives the same result |
| `Posts.SearchFilterIdempotent` | src/Posts/postsDisplay.js:44-52 | filtering the filtered list again with the same query changes nothing |
| `Sorting.CompareStringsZero` | src/Posts/postsDisplay.js:55 | the title comparison returns 0 exactly for equal titles |
| `Sorting.CompareStringsAntisymmetric` | src/Posts/postsDisplay.js:55 | swapping the titles negates the comparison, and the result is -1, 0 or 1 |
| `Sorting.CompareStringsTransitive` | src/Posts/postsDisplay.js:55 | the title comparison is transitive |
| `Sorting.CompareStrings` | src/Posts/postsDisplay.js:55 | the title comparison returns -1, 0 or 1, and a proper prefix sorts first |
| `Sorting.Subtract` | src/Posts/postsDisplay.js:57 | the difference of two dates is finite exactly when both dates are valid |
| `Sorting.CompareDates` | src/Posts/postsDisplay.js:57 | posts have no date, so the difference is NaN and the comparator reads as 0 for every pair |
| `Sorting.Compare` | src/Posts/postsDisplay.js:53-60 | the comparator returns -1, 0 or 1, and ties two posts exactly when their sort keys are equal: the title for "title", nothing for any other key |
| `Sorting.CompareTotalPreorder` | src/Posts/postsDisplay.js:53-60 | for every sort key the comparator is antisymmetric in sign and transitive |
| `Sorting.Insert` | src/Posts/postsDisplay.js:53-60 | inserting a post adds exactly that post to the multiset of posts |
| `Sorting.SortPosts` | src/Posts/postsDisplay.js:53-60 | the sorted list is a permutation of the filtered list |
| `Sorting.InsertSorted` | src/Posts/postsDisplay.js:53-60 | inserting into a list in comparator order keeps it in comparator order |
| `Sorting.SortPostsSorted` | src/Posts/postsDisplay.js:53-60 | every pair of posts in the sorted list is in comparator order |
| `Sorting.SortByTitleAscending` | src/Posts/postsDisplay.js:54-55 | with "title", titles are in non-decreasing order |
| `Sorting.SortOtherKeyKeepsOrder` | src/Posts/postsDisplay.js:56-59 | with any key other than "title", including "date", the order is unchanged |
| `Sorting.WithKeyConcat` | src/Posts/postsDisplay.js:53-60 | selecting the posts with one sort key distributes over concatenation |
| `Sorting.InsertStable` | src/Posts/postsDisplay.js:53-60 | an inserted post comes after every post with an equal key |
| `Sorting.SortPostsStable` | src/Posts/postsDisplay.js:53-60 | the sort is stable: posts with equal sort keys keep their relative order |
| `Sorting.SortedPosts` | src/Posts/postsDisplay.js:44-60 | `sortedPosts` holds exactly the matching posts, with the filtered list's multiset and length |
| `Pagination.RelativeIndex` | src/Posts/postsDisplay.js:64 | a slice bound lies in `[0, len]` and is the clamped index when non-negative |
| `Pagination.JsSlice` | src/Posts/postsDisplay.js:64 | `slice` never grows the list, and with non-negative bounds it is the clamped ordinary subsequence |
| `Pagination.CurrentPosts` | src/Posts/postsDisplay.js:62-64 | the current page has at most 10 posts; for page p ≥ 1 it is `sorted[min((p-1)*10, n) .. min(p*10, n)]` |
| `Pagination.TotalPages` | src/Posts/postsDisplay.js:66 | the page count is the least number of 10-post pages that hold all posts, i.e. `ceil(n/10)` |
| `Pagination.PageNonEmptyIff` | src/Posts/postsDisplay.js:62-66 | a page number p ≥ 1 shows posts exactly when p ≤ totalPages |
| `Pagination.PagesUpToIsPrefix` | src/Posts/postsDisplay.js:62-66 | pages 1..k concatenated are the first `min(10k, n)` sorted posts |
| `Pagination.PagesPartition` | src/Posts/postsDisplay.js:62-66 | pages 1..totalPages concatenated give back the sorted list; each of them is non-empty; the last one holds the remainder |
| `Pagination.PageWindow` | src/Posts/postsDisplay.js:68-92 | the window is an ascending run of `min(3, totalPages)` consecutive pages inside `[1, totalPages]`; it holds the current page exactly when that page is in range; the current page is in the middle whenever it is neither the first nor the last page |
| `Pagination.PageButtons` | src/Posts/postsDisplay.js:94-104 | one button per window page; some button is active exactly when the current page is in range, and at most one button is active |
| `Pagination.ActiveButtonForCurrentPage` | src/Posts/postsDisplay.js:94-104 | when the current page is in range, its button is rendered and is active |
| `Pagination.SinglePageButtons` | src/Posts/postsDisplay.js:68-107 | with a single page the only button is page 1, and it is active |
| `Pagination.RenderPageNumbers` | src/Posts/postsDisplay.js:68-107 | the four-case start/end choice followed by the push loop yields exactly the buttons of `PageWindow` |
| `Component.RenderView` | src/Posts/postsDisplay.js:109-160 | loading wins over an error; a truthy error wins over the list; otherwise the list is shown exactly when the current page is non-empty, and "No results found" exactly when it is empty; a listing shows exactly the current page's posts (1 to 10, all matching), "<" disabled exactly on page 1, ">" disabled exactly on the last page, the window's page buttons and the current page's button active |
| `Component.ErrorShown` | src/Posts/postsDisplay.js:113 | an error is shown exactly when it is present and non-empty: a non-empty message is shown; no error and the empty message are not |
| `Component.NoResultsIffNothingMatches` | src/Posts/postsDisplay.js:142-160 | when the page number is in range, the current page is empty exactly when no post matches the query |
| `Component.SinglePageListing` | src/Posts/postsDisplay.js:62-66 | when 1 to 10 posts match, page 1 lists all of them in sorted order, both arrows are disabled and the only button is the active page 1 |
| `Component.PostsDisplay.constructor` | src/Posts/postsDisplay.js:6-12 | the mount state: no posts, loading, no error, empty query, page 1, sort key "date"; it renders "Loading..." |
| `Component.PostsDisplay.Render` | src/Posts/postsDisplay.js:109-160 | the component's current view: "Loading..." while loading, then a shown error; with the state invariant and neither of those, the list is shown exactly when some post matches and "No results found" exactly when none does; a listing shows the current page, disables "<" exactly on page 1 and ">" exactly on the last page, and shows the window's page buttons |
| `Component.PostsDisplay.FetchSucceeded` | src/Posts/postsDisplay.js:20-21 | stores the fetched posts and clears loading; keeps the page invariant; afterwards "No results found" is shown exactly when nothing matches |
| `Component.PostsDisplay.FetchFailed` | src/Posts/postsDisplay.js:22-24 | stores the error message and clears loading; a non-empty message is rendered as the error view |
| `Component.PostsDisplay.HandleSearch` | src/Posts/postsDisplay.js:31-34 | sets the query, resets the page to 1 and changes nothing else; "No results found" then means no post matches the new query |
| `Component.PostsDisplay.HandleSortByChange` | src/Posts/postsDisplay.js:36-38 | changes only the sort key; the sorted list is a permutation of the previous one, so the page count and the page invariant are kept |
| `Component.PostsDisplay.HandlePageChange` | src/Posts/postsDisplay.js:40-42 | sets the page number to exactly the given one and changes nothing else |
| `Component.PostsDisplay.ClickPrevious` | src/Posts/postsDisplay.js:144-149 | on page 1 nothing changes; otherwise the page goes down by one; the page stays in `[1, max(1, totalPages)]` |
| `Component.PostsDisplay.ClickNext` | src/Posts/postsDisplay.js:151-156 | on the last page nothing changes; otherwise the page goes up by one; the page stays in range |
| `Component.PostsDisplay.ClickPageNumber` | src/Posts/postsDisplay.js:94-98 | clicking a rendered page button sets exactly that page, which stays in range |
| `Fixtures.SearchPost1KeepsOnlyFirst` | src/testCases/postsDisplay.test.js:65-73 | on the two test posts, the query "Post 1" keeps post 1 and drops post 2 |
| `Fixtures.FilterKeepsFirstOfTwo` | src/testCases/postsDisplay.test.js:65-73 | of two posts, a query that only the first matches keeps exactly the first |
| `Fixtures.FixtureListedInOrder` | src/testCases/postsDisplay.test.js:14-32 | the two fetched test posts are listed in order on a single page, with both arrows disabled |
| `Fixtures.DisplaysFetchedPosts` | src/testCases/postsDisplay.test.js:14-32 | the component renders "Loading..." after mounting and both posts once the fetch succeeds |
| `Fixtures.DisplaysErrorMessage` | src/testCases/postsDisplay.test.js:34-44 | the component renders "Loading..." after mounting and, once the fetch fails with a non-empty message, that message |
| `Fixtures.MountAndFetch` | src/testCases/postsDisplay.test.js:47-59 | after mounting and a successful fetch the state holds the fetched posts, no error, the empty query, page 1 and the key "date" |
| `Fixtures.FetchThenSearch` | src/testCases/postsDisplay.test.js:47-69 | typing a query after the fetch leaves the fetched posts, no error and page 1, with that query |
| `Fixtures.SearchKeepsMatchingPost` | src/testCases/postsDisplay.test.js:46-74 | of two posts, a query that matches only the first lists only the first, on one page |
| `Fixtures.FiltersPostsByTitle` | src/testCases/postsDisplay.test.js:46-74 | after the fetch and a search that only the first post matches, only that post is listed |
| `Fixtures.FixtureSearchPost1` | src/testCases/postsDisplay.test.js:65-73 | the test posts with the query "Post 1" are an input of that search scenario |

## Left out

- The HTTP GET and the `useEffect` that issues it (src/Posts/postsDisplay.js:14-29) are not modelled. They are network I/O and framework scheduling. Their outcome enters the model through `FetchSucceeded` or `FetchFailed`. Each requires `loading`, because the effect runs once per mount.
- Discarding a late fetch result after the component is torn down is not modelled. There is no unmount in the model.
- JSX markup, CSS classes, DOM event objects, `key` attributes and the uniqueness of post ids are not modelled. Handlers take the input's value directly. The render output is reduced to a `View`: the mode, the listed posts, the arrow states and the page buttons.
- Clicks are modelled only on controls that are rendered. A click on a disabled arrow does nothing. The page-button and arrow clicks therefore require the listing to be on screen.
- Sorting.CompareStrings: `localeCompare` collation is replaced by lexicographic comparison of Unicode scalar values (Dafny characters), not UTF-16 code units. This comparison is a total order: it ties only equal strings. `localeCompare` is only a total preorder: it also ties some distinct strings, such as canonically equivalent ones. So `Sorting.CompareStringsZero` and `Sorting.Compare` ("ties exactly on equal titles") hold for the model, not for the collation. Locale rules are not modelled.
- Text.ToLower: `toLowerCase` is modelled on the ASCII letters `A`-`Z` only. Unicode case mapping is not modelled.
- Sorting.CompareDates: `new Date(...)` parsing and floating-point arithmetic are not modelled. A missing date is NaN and a present one is not modelled at all. Posts have no `date` field, so every date is NaN.
- Sorting.SortPosts: the engine's sort algorithm is not modelled. A stable insertion sort is the reference; its permutation, order and stability properties are proved.
- Pagination.TotalPages: `Math.ceil` on a floating-point quotient is modelled as integer ceiling division. Page numbers are unbounded integers, not IEEE doubles.
- The test harness itself is not modelled (the mock HTTP adapter, `render`, `waitFor`). `Fixtures` restates the outcomes its three scenarios expect, not a run of them.
- Fixtures.DisplaysErrorMessage: the error message is a parameter. The failed-fetch test expects the mocked response body, but src/Posts/postsDisplay.js:23 stores the rejection's `message`. The HTTP client sets that message, and the client is not part of this model.
- Fixtures.FiltersPostsByTitle: the search test calls `fireEvent` without importing it. The scenario is stated as the test intends it: the input's value changes to the query.

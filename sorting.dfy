/**
 * The sort step of the derived view: `Array.prototype.sort` with the
 * component's comparator.
 *
 * - sort key "title": titles are compared; `localeCompare` is modelled by
 *   lexicographic comparison of Unicode scalar values, a total order (the
 *   collation is only a total preorder: it also ties some distinct strings).
 * - sort key "date": posts carry no `date` field, so both dates are invalid,
 *   their difference is NaN and the sort treats it as 0: no reordering.
 * - any other key: the comparator returns 0.
 *
 * The sort is stable. The reference algorithm here is a stable insertion sort;
 * the engine's own algorithm is not modelled, only its observable result.
 */
module Sorting {
  import opened Posts

  /** Three-way lexicographic comparison of two strings: -1, 0 or 1; a proper prefix comes first. */
  function CompareStrings(a: string, b: string): (r: int)
    ensures -1 <= r <= 1
    ensures |a| < |b| && a == b[..|a|] ==> r == -1
    decreases |a|
  {
    if a == [] && b == [] then 0
    else if a == [] then -1
    else if b == [] then 1
    else if a[0] < b[0] then -1
    else if a[0] > b[0] then 1
    else CompareStrings(a[1..], b[1..])
  }

  lemma {:induction false} CompareStringsZero(a: string, b: string)
    ensures CompareStrings(a, b) == 0 <==> a == b
    decreases |a|
  {
    if a != [] && b != [] && a[0] == b[0] {
      CompareStringsZero(a[1..], b[1..]);
      assert a == [a[0]] + a[1..] && b == [b[0]] + b[1..];
    }
  }

  lemma {:induction false} CompareStringsAntisymmetric(a: string, b: string)
    ensures CompareStrings(a, b) == -CompareStrings(b, a)
    ensures -1 <= CompareStrings(a, b) <= 1
    decreases |a|
  {
    if a != [] && b != [] && a[0] == b[0] {
      CompareStringsAntisymmetric(a[1..], b[1..]);
    }
  }

  lemma {:induction false} CompareStringsTransitive(a: string, b: string, c: string)
    requires CompareStrings(a, b) <= 0 && CompareStrings(b, c) <= 0
    ensures CompareStrings(a, c) <= 0
    decreases |a|
  {
    if a != [] && b != [] && c != [] && a[0] == b[0] == c[0] {
      CompareStringsTransitive(a[1..], b[1..], c[1..]);
    }
  }

  /** A JavaScript number as far as the comparator needs it: NaN or a finite value. */
  datatype Number = NaN | Finite(value: int)

  /** `new Date(p.date)` as a time value: posts carry no `date` field, so the date is invalid and its time value is NaN. */
  function DateOf(p: Post): Number {
    NaN
  }

  /** Subtraction of two numbers: NaN as soon as either operand is NaN. */
  function Subtract(x: Number, y: Number): (r: Number)
    ensures r.Finite? <==> x.Finite? && y.Finite?
  {
    if x.Finite? && y.Finite? then Finite(x.value - y.value) else NaN
  }

  /** How `sort` reads a comparator result: NaN as 0, otherwise by its sign. */
  function SortReading(v: Number): int {
    if v.NaN? || v.value == 0 then 0 else if v.value < 0 then -1 else 1
  }

  /** The `date` comparator `new Date(b.date) - new Date(a.date)`: NaN for posts without a date, so it ties every pair. */
  function CompareDates(a: Post, b: Post): (r: int)
    ensures r == 0
  {
    SortReading(Subtract(DateOf(b), DateOf(a)))
  }

  /** The comparator passed to `sort` for the given `sortBy` value. */
  function Compare(sortBy: string, a: Post, b: Post): (r: int)
    ensures -1 <= r <= 1
    ensures r == 0 <==> SortKey(sortBy, a) == SortKey(sortBy, b)
  {
    CompareStringsZero(a.title, b.title);
    if sortBy == "title" then CompareStrings(a.title, b.title)
    else if sortBy == "date" then CompareDates(a, b)
    else 0
  }

  /** What the comparator looks at: the title for "title", nothing otherwise. */
  function SortKey(sortBy: string, p: Post): string {
    if sortBy == "title" then p.title else ""
  }

  /** The comparator is a total preorder: antisymmetric in sign and transitive. */
  lemma CompareTotalPreorder(sortBy: string, a: Post, b: Post, c: Post)
    ensures Compare(sortBy, a, b) > 0 ==> Compare(sortBy, b, a) < 0
    ensures Compare(sortBy, a, b) <= 0 && Compare(sortBy, b, c) <= 0 ==> Compare(sortBy, a, c) <= 0
  {
    CompareStringsAntisymmetric(a.title, b.title);
    if CompareStrings(a.title, b.title) <= 0 && CompareStrings(b.title, c.title) <= 0 {
      CompareStringsTransitive(a.title, b.title, c.title);
    }
  }

  /** Every pair of posts is in comparator order. */
  ghost predicate Sorted(s: seq<Post>, sortBy: string) {
    forall i, j :: 0 <= i < j < |s| ==> Compare(sortBy, s[i], s[j]) <= 0
  }

  /** Insert `x` into `t` after every element that does not compare greater than it. */
  function Insert(t: seq<Post>, x: Post, sortBy: string): (r: seq<Post>)
    ensures multiset(r) == multiset(t) + multiset{x}
    ensures |r| == |t| + 1
  {
    if t == [] then [x]
    else if Compare(sortBy, t[|t| - 1], x) <= 0 then t + [x]
    else
      assert t == t[..|t| - 1] + [t[|t| - 1]];
      Insert(t[..|t| - 1], x, sortBy) + [t[|t| - 1]]
  }

  /** `filtered.sort(comparator)`: a permutation of its input. */
  function SortPosts(s: seq<Post>, sortBy: string): (r: seq<Post>)
    ensures multiset(r) == multiset(s)
    ensures |r| == |s|
  {
    if s == [] then []
    else
      assert s == s[..|s| - 1] + [s[|s| - 1]];
      Insert(SortPosts(s[..|s| - 1], sortBy), s[|s| - 1], sortBy)
  }

  /** Appending a post that no element compares above keeps a list in comparator order. */
  lemma AppendSorted(t: seq<Post>, x: Post, sortBy: string)
    requires Sorted(t, sortBy)
    requires forall i :: 0 <= i < |t| ==> Compare(sortBy, t[i], x) <= 0
    ensures Sorted(t + [x], sortBy)
  {
  }

  /** A post that compares at least as high as the last of a sorted list compares at least as high as all of it. */
  lemma AboveLast(t: seq<Post>, x: Post, sortBy: string)
    requires Sorted(t, sortBy) && t != [] && Compare(sortBy, t[|t| - 1], x) <= 0
    ensures forall i :: 0 <= i < |t| ==> Compare(sortBy, t[i], x) <= 0
  {
    forall i | 0 <= i < |t| ensures Compare(sortBy, t[i], x) <= 0 {
      CompareTotalPreorder(sortBy, t[i], t[|t| - 1], x);
    }
  }

  /** The elements of a list and a post that all compare at most `y` still do after inserting the post. */
  lemma InsertBelow(init: seq<Post>, x: Post, y: Post, sortBy: string)
    requires forall i :: 0 <= i < |init| ==> Compare(sortBy, init[i], y) <= 0
    requires Compare(sortBy, x, y) <= 0
    ensures forall i :: 0 <= i < |Insert(init, x, sortBy)| ==> Compare(sortBy, Insert(init, x, sortBy)[i], y) <= 0
  {
    var u := Insert(init, x, sortBy);
    forall i | 0 <= i < |u| ensures Compare(sortBy, u[i], y) <= 0 {
      assert u[i] in multiset(u);
      if u[i] != x {
        assert u[i] in multiset(init);
        var k :| 0 <= k < |init| && init[k] == u[i];
      }
    }
  }

  lemma {:induction false} InsertSorted(t: seq<Post>, x: Post, sortBy: string)
    requires Sorted(t, sortBy)
    ensures Sorted(Insert(t, x, sortBy), sortBy)
    decreases |t|
  {
    if t == [] {
    } else if Compare(sortBy, t[|t| - 1], x) <= 0 {
      AboveLast(t, x, sortBy);
      AppendSorted(t, x, sortBy);
    } else {
      var init, last := t[..|t| - 1], t[|t| - 1];
      assert Sorted(init, sortBy);
      InsertSorted(init, x, sortBy);
      CompareTotalPreorder(sortBy, last, x, x);
      assert forall i :: 0 <= i < |init| ==> Compare(sortBy, init[i], last) <= 0 by {
        assert forall i :: 0 <= i < |init| ==> init[i] == t[i];
      }
      InsertBelow(init, x, last, sortBy);
      AppendSorted(Insert(init, x, sortBy), last, sortBy);
    }
  }

  /** For every key, every pair of posts in the result is in comparator order. */
  lemma {:induction false} SortPostsSorted(s: seq<Post>, sortBy: string)
    ensures Sorted(SortPosts(s, sortBy), sortBy)
  {
    if s != [] {
      SortPostsSorted(s[..|s| - 1], sortBy);
      InsertSorted(SortPosts(s[..|s| - 1], sortBy), s[|s| - 1], sortBy);
    }
  }

  /** Sorting by title: adjacent (indeed all) titles are in non-decreasing lexicographic order. */
  lemma SortByTitleAscending(s: seq<Post>)
    ensures forall i, j :: 0 <= i < j < |SortPosts(s, "title")| ==>
      CompareStrings(SortPosts(s, "title")[i].title, SortPosts(s, "title")[j].title) <= 0
  {
    SortPostsSorted(s, "title");
  }

  /** Any key other than "title" (including "date") ties every pair of posts. */
  lemma OtherKeyTies(sortBy: string, a: Post, b: Post)
    requires sortBy != "title"
    ensures Compare(sortBy, a, b) == 0
  {
  }

  /** A post that does not compare below the last one is appended. */
  lemma InsertAfterLast(t: seq<Post>, x: Post, sortBy: string)
    requires t != [] && Compare(sortBy, t[|t| - 1], x) <= 0
    ensures Insert(t, x, sortBy) == t + [x]
  {
  }

  /** Any key other than "title" (including "date") leaves the order unchanged. */
  lemma {:induction false} SortOtherKeyKeepsOrder(s: seq<Post>, sortBy: string)
    requires sortBy != "title"
    ensures SortPosts(s, sortBy) == s
  {
    if s != [] {
      var init, last := s[..|s| - 1], s[|s| - 1];
      assert s == init + [last];
      assert SortPosts(s, sortBy) == Insert(SortPosts(init, sortBy), last, sortBy);
      SortOtherKeyKeepsOrder(init, sortBy);
      if init != [] {
        OtherKeyTies(sortBy, init[|init| - 1], last);
        InsertAfterLast(init, last, sortBy);
      }
    }
  }

  /** The posts of `s` whose sort key is `key`, in order. */
  function WithKey(s: seq<Post>, sortBy: string, key: string): (r: seq<Post>)
    ensures forall p :: p in r ==> p in s && SortKey(sortBy, p) == key
  {
    if s == [] then []
    else if SortKey(sortBy, s[|s| - 1]) == key then WithKey(s[..|s| - 1], sortBy, key) + [s[|s| - 1]]
    else WithKey(s[..|s| - 1], sortBy, key)
  }

  lemma {:induction false} WithKeyConcat(a: seq<Post>, b: seq<Post>, sortBy: string, key: string)
    ensures WithKey(a + b, sortBy, key) == WithKey(a, sortBy, key) + WithKey(b, sortBy, key)
    decreases |b|
  {
    if b == [] {
      assert a + b == a;
    } else {
      assert (a + b)[..|a + b| - 1] == a + b[..|b| - 1];
      WithKeyConcat(a, b[..|b| - 1], sortBy, key);
    }
  }

  lemma WithKeySingle(x: Post, sortBy: string, key: string)
    ensures WithKey([x], sortBy, key) == if SortKey(sortBy, x) == key then [x] else []
  {
    assert [x][..0] == [];
  }

  lemma SwapAroundEmpty(a: seq<Post>, b: seq<Post>, c: seq<Post>)
    requires b == [] || c == []
    ensures a + b + c == a + c + b
  {
    if b == [] {
      assert a + b == a && a + c + b == a + c;
    } else {
      assert a + b + c == a + b && a + c == a;
    }
  }

  /** Inserting `x` places it after every post of equal key that was already there. */
  lemma {:induction false} InsertStable(t: seq<Post>, x: Post, sortBy: string, key: string)
    ensures WithKey(Insert(t, x, sortBy), sortBy, key) == WithKey(t, sortBy, key) + WithKey([x], sortBy, key)
    decreases |t|
  {
    if t == [] {
      assert [x] == [] + [x];
    } else if Compare(sortBy, t[|t| - 1], x) <= 0 {
      WithKeyConcat(t, [x], sortBy, key);
    } else {
      var init, last := t[..|t| - 1], t[|t| - 1];
      var u := Insert(init, x, sortBy);
      assert t == init + [last];
      assert Insert(t, x, sortBy) == u + [last];
      var wi, wx, wl := WithKey(init, sortBy, key), WithKey([x], sortBy, key), WithKey([last], sortBy, key);
      assert wx == [] || wl == [] by {
        WithKeySingle(x, sortBy, key);
        WithKeySingle(last, sortBy, key);
      }
      calc {
        WithKey(Insert(t, x, sortBy), sortBy, key);
        { WithKeyConcat(u, [last], sortBy, key); }
        WithKey(u, sortBy, key) + wl;
        { InsertStable(init, x, sortBy, key); }
        wi + wx + wl;
        { SwapAroundEmpty(wi, wx, wl); }
        wi + wl + wx;
        { WithKeyConcat(init, [last], sortBy, key); }
        WithKey(t, sortBy, key) + wx;
      }
    }
  }

  /** The sort is stable: posts with equal sort keys keep their relative order. */
  lemma {:induction false} SortPostsStable(s: seq<Post>, sortBy: string, key: string)
    ensures WithKey(SortPosts(s, sortBy), sortBy, key) == WithKey(s, sortBy, key)
  {
    if s != [] {
      var init, last := s[..|s| - 1], s[|s| - 1];
      assert s == init + [last];
      assert SortPosts(s, sortBy) == Insert(SortPosts(init, sortBy), last, sortBy);
      SortPostsStable(init, sortBy, key);
      InsertStable(SortPosts(init, sortBy), last, sortBy, key);
      WithKeyConcat(init, [last], sortBy, key);
    }
  }

  /** `sortedPosts`: the filtered posts, sorted; exactly the matching posts, each as often as in the input. */
  function SortedPosts(posts: seq<Post>, query: string, sortBy: string): (r: seq<Post>)
    ensures multiset(r) == multiset(SearchFilter(posts, query))
    ensures |r| == |SearchFilter(posts, query)|
    ensures forall p :: p in r <==> p in posts && MatchesQuery(p, query)
  {
    var r := SortPosts(SearchFilter(posts, query), sortBy);
    assert forall p :: p in r <==> p in multiset(r);
    r
  }
}

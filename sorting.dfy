/** `_sortPostsBy` (js/app.js:53-55): the comparator it hands to Array.prototype.sort and
    the sort itself. Array.prototype.sort is host code; it is modelled by a stable
    insertion sort, which is what the language standard requires of it. */
module Sorting {
  import opened Posts
  import opened Text

  /** The column's key of two posts is the same. */
  predicate KeyEqual(c: Column, a: Post, b: Post) {
    match c
    case Id => a.id == b.id
    case UserId => a.userId == b.userId
    case Title => a.title == b.title
    case Body => a.body == b.body
  }

  /** The order each column is meant to be sorted in, stated on the keys themselves:
      numeric for `id` and `userId`, lexicographic for `title` and `body`; `a` no greater
      than `b` when ascending, no smaller when descending. */
  ghost predicate KeyInOrder(c: Column, asc: bool, a: Post, b: Post) {
    match c
    case Id => if asc then a.id <= b.id else a.id >= b.id
    case UserId => if asc then a.userId <= b.userId else a.userId >= b.userId
    case Title => if asc then LexLe(a.title, b.title) else LexLe(b.title, a.title)
    case Body => if asc then LexLe(a.body, b.body) else LexLe(b.body, a.body)
  }

  /** The comparator of `_sortPostsBy`: numeric difference for `id` and `userId`,
      `localeCompare` for `title` and `body`, operands swapped for descending order.
      Negative means `a` goes first; it is zero exactly for a tie, that is, equal keys. */
  function Compare(c: Column, asc: bool, a: Post, b: Post): (r: int)
    ensures r == 0 <==> KeyEqual(c, a, b)
  {
    match c
    case Id => if asc then a.id - b.id else b.id - a.id
    case UserId => if asc then a.userId - b.userId else b.userId - a.userId
    case Title => if asc then LocaleCompare(a.title, b.title) else LocaleCompare(b.title, a.title)
    case Body => if asc then LocaleCompare(a.body, b.body) else LocaleCompare(b.body, a.body)
  }

  /** `a` may stand before `b` in a list sorted with the comparator: exactly when their
      keys are in the column's intended order. */
  predicate InOrder(c: Column, asc: bool, a: Post, b: Post)
    ensures InOrder(c, asc, a, b) <==> KeyInOrder(c, asc, a, b)
  {
    LocaleCompareIsLex(a.title, b.title);
    LocaleCompareIsLex(b.title, a.title);
    LocaleCompareIsLex(a.body, b.body);
    LocaleCompareIsLex(b.body, a.body);
    Compare(c, asc, a, b) <= 0
  }

  /** Any two posts can be placed one way or the other. */
  lemma InOrderTotal(c: Column, asc: bool, a: Post, b: Post)
    ensures InOrder(c, asc, a, b) || InOrder(c, asc, b, a)
  {
    match c
    case Id =>
    case UserId =>
    case Title => LocaleCompareAntisymmetric(a.title, b.title);
    case Body => LocaleCompareAntisymmetric(a.body, b.body);
  }

  lemma InOrderTransitive(c: Column, asc: bool, a: Post, b: Post, d: Post)
    requires InOrder(c, asc, a, b) && InOrder(c, asc, b, d)
    ensures InOrder(c, asc, a, d)
  {
    match c
    case Id =>
    case UserId =>
    case Title =>
      if asc { LocaleCompareTransitive(a.title, b.title, d.title); }
      else { LocaleCompareTransitive(d.title, b.title, a.title); }
    case Body =>
      if asc { LocaleCompareTransitive(a.body, b.body, d.body); }
      else { LocaleCompareTransitive(d.body, b.body, a.body); }
  }

  /** Every earlier post is in order with every later one. */
  ghost predicate Sorted(c: Column, asc: bool, s: seq<Post>) {
    forall i, j :: 0 <= i < j < |s| ==> InOrder(c, asc, s[i], s[j])
  }

  /** A post in order with every post of a sorted list can head it. */
  lemma SortedCons(c: Column, asc: bool, x: Post, s: seq<Post>)
    requires Sorted(c, asc, s)
    requires forall y :: y in s ==> InOrder(c, asc, x, y)
    ensures Sorted(c, asc, [x] + s)
  {
    var r := [x] + s;
    forall i, j | 0 <= i < j < |r| ensures InOrder(c, asc, r[i], r[j]) {
      if i > 0 { assert r[i] == s[i - 1] && r[j] == s[j - 1]; }
      else { assert r[j] == s[j - 1] && s[j - 1] in s; }
    }
  }

  /** The tail of a sorted list is sorted, and its head is in order with all of it. */
  lemma SortedTail(c: Column, asc: bool, s: seq<Post>)
    requires Sorted(c, asc, s) && s != []
    ensures Sorted(c, asc, s[1..])
    ensures forall y :: y in s[1..] ==> InOrder(c, asc, s[0], y)
  {
    forall i, j | 0 <= i < j < |s[1..]| ensures InOrder(c, asc, s[1..][i], s[1..][j]) {
      assert s[1..][i] == s[i + 1] && s[1..][j] == s[j + 1];
    }
    forall y | y in s[1..] ensures InOrder(c, asc, s[0], y) {
      var k :| 0 <= k < |s[1..]| && s[1..][k] == y;
      assert s[k + 1] == y;
    }
  }

  /** Places `x` before the first post it is in order with; equal keys keep `x` first. */
  function Insert(c: Column, asc: bool, x: Post, s: seq<Post>): (r: seq<Post>)
    ensures |r| == |s| + 1
    ensures multiset(r) == multiset(s) + multiset{x}
  {
    if s == [] then [x]
    else if InOrder(c, asc, x, s[0]) then [x] + s
    else
      assert s == [s[0]] + s[1..];
      [s[0]] + Insert(c, asc, x, s[1..])
  }

  /** The list `_sortPostsBy(c, asc)` leaves in the store. */
  function SortBy(c: Column, asc: bool, s: seq<Post>): (r: seq<Post>)
    ensures |r| == |s|
    ensures multiset(r) == multiset(s)
  {
    if s == [] then []
    else
      assert s == [s[0]] + s[1..];
      Insert(c, asc, s[0], SortBy(c, asc, s[1..]))
  }

  lemma {:induction false} InsertSorted(c: Column, asc: bool, x: Post, s: seq<Post>)
    requires Sorted(c, asc, s)
    ensures Sorted(c, asc, Insert(c, asc, x, s))
  {
    if s == [] {
    } else if InOrder(c, asc, x, s[0]) {
      forall j | 0 < j < |s| ensures InOrder(c, asc, x, s[j]) {
        InOrderTransitive(c, asc, x, s[0], s[j]);
      }
    } else {
      InOrderTotal(c, asc, x, s[0]);
      var rest := Insert(c, asc, x, s[1..]);
      InsertSorted(c, asc, x, s[1..]);
      SortedTail(c, asc, s);
      forall y | y in rest ensures InOrder(c, asc, s[0], y) {
        assert y in multiset(rest);
        if y != x { assert y in multiset(s[1..]); }
      }
      SortedCons(c, asc, s[0], rest);
    }
  }

  /** After `_sortPostsBy(c, asc)` the list is ordered by the comparator. */
  lemma {:induction false} SortBySorted(c: Column, asc: bool, s: seq<Post>)
    ensures Sorted(c, asc, SortBy(c, asc, s))
  {
    if s != [] {
      SortBySorted(c, asc, s[1..]);
      InsertSorted(c, asc, s[0], SortBy(c, asc, s[1..]));
    }
  }

  /** A list already in order is left exactly as it is. */
  lemma {:induction false} SortByOfSorted(c: Column, asc: bool, s: seq<Post>)
    requires Sorted(c, asc, s)
    ensures SortBy(c, asc, s) == s
  {
    if s != [] {
      SortedTail(c, asc, s);
      SortByOfSorted(c, asc, s[1..]);
      assert s == [s[0]] + s[1..];
    }
  }

  /** Asking twice for the same column and direction orders the list as asking once. */
  lemma SortByIdempotent(c: Column, asc: bool, s: seq<Post>)
    ensures SortBy(c, asc, SortBy(c, asc, s)) == SortBy(c, asc, s)
  {
    SortBySorted(c, asc, s);
    SortByOfSorted(c, asc, SortBy(c, asc, s));
  }

  /** After `_sortPostsBy(c, asc)` the keys run non-decreasing when ascending and
      non-increasing otherwise, numerically or lexicographically by column. */
  lemma SortByKeyOrder(c: Column, asc: bool, s: seq<Post>)
    ensures var r := SortBy(c, asc, s);
      forall i, j :: 0 <= i < j < |r| ==> KeyInOrder(c, asc, r[i], r[j])
  {
    var r := SortBy(c, asc, s);
    SortBySorted(c, asc, s);
    forall i, j | 0 <= i < j < |r| ensures KeyInOrder(c, asc, r[i], r[j]) {
      assert InOrder(c, asc, r[i], r[j]);
    }
  }
}

/** `_setInitialPosts` (js/app.js:32-37) and `filterPosts` (js/app.js:56-67): both rebuild
    the list with `map`, copying every record and setting only its `isCorrect` mark. */
module Filtering {
  import opened Posts
  import opened Text
  import opened Sorting

  /** Queries shorter than this, in UTF-16 code units, clear the filter instead of
      applying it. */
  const MinQueryLength := 3

  /** The per-record test of `filterPosts`: `title.indexOf(q) >= 0 || body.indexOf(q) >= 0`. */
  function Matches(p: Post, query: string): (b: bool)
    ensures b <==> Contains(p.title, query) || Contains(p.body, query)
  {
    IndexOf(p.title, query) >= 0 || IndexOf(p.body, query) >= 0
  }

  /** `_setInitialPosts`: every record is copied and marked as matching. */
  function MarkAll(ps: seq<Post>): (r: seq<Post>)
    ensures |r| == |ps|
    ensures forall i :: 0 <= i < |ps| ==> SameRecord(r[i], ps[i]) && r[i].isCorrect
  {
    seq(|ps|, i requires 0 <= i < |ps| => ps[i].(isCorrect := true))
  }

  /** The `map` branch of `filterPosts`: every record is copied and marked with whether
      the query occurs in it. */
  function MarkMatches(ps: seq<Post>, query: string): (r: seq<Post>)
    ensures |r| == |ps|
    ensures forall i :: 0 <= i < |ps| ==>
      SameRecord(r[i], ps[i]) && (r[i].isCorrect <==> Contains(ps[i].title, query) || Contains(ps[i].body, query))
  {
    seq(|ps|, i requires 0 <= i < |ps| => ps[i].(isCorrect := Matches(ps[i], query)))
  }

  /** The list `filterPosts(query)` leaves in the store. Order, length and every field
      but the mark are kept; a short query marks everything, a longer one marks exactly
      the records whose title or body contains it. */
  function Refilter(ps: seq<Post>, query: string): (r: seq<Post>)
    ensures |r| == |ps|
    ensures forall i :: 0 <= i < |ps| ==> SameRecord(r[i], ps[i])
    ensures forall i :: 0 <= i < |ps| ==>
      (r[i].isCorrect <==>
        JsLength(query) < MinQueryLength || Contains(ps[i].title, query) || Contains(ps[i].body, query))
  {
    if JsLength(query) < MinQueryLength then MarkAll(ps) else MarkMatches(ps, query)
  }

  /** Applying the same query again changes nothing. */
  lemma RefilterIdempotent(ps: seq<Post>, query: string)
    ensures Refilter(Refilter(ps, query), query) == Refilter(ps, query)
  {
    var r, r' := Refilter(ps, query), Refilter(Refilter(ps, query), query);
    forall i | 0 <= i < |ps| ensures r'[i] == r[i] { }
  }

  /** Clearing the query after any filter marks every record again: the filter leaves no
      trace beyond the marks. */
  lemma ShortQueryResets(ps: seq<Post>, query: string, short: string)
    requires JsLength(short) < MinQueryLength
    ensures Refilter(Refilter(ps, query), short) == MarkAll(ps)
  {
    var r, m := Refilter(Refilter(ps, query), short), MarkAll(ps);
    forall i | 0 <= i < |ps| ensures r[i] == m[i] { }
  }

  /** The threshold counts code units: "😀a" is two scalar values but three code units,
      so it filters (here, unmarking a post that contains it nowhere) instead of resetting. */
  lemma AstralQueryFilters()
    ensures |"\U{1F600}a"| == 2 && JsLength("\U{1F600}a") == 3
    ensures !Refilter([Post(1, 1, "x", "y", false)], "\U{1F600}a")[0].isCorrect
  {
    assert JsLength("a") == 1;
  }

  /** Filtering does not disturb the order of a sorted list: the comparator reads only
      the fields the filter copies. */
  lemma RefilterKeepsSorted(c: Column, asc: bool, ps: seq<Post>, query: string)
    requires Sorted(c, asc, ps)
    ensures Sorted(c, asc, Refilter(ps, query))
  {
    var r := Refilter(ps, query);
    forall i, j | 0 <= i < j < |r| ensures InOrder(c, asc, r[i], r[j]) {
      assert Compare(c, asc, r[i], r[j]) == Compare(c, asc, ps[i], ps[j]);
    }
  }
}

/** The record store: class Model of js/app.js. Its state is the list of posts and the
    table of sort flags; every mutator replaces one of them wholesale. */
module RecordStore {
  import opened Posts
  import opened Sorting
  import opened Filtering
  import opened Text

  class Model {
    var posts: seq<Post>
    var sortFlags: Flags

    /** An empty list, every column inactive and descending (js/app.js:4-28). */
    constructor ()
      ensures posts == [] && sortFlags == InitialFlags()
    {
      posts := [];
      sortFlags := InitialFlags();
    }

    /** Stores the decoded records, each marked as matching. */
    method SetInitialPosts(data: seq<Post>)
      modifies this
      ensures posts == MarkAll(data) && sortFlags == old(sortFlags)
    {
      posts := MarkAll(data);
    }

    /** The full list, marks included, in the current order. */
    method GetPosts() returns (r: seq<Post>)
      ensures r == posts
    {
      r := posts;
    }

    method GetSortFlags() returns (r: Flags)
      ensures r == sortFlags
    {
      r := sortFlags;
    }

    /** A known column gets `{isActive: true, isASC: asc}` and the list is re-sorted by
        it; the other entries stay as they were. An unknown name changes nothing. */
    method SetSortFlag(name: string, asc: bool)
      modifies this
      ensures name !in ColumnNames ==> posts == old(posts) && sortFlags == old(sortFlags)
      ensures name in ColumnNames ==>
        var c := ColumnOf(name).value;
        sortFlags == WithFlag(old(sortFlags), c, Flag(true, asc)) &&
        posts == SortBy(c, asc, old(posts)) &&
        Sorted(c, asc, posts) && multiset(posts) == multiset(old(posts))
      ensures sortFlags == SetFlagByName(old(sortFlags), name, asc)
    {
      match ColumnOf(name)
      case None =>
      case Some(c) =>
        sortFlags := WithFlag(sortFlags, c, Flag(true, asc));
        SortPostsBy(c, asc);
    }

    /** Replaces the list by its sorted permutation for the given column and direction. */
    method SortPostsBy(c: Column, asc: bool)
      modifies this
      ensures posts == SortBy(c, asc, old(posts)) && sortFlags == old(sortFlags)
      ensures Sorted(c, asc, posts) && multiset(posts) == multiset(old(posts))
    {
      SortBySorted(c, asc, posts);
      posts := SortBy(c, asc, posts);
    }

    /** A query shorter than three UTF-16 code units marks every post again; a longer
        one marks exactly the posts whose title or body contains it. Order is kept. */
    method FilterPosts(query: string)
      modifies this
      ensures posts == Refilter(old(posts), query) && sortFlags == old(sortFlags)
    {
      if JsLength(query) < MinQueryLength {
        SetInitialPosts(posts);
      } else {
        posts := MarkMatches(posts, query);
      }
    }
  }
}

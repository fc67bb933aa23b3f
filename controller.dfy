/** The update orchestrator: class Controller of js/app.js (lines 69-97). It forwards each
    gesture to the store and hands the view a fresh snapshot of the store's state. */
module Control {
  import opened Posts
  import opened Sorting
  import opened Filtering
  import opened RecordStore

  /** The records of a list that are marked `isCorrect`, in list order (the `filter`
      of `Controller.getPosts`). */
  function Visible(ps: seq<Post>): (r: seq<Post>)
    ensures |r| <= |ps|
    ensures forall i :: 0 <= i < |r| ==> r[i].isCorrect
  {
    if ps == [] then [] else (if ps[0].isCorrect then [ps[0]] else []) + Visible(ps[1..])
  }

  /** Every marked record is kept as often as it is stored; no unmarked one is kept. */
  lemma {:induction false} VisibleCounts(ps: seq<Post>)
    ensures forall p :: multiset(Visible(ps))[p] == if p.isCorrect then multiset(ps)[p] else 0
  {
    if ps != [] {
      assert ps == [ps[0]] + ps[1..];
      VisibleCounts(ps[1..]);
    }
  }

  /** `Controller.getPosts`: null (here `None`) for an empty store, otherwise the
      records marked `isCorrect`, each as often as it is stored. */
  function GetPosts(ps: seq<Post>): (r: Option<seq<Post>>)
    ensures r.None? <==> ps == []
    ensures r.Some? ==> forall p :: p in r.value <==> p in ps && p.isCorrect
    ensures r.Some? ==> forall p :: multiset(r.value)[p] == if p.isCorrect then multiset(ps)[p] else 0
  {
    if |ps| > 0 then
      var v := Visible(ps);
      VisibleCounts(ps);
      assert forall p :: p in v <==> p in multiset(v);
      Some(v)
    else None
  }

  /** The visible records of a concatenation are those of each part, in the same order:
      together with the one-record case this fixes `Visible` as the in-order filter. */
  lemma {:induction false} VisibleAppend(a: seq<Post>, b: seq<Post>)
    ensures Visible(a + b) == Visible(a) + Visible(b)
  {
    if a != [] {
      var head := if a[0].isCorrect then [a[0]] else [];
      assert (a + b)[0] == a[0] && (a + b)[1..] == a[1..] + b;
      assert Visible(a + b) == head + Visible(a[1..] + b);
      assert Visible(a) == head + Visible(a[1..]);
      VisibleAppend(a[1..], b);
    } else {
      assert a + b == b;
    }
  }

  lemma VisibleOne(p: Post)
    ensures Visible([p]) == if p.isCorrect then [p] else []
  {
    assert [p][1..] == [];
  }

  /** Hiding records keeps the remaining ones in order. */
  lemma {:induction false} VisibleKeepsSorted(c: Column, asc: bool, ps: seq<Post>)
    requires Sorted(c, asc, ps)
    ensures Sorted(c, asc, Visible(ps))
  {
    if ps != [] {
      SortedTail(c, asc, ps);
      VisibleKeepsSorted(c, asc, ps[1..]);
      var rest := Visible(ps[1..]);
      if ps[0].isCorrect {
        VisibleCounts(ps[1..]);
        forall y | y in rest ensures InOrder(c, asc, ps[0], y) {
          assert y in multiset(rest);
          assert y in multiset(ps[1..]);
        }
        SortedCons(c, asc, ps[0], rest);
      }
    }
  }

  /** Filtering after sorting shows the matching records in the sorted order. */
  lemma FilterAfterSortShowsSorted(c: Column, asc: bool, ps: seq<Post>, query: string)
    ensures Sorted(c, asc, Visible(Refilter(SortBy(c, asc, ps), query)))
  {
    SortBySorted(c, asc, ps);
    RefilterKeepsSorted(c, asc, SortBy(c, asc, ps), query);
    VisibleKeepsSorted(c, asc, Refilter(SortBy(c, asc, ps), query));
  }

  /** What `_updateView` hands the view: the flags and the visible records. */
  datatype ViewData = ViewData(sortFlags: Flags, posts: Option<seq<Post>>)

  class Controller {
    const model: Model

    /** Wires the controller to its store; the initial fetch is not part of the model. */
    constructor (model: Model)
      ensures this.model == model
    {
      this.model := model;
    }

    /** `filterPostsByString`: filters the store, then renders its new state. */
    method FilterPostsByString(query: string) returns (v: ViewData)
      modifies model
      ensures model.posts == Refilter(old(model.posts), query)
      ensures model.sortFlags == old(model.sortFlags)
      ensures v == ViewData(model.sortFlags, GetPosts(model.posts))
    {
      model.FilterPosts(query);
      v := UpdateView();
    }

    /** `orderPostsBy`: sets the sort flag (re-sorting the store), then renders. */
    method OrderPostsBy(name: string, asc: bool) returns (v: ViewData)
      modifies model
      ensures name !in ColumnNames ==> model.posts == old(model.posts)
      ensures name in ColumnNames ==> model.posts == SortBy(ColumnOf(name).value, asc, old(model.posts))
      ensures model.sortFlags == SetFlagByName(old(model.sortFlags), name, asc)
      ensures v == ViewData(model.sortFlags, GetPosts(model.posts))
    {
      model.SetSortFlag(name, asc);
      v := UpdateView();
    }

    /** `_updateView`: the snapshot passed to the view's `processData`. */
    method UpdateView() returns (v: ViewData)
      ensures v == ViewData(model.sortFlags, GetPosts(model.posts))
    {
      var flags := model.GetSortFlags();
      var all := model.GetPosts();
      v := ViewData(flags, GetPosts(all));
    }
  }

  /** The worked example: two posts sorted by ascending id come out as ids 1, 2; the
      query "foo" then matches both (the first in its title, the second in its body) and
      the order stays 1, 2. */
  lemma SortThenFilterExample()
    ensures var ps := [Post(2, 1, "foo bar", "x", true), Post(1, 1, "baz", "foo", true)];
      var sorted := SortBy(Id, true, ps);
      var filtered := Refilter(sorted, "foo");
      |filtered| == 2 && filtered[0].id == 1 && filtered[1].id == 2 &&
      filtered[0].isCorrect && filtered[1].isCorrect
  {
    var ps := [Post(2, 1, "foo bar", "x", true), Post(1, 1, "baz", "foo", true)];
    var sorted := SortBy(Id, true, ps);
    assert sorted == [ps[1], ps[0]];
    Text.OccursAtWitness("foo", "foo", 0);
    Text.OccursAtWitness("foo", "foo bar", 0);
  }
}

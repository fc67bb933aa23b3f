/** The one piece of logic in class View of js/app.js: a header click asks the controller
    for the opposite of the column's current direction (lines 150-168). The view's
    `sortFlags` is the store's own table object, so the click reads the current flags. */
module View {
  import opened Posts
  import opened Sorting
  import opened Control

  /** The direction a click on column `c`'s header requests, `!sortFlags[c].isASC`:
      storing it for `c` flips the column's stored direction. */
  function ClickRequest(flags: Flags, c: Column): (asc: bool)
    ensures FlagOf(SetFlagByName(flags, ColumnName(c), asc), c).isASC != FlagOf(flags, c).isASC
  {
    !FlagOf(flags, c).isASC
  }

  /** The flag table after one click on column `c`'s header: the column is active with
      the opposite direction, no other column changes, and the next click on it therefore
      asks for the opposite again. */
  function AfterClick(flags: Flags, c: Column): (r: Flags)
    ensures FlagOf(r, c) == Flag(true, !FlagOf(flags, c).isASC)
    ensures forall d :: d != c ==> FlagOf(r, d) == FlagOf(flags, d)
    ensures ClickRequest(r, c) == !ClickRequest(flags, c)
  {
    SetFlagByName(flags, ColumnName(c), ClickRequest(flags, c))
  }

  /** The flag table after `n` clicks on the same header: after at least one click the
      column is active, and the other columns are never touched. */
  function AfterClicks(flags: Flags, c: Column, n: nat): (r: Flags)
    ensures n > 0 ==> FlagOf(r, c).isActive
    ensures forall d :: d != c ==> FlagOf(r, d) == FlagOf(flags, d)
  {
    if n == 0 then flags else AfterClick(AfterClicks(flags, c, n - 1), c)
  }

  /** Since every column starts descending, the first click on any header asks for
      ascending order. */
  lemma FirstClickAscending(c: Column)
    ensures ClickRequest(InitialFlags(), c)
    ensures FlagOf(AfterClick(InitialFlags(), c), c) == Flag(true, true)
  {
  }

  /** Repeated clicks on one header alternate, starting with ascending: the click after
      `n` others asks for ascending exactly when `n` is even. */
  lemma {:induction false} ClicksAlternate(c: Column, n: nat)
    ensures ClickRequest(AfterClicks(InitialFlags(), c, n), c) == (n % 2 == 0)
  {
    if n > 0 {
      ClicksAlternate(c, n - 1);
    }
  }

  /** `_handle*Click`: requests the toggled direction for the clicked column. */
  method HandleHeaderClick(ctl: Controller, c: Column) returns (v: ViewData)
    modifies ctl.model
    ensures ctl.model.sortFlags == AfterClick(old(ctl.model.sortFlags), c)
    ensures ctl.model.posts == SortBy(c, !FlagOf(old(ctl.model.sortFlags), c).isASC, old(ctl.model.posts))
    ensures v == ViewData(ctl.model.sortFlags, GetPosts(ctl.model.posts))
  {
    v := ctl.OrderPostsBy(ColumnName(c), ClickRequest(ctl.model.sortFlags, c));
  }
}

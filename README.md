# Posts table: the record store, in Dafny

This project models the record store of the posts table widget (`js/app.js`). The store
is the `Model` class. It holds a list of post records `{id, userId, title, body, isCorrect}`
and a table of sort flags `{isActive, isASC}` for the four columns `id`, `userId`, `title`
and `body`. The model also covers the parts of `Controller` and `View` that compute from
that state: `Controller.getPosts`, the snapshot `_updateView` hands to the view, and the
header-click rule that asks for the opposite of a column's current direction.

Layout, one module per file:

- `posts.dfy` (`Posts`): the post record, the columns, and the flag table as a datatype
  with exactly four entries. It also holds the guarded flag update of `setSortFlag`, both
  corrected and as written (see Findings).
- `text.dfy` (`Text`): `length` counted in UTF-16 code units, `localeCompare` as
  lexicographic order on code points, proved to agree with a direct definition of
  lexicographic order, and `indexOf`, proved to find the first occurrence of a substring.
- `sorting.dfy` (`Sorting`): the comparator of `_sortPostsBy` and the sort.
  `Array.prototype.sort` is host code. It is modelled as a stable insertion sort, since
  the language standard requires the host sort to be stable. The file proves the result
  is sorted, is a permutation, orders keys as each column intends, and that sorting is
  idempotent.
- `filtering.dfy` (`Filtering`): `_setInitialPosts` and `filterPosts` as functions on the
  list. Each keeps order, length and every field except `isCorrect`, and sets
  `isCorrect` by the exact filter rule.
- `store.dfy` (`RecordStore`): class `Model` with fields `posts` and `sortFlags`. Its
  mutators reassign those fields, and their postconditions tie the new state to the
  functions above.
- `controller.dfy` (`Control`): `Controller.getPosts` (null for an empty store, otherwise
  the marked records in store order) and class `Controller` with `orderPostsBy`,
  `filterPostsByString` and `_updateView`.
- `view.dfy` (`View`): the header-click toggle and its alternation over repeated clicks.

The filter mark keeps the code's name, `isCorrect`. The guard of `setSortFlag` is modelled
twice. As written, `this.getSortFlags()[flagName]` is a truthiness lookup, and it also
passes for names every object inherits from `Object.prototype`, such as "toString". That
version works on the flag table seen as a string-keyed object (`Posts.SetFlagAsWritten`),
and `Posts.InheritedNameNotIgnored` exhibits the difference. The `Model` class, the
controller and the view use the corrected guard (`Posts.ColumnOf`), which accepts only the
four column names (see Findings).

## Model

| member | source | states |
|---|---|---|
| Posts.InitialFlags | js/app.js:9-26 | the initial table holds `{isActive: false, isASC: false}` for every column |
| Posts.ColumnOf | js/app.js:42 | a name resolves to a column exactly when it is one of the four column names, and then to the column carrying that name |
| Posts.WithFlag | js/app.js:43-46 | overwriting one column's entry sets that entry and leaves the other three unchanged |
| Posts.SetFlagByName | js/app.js:41-49 | the flag update of `setSortFlag`: an unknown name leaves the table unchanged; a known name sets that column to `{isActive: true, isASC}` and every other column keeps its entry (none is forced inactive) |
| Posts.AsTable | js/app.js:9-26 | the flag table as an object has exactly the four column names as keys, each mapped to its column's entry |
| Posts.SetFlagByNameTable | js/app.js:42-46 | seen as an object, the corrected update keeps exactly the four keys and overwrites only the entry of a known name |
| Posts.SetFlagAsWritten | js/app.js:42-43 | as written, the guard accepts an own key or an inherited `Object.prototype` name, and an accepted name becomes a key of the table |
| Posts.InheritedNameNotIgnored | js/app.js:42-47 | "toString" is not a column, yet the as-written update adds it as a fifth key, which the corrected update does not |
| Text.JsLength | js/app.js:57 | `length` counts UTF-16 code units: at least the number of scalar values, at most twice that, and equal to it exactly when no scalar value lies above U+FFFF |
| Text.LocaleCompare | js/app.js:54 | the string comparison yields -1, 0 or 1, and 0 exactly for equal strings |
| Text.LocaleCompareIsLex | js/app.js:54 | the comparison is at most 0 exactly when the first string is a prefix of the second or is smaller at the first position where they differ |
| Text.LocaleCompareAntisymmetric | js/app.js:54 | swapping the operands negates the comparison |
| Text.LocaleCompareTransitive | js/app.js:54 | "sorts no later than" is transitive |
| Text.IndexOfFrom | js/app.js:58 | searching from a position inside the string, the result is -1 or a position at or after the start where the query occurs, and no earlier position from the start holds an occurrence |
| Text.IndexOf | js/app.js:58 | `indexOf` is non-negative exactly when the query is a substring, and it then gives the first occurrence |
| Sorting.Compare | js/app.js:54 | the comparator of `_sortPostsBy` (numeric difference or `localeCompare`, operands swapped when descending) is zero exactly when the two posts tie on the column's key |
| Sorting.InOrder | js/app.js:54 | the comparator puts `a` no later than `b` exactly when their keys are in the column's order: numeric for id and userId, lexicographic for title and body, reversed when descending |
| Sorting.InOrderTotal | js/app.js:54 | any two posts are in order one way or the other under each column's comparator and direction |
| Sorting.InOrderTransitive | js/app.js:54 | the comparator's order is transitive |
| Sorting.Insert | js/app.js:54 | inserting a post adds exactly that post to the multiset of records |
| Sorting.SortBy | js/app.js:54 | the sort is a permutation: the sorted list has the input's length and holds the same multiset of records |
| Sorting.InsertSorted | js/app.js:54 | inserting into a sorted list gives a sorted list |
| Sorting.SortBySorted | js/app.js:54 | after `_sortPostsBy(c, asc)` every earlier post is in order with every later one under the comparator |
| Sorting.SortByOfSorted | js/app.js:54 | a list that is already sorted is left exactly as it is |
| Sorting.SortByIdempotent | js/app.js:54 | sorting twice by the same column and direction gives the same list as sorting once |
| Sorting.SortByKeyOrder | js/app.js:53-55 | after the sort, ids and userIds are non-decreasing when ascending and non-increasing otherwise; titles and bodies are lexicographically non-decreasing when ascending and non-increasing otherwise |
| Filtering.Matches | js/app.js:58 | the per-record test holds exactly when the query is a case-sensitive substring of the title or of the body |
| Filtering.MarkAll | js/app.js:32-37 | `_setInitialPosts` keeps length, order and every other field, and marks every record `isCorrect` |
| Filtering.MarkMatches | js/app.js:57-66 | the mapping branch of `filterPosts` keeps length, order and every other field, and marks a record exactly when the query is in its title or body |
| Filtering.Refilter | js/app.js:56-67 | `filterPosts` keeps length, order and every other field; a record is marked exactly when the query is shorter than 3 UTF-16 code units or occurs in its title or body |
| Filtering.RefilterIdempotent | js/app.js:56-67 | applying the same query twice gives the same list as applying it once |
| Filtering.ShortQueryResets | js/app.js:57 | after any filter, a query shorter than 3 UTF-16 code units restores every mark to true and all else to the original |
| Filtering.AstralQueryFilters | js/app.js:57-58 | the threshold counts code units: "😀a" is two scalar values but three code units, so it filters and unmarks a post that does not contain it |
| Filtering.RefilterKeepsSorted | js/app.js:56-67 | filtering a sorted list leaves it sorted, since filtering never reorders |
| RecordStore.Model.constructor | js/app.js:4-28 | the store starts with no posts and every column `{isActive: false, isASC: false}` |
| RecordStore.Model.SetInitialPosts | js/app.js:32-37 | the stored list becomes the loaded records, each marked `isCorrect`; the flags do not change |
| RecordStore.Model.GetPosts | js/app.js:38-40 | returns the full stored list, unmarked records included, in the current order |
| RecordStore.Model.GetSortFlags | js/app.js:50-52 | returns the current flag table |
| RecordStore.Model.SetSortFlag | js/app.js:41-49 | with the corrected guard, an unknown name changes neither posts nor flags; a known column gets `{isActive: true, isASC}` with the others unchanged, and the list becomes its sorted permutation for that column and direction |
| RecordStore.Model.SortPostsBy | js/app.js:53-55 | the list is replaced by its sorted permutation and the flags are untouched |
| RecordStore.Model.FilterPosts | js/app.js:56-67 | the list is replaced by its re-marked copy (all marked for a query under 3 UTF-16 code units, otherwise marked by containment), with order kept; the flags are untouched |
| Control.Visible | js/app.js:87 | the `filter` on `isCorrect` keeps only marked records and never lengthens the list |
| Control.VisibleCounts | js/app.js:87 | the filter keeps every `isCorrect` record as often as it is stored and drops every other record |
| Control.VisibleAppend | js/app.js:87 | the filter distributes over concatenation, so records keep their store order |
| Control.VisibleOne | js/app.js:87 | a single record is kept exactly when it is marked |
| Control.GetPosts | js/app.js:86-88 | `getPosts` is null exactly when the store is empty; otherwise it holds exactly the marked records of the store, with their multiplicities |
| Control.VisibleKeepsSorted | js/app.js:87 | the visible records of a sorted list are sorted |
| Control.FilterAfterSortShowsSorted | js/app.js:81-84 | after a sort and then any filter, the records shown are still in the sorted order |
| Control.SortThenFilterExample | js/app.js:54-66 | two posts with ids 2 and 1 sort to ids 1, 2; the query "foo" then marks both (one in its title, one in its body) and keeps the order |
| Control.Controller.constructor | js/app.js:70-72 | the controller is wired to the given store |
| Control.Controller.FilterPostsByString | js/app.js:77-80 | performs `filterPosts` on the store (threshold in UTF-16 code units), keeps its flags, and returns the snapshot of the new state |
| Control.Controller.OrderPostsBy | js/app.js:81-84 | performs `setSortFlag` on the store and returns the snapshot of the new state |
| Control.Controller.UpdateView | js/app.js:89-96 | the snapshot holds the current flags and `getPosts` of the current list |
| View.ClickRequest | js/app.js:150-168 | a header click requests `!isASC` for its column, so storing the request flips the column's stored direction |
| View.AfterClick | js/app.js:150-168 | after one click the column is active with the opposite direction, no other column changes, and the next click requests the opposite direction |
| View.AfterClicks | js/app.js:150-168 | after at least one click on a header its column is active, and repeated clicks never touch the other columns |
| View.FirstClickAscending | js/app.js:150-153 | since every flag starts with `isASC` false, the first click on any header requests ascending and activates that column as ascending |
| View.ClicksAlternate | js/app.js:150-168 | starting from the initial flags, the click after n clicks on one header requests ascending exactly when n is even |
| View.HandleHeaderClick | js/app.js:150-168 | a header click sets the toggled flag and re-sorts the store in the toggled direction, then returns the snapshot |

## Left out

- `requestData` and `fetch` (js/app.js:29-31) are network I/O. `SetInitialPosts` takes the decoded records directly. The decoded records have no `isCorrect` field; the model's input list carries one, and `SetInitialPosts` overwrites it.
- The controller constructor's asynchronous `.then` (js/app.js:73-75) is not modelled. A failed fetch leaves the view loading forever; that behaviour is outside the model.
- All DOM work in `View` is not modelled: element creation, `_render`, `_createLine`, the arrow glyphs in `processData`, and the listener detach and re-attach in `_handleEvents` and `_clearTrash`. `window.onload` (js/app.js:183-187) is page wiring and is left out too. The render step is modelled only as the `ViewData` snapshot that `_updateView` passes to the view.
- `localeCompare` is host-defined and locale-aware. It is modelled as plain lexicographic order on code points, with no normalisation.
- Strings are sequences of Unicode scalar values. The filter threshold counts UTF-16 code units, as `length` does (`Text.JsLength`). JavaScript strings may also hold unpaired surrogates, which a scalar-value string cannot represent; such strings are not modelled.
- `id` and `userId` are JavaScript numbers, and the comparator subtracts them as floating point. They are modelled as unbounded integers.
- The unused `inputFocused` field and the `url` constant (js/app.js:5-7) are not modelled.
- The default `isASC = false` parameters of `setSortFlag` and `_sortPostsBy` are not modelled. Every caller passes the direction explicitly.
- RecordStore.Model.SetSortFlag: uses the corrected guard. In the source, `setSortFlag("toString", asc)` adds a "toString" key to the flag table; in the class it changes nothing. The as-written behaviour is modelled only on the string-keyed table, by `Posts.SetFlagAsWritten`.
- RecordStore.Model.SortPostsBy: takes a column, not an arbitrary property name. Its only caller passes a name the guard has already accepted. Under the as-written guard, a name like "toString" reaches the text branch, where every pair compares equal and a stable sort keeps the order.
- Sorting.SortBy: stability is built into the insertion sort. Apart from idempotence and leaving sorted lists unchanged, it is not stated as a separate property.
- Posts.SetFlagAsWritten: covers the inherited method names of `Object.prototype` only. Assigning to `__proto__` replaces the object's prototype instead of adding a key, and is not modelled.
- The view's copies of the `orderPostsBy` and `filterPostsByString` handlers are not modelled. The `ViewData` snapshot does not carry them.

## Findings

| source | as written | input that shows it | evidently intended | confidence | as-written member | corrected member |
|---|---|---|---|---|---|---|
| js/app.js:42 | the guard `this.getSortFlags()[flagName]` is a truthiness lookup, and it is also true for methods inherited from `Object.prototype` | `setSortFlag("toString", true)` adds a fifth key, "toString", to the flag table | names other than the four columns are ignored and the table keeps its four keys | high that the guard admits such names; low impact, since the view passes only the four column names; not executed | Posts.InheritedNameNotIgnored | Posts.SetFlagByName |

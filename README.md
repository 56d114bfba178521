# Household inventory tracker: list logic

This project models the list logic of a two-screen mobile inventory app. The inventory is an ordered list of
items. Each item is an `{id, name, quantity, category}` record, and all four fields are strings.

The home screen (`app/index.js`) covers three operations:
- It derives the displayed list from the inventory, the selected category chips and the search text (`applyFilters`).
- It deletes items by id (`handleDelete`).
- It toggles category chips in and out of the selection.

The add screen (`app/add-item.js`) holds a form: name, quantity, and a category picked from a five-entry menu that
starts on `Uncategorized`. `handleAddItem` rejects the form when the name or the quantity is empty. Otherwise it
appends the new item to the stored list and writes the result back.

All of these computations build new arrays and never mutate one, so they are modelled as functions over
sequences, with lemmas about them:

- `lists.dfy` (module `Lists`): `Array.prototype.filter` as `Filter`. Its contract says that an element is kept
  exactly when it passes the test, and that a kept element keeps all its occurrences. The lemma
  `FilterIsSubsequence` shows the result is a subsequence of the input. Generic lemmas cover concatenation, composition, commutation, idempotence and duplicate-freedom.
- `js_text.dfy` (module `JsText`): `toLowerCase` on ASCII letters, `includes` as substring search, and `trim`,
  using ECMAScript's set of whitespace and line-terminator characters.
- `inventory.dfy` (module `Inventory`): the `Item` record and `Option`. The storage key's value is an
  `Option<seq<Item>>`.
- `home.dfy` (module `Home`): the filter engine, delete, and the chip toggle.
- `add_item.dfy` (module `AddItem`): the form, its category menu, and the add flow.

The search test is active only when the trimmed query is non-empty. The match itself uses the query as typed,
untrimmed. `UntrimmedQueryMatters` shows the effect: with a trailing space, "Milk " no longer finds "Milk".

Four behaviours of the code are easy to misread; the model follows it:
- The selected categories are an array, not a set. A category occurs at most once because the toggle never
  duplicates one.
- The add check rejects only the empty string, so whitespace-only names are accepted.
- Ids are not checked for uniqueness (`AddCanRepeatId`).
- After a delete, the displayed list is the whole updated inventory, not a re-filtered one
  (`DeleteShowsUnfilteredList`).

## Model

| member | source | states |
|---|---|---|
| `Lists.Filter` | app/index.js:41-49 | the result of `filter` is no longer than the input; an element is in it exactly when it is in the input and passes the test; an element that passes keeps all its occurrences |
| `Lists.FilterIsSubsequence` | app/index.js:41-49 | the result of `filter` is a subsequence of the input: relative order is kept |
| `JsText.Lower` | app/index.js:48 | lowercasing keeps the length and maps each character on its own |
| `JsText.Includes` | app/index.js:48 | `includes` always finds the empty string and never finds a string longer than the one searched; the full characterisation is `JsText.IncludesIffOccurs` |
| `JsText.IncludesIffOccurs` | app/index.js:48 | `includes` holds exactly when the query occurs as a contiguous block at some index of the name |
| `JsText.TrimStart` | app/index.js:46 | the result is a suffix of the input, everything dropped is whitespace, and it does not start with whitespace |
| `JsText.TrimEnd` | app/index.js:46 | the result is a prefix of the input, everything dropped is whitespace, and it does not end with whitespace |
| `JsText.Trim` | app/index.js:46 | the trimmed text is the input's middle slice, starting where `TrimStart` stops; everything before and after it is whitespace, and when non-empty it neither starts nor ends with whitespace |
| `JsText.TrimEmptyIffBlank` | app/index.js:46 | `query.trim()` is empty exactly when every character of the query is whitespace |
| `Home.ApplyFilters` | app/index.js:37-53 | the displayed list is no longer than the inventory, and an item is in it exactly when it is in the inventory and passes every active test (`Shown`); order and counts are stated by `Home.ApplyFiltersIsFilter` and `Home.ApplyFiltersSpec` |
| `Home.ApplyFiltersIsFilter` | app/index.js:37-53 | category-then-text filtering equals a single filter by the reference predicate `Shown`: every active test passes, where a test is active for a non-empty selection or a non-blank query |
| `Home.ApplyFiltersSpec` | app/index.js:40-49 | the displayed list is a subsequence of the inventory; an item is displayed exactly when it is in the inventory and its category is selected (if any is) and its lowercased name contains the lowercased untrimmed query (if the query is not blank); displayed items keep all their occurrences |
| `Home.NoActiveFilterIsIdentity` | app/index.js:37-53 | with no selected category and an empty or whitespace-only query, the displayed list is the inventory unchanged |
| `Home.ApplyFiltersComposes` | app/index.js:38-50 | filtering with both tests equals filtering by category alone and then by text alone, in either order |
| `Home.ApplyFiltersIntersect` | app/index.js:40-49 | an item passes both tests exactly when it is in the category-only result and in the text-only result |
| `Home.QueryCaseInsensitive` | app/index.js:46-48 | lowercasing the query beforehand does not change the displayed list |
| `Home.UntrimmedQueryMatters` | app/index.js:46-48 | "Milk" finds an item named "Milk"; "Milk " (trailing space) passes the blank check yet finds nothing |
| `Home.SearchFindsByFragment` | app/index.js:46-49 | the query "mi" finds an item named "Milk" |
| `Home.SelectionKeepsOnlyThatCategory` | app/index.js:40-43 | selecting "Other" over a Food item and an Other item shows only the Other item |
| `Home.RemoveById` | app/index.js:57 | the updated list is a subsequence of the old one; it holds exactly the items whose id differs from the deleted id, with all their occurrences; no item carries the deleted id |
| `Home.RemoveAbsentIsNoop` | app/index.js:57 | deleting an id that no item carries leaves the list unchanged |
| `Home.RemoveIdempotent` | app/index.js:57 | deleting an id twice equals deleting it once |
| `Home.HandleDelete` | app/index.js:55-59 | the inventory becomes the list without the deleted id; the displayed list becomes that same full list; the selection and the search text are untouched |
| `Home.DeleteShowsUnfilteredList` | app/index.js:57-59 | when a remaining item fails an active filter test, the list displayed after a delete differs from what the filter engine would display |
| `Home.ToggleCategory` | app/index.js:82-86 | the pressed category's membership flips; every other category keeps its number of occurrences; a present category is removed entirely, shrinking the list to a subsequence; an absent one is appended at the end after the unchanged old list |
| `Home.ToggleTwiceRestores` | app/index.js:82-86 | toggling an absent category twice restores the original selection list |
| `Home.ToggleTwiceMovesToEnd` | app/index.js:82-86 | toggling a present category twice removes all its occurrences and puts one at the end |
| `Home.ToggleKeepsNoDuplicates` | app/index.js:83-85 | a selection without repeated categories stays without repeats after a toggle |
| `AddItem.InitialForm` | app/add-item.js:8-10 | the form starts with an empty name and quantity and the category `Uncategorized`, which is a menu entry |
| `AddItem.Step` | app/add-item.js:44-75 | typing replaces the name or the quantity with any text and changes nothing else; picking menu entry i sets the category to the i-th menu category and changes nothing else, so a listed category stays listed |
| `AddItem.ReachableCategoryIsListed` | app/add-item.js:10-15 | after any sequence of user actions, the form's category is one of the five menu categories |
| `AddItem.MenuAndChipsAgree` | app/add-item.js:15 | the menu's categories and the home screen's chips (app/index.js:16) are the same five |
| `AddItem.NewItem` | app/add-item.js:23 | the new item carries the given id and exactly the form's name, quantity and category |
| `AddItem.HandleAddItem` | app/add-item.js:17-28 | the notice is shown exactly when the name or the quantity is the empty string, and then storage is unchanged; otherwise the stored list (or `[]`) grows by one, the old list is a prefix, and the last item carries exactly the given id, name, quantity and category |
| `AddItem.AddToEmptyStorage` | app/add-item.js:26-28 | with nothing stored, a successful add stores the one-item list `[newItem]` |
| `AddItem.BlankFieldsAccepted` | app/add-item.js:18 | a non-empty, whitespace-only name and quantity trim to nothing and are still accepted |
| `AddItem.AddedCategoryIsListed` | app/add-item.js:10-28 | an accepted item built from any reachable form has one of the five menu categories |
| `AddItem.AddThenDeleteRestores` | app/add-item.js:28 | appending an item whose id is absent, then deleting that id on the home screen (app/index.js:57), gives back the original list |
| `AddItem.AddCanRepeatId` | app/add-item.js:23-28 | an id that is already stored is not refused: the add produces a list in which two items share that id |

## Left out

- Loading on focus (app/index.js:19-35) is not modelled. It reads the storage key, parses it, and hands it to `applyFilters` through a callback created once. That callback sees the initial empty selection and empty query, so the app never filters a loaded list.
- Changing the search text or toggling a chip does not re-run `applyFilters` in the app. `ApplyFilters` is modelled as a function of its explicit inputs, not of that re-render behaviour.
- Device storage (`getItem`/`setItem`), `async`/`await`, JSON parsing and serialising, and the `console.error` paths are not modelled. The stored value is an `Option<seq<Item>>` parameter and result. A corrupt stored value is not handled by the code, so it is not modelled either.
- `HandleDelete`: models the state right after the in-memory update. The storage write that follows, and its possible failure, are left out.
- The id comes from the clock (`Date.now().toString()`). Here it is a parameter of `HandleAddItem`, with no uniqueness assumed.
- `JsText.Lower`: lowercases only ASCII letters, not full Unicode `toLowerCase`. Strings are sequences of Unicode scalar values rather than UTF-16 code units.
- Rendering, navigation (`router.push`/`back`), opening and closing the category menu, dismissing the notice, and styles are user-interface plumbing and are not modelled. Showing the notice is modelled as `AddResult.notice`.

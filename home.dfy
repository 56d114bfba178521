/** The home screen's list logic (app/index.js): the filter engine that
    derives the displayed items from the inventory, the category selection
    and the search text; deleting an item; and toggling a category chip. */
module Home {
  import opened Lists
  import opened JsText
  import opened Inventory

  /** The category chips, in the order the home screen shows them. */
  const Chips: seq<string> := ["Food", "Cleaning Supplies", "Personal Care", "Other", "Uncategorized"]

  // ---------------------------------------------------------------------
  // Filter engine
  // ---------------------------------------------------------------------

  /** The category test: the item's category is one of the selected ones. */
  predicate InSelection(item: Item, selected: seq<string>)
  {
    item.category in selected
  }

  /** The text test: the lowercased name contains the lowercased query. The
      query is used as typed, surrounding whitespace included. */
  predicate NameMatches(item: Item, query: string)
  {
    Includes(Lower(item.name), Lower(query))
  }

  /** `applyFilters`: first the category test, when some category is
      selected; then the text test, when the query is not blank. */
  function ApplyFilters(data: seq<Item>, selected: seq<string>, query: string): (r: seq<Item>)
    ensures |r| <= |data|
    ensures forall item :: item in r <==> item in data && Shown(item, selected, query)
  {
    TrimEmptyIffBlank(query);
    var byCategory := if |selected| > 0 then Filter(data, item => InSelection(item, selected)) else data;
    if Trim(query) != [] then Filter(byCategory, item => NameMatches(item, query)) else byCategory
  }

  /** Reference definition of what the engine displays: an item is shown when
      it passes every active test. A test is active when there is something
      to test against: a non-empty selection, a non-blank query. */
  predicate Shown(item: Item, selected: seq<string>, query: string)
  {
    (|selected| == 0 || InSelection(item, selected)) && (IsBlank(query) || NameMatches(item, query))
  }

  /** The two-step engine is a single filter by the reference predicate. */
  lemma ApplyFiltersIsFilter(data: seq<Item>, selected: seq<string>, query: string)
    ensures ApplyFilters(data, selected, query) == Filter(data, item => Shown(item, selected, query))
  {
    var inSelection := item => InSelection(item, selected);
    var matches := item => NameMatches(item, query);
    var shown := item => Shown(item, selected, query);
    TrimEmptyIffBlank(query);
    if |selected| > 0 {
      if IsBlank(query) {
        FilterExtensional(data, inSelection, shown);
      } else {
        FilterFilter(data, inSelection, matches, shown);
      }
    } else {
      if IsBlank(query) {
        FilterKeepsAll(data, shown);
      } else {
        FilterExtensional(data, matches, shown);
      }
    }
  }

  /** Soundness and completeness of the engine: the output is a subsequence
      of the input (same relative order); an item is in the output exactly
      when it is in the input and passes every active test; and an item that
      passes keeps all of its occurrences. */
  lemma ApplyFiltersSpec(data: seq<Item>, selected: seq<string>, query: string)
    ensures IsSubsequence(ApplyFilters(data, selected, query), data)
    ensures forall item :: item in ApplyFilters(data, selected, query) <==> item in data && Shown(item, selected, query)
    ensures forall item :: Shown(item, selected, query) ==>
      multiset(ApplyFilters(data, selected, query))[item] == multiset(data)[item]
  {
    ApplyFiltersIsFilter(data, selected, query);
    FilterIsSubsequence(data, item => Shown(item, selected, query));
  }

  /** With no category selected and a blank query, the engine shows the whole
      inventory, unchanged. */
  lemma NoActiveFilterIsIdentity(data: seq<Item>, selected: seq<string>, query: string)
    requires |selected| == 0 && IsBlank(query)
    ensures ApplyFilters(data, selected, query) == data
  {
    TrimEmptyIffBlank(query);
  }

  /** The two tests compose: the engine equals filtering by category alone and
      then by text alone, and equally the other way round. */
  lemma ApplyFiltersComposes(data: seq<Item>, selected: seq<string>, query: string)
    ensures ApplyFilters(data, selected, query) == ApplyFilters(ApplyFilters(data, selected, ""), [], query)
    ensures ApplyFilters(data, selected, query) == ApplyFilters(ApplyFilters(data, [], query), selected, "")
  {
    var shown := item => Shown(item, selected, query);
    var byCategory := item => Shown(item, selected, "");
    var byText := item => Shown(item, [], query);
    assert IsBlank("");
    ApplyFiltersIsFilter(data, selected, query);
    ApplyFiltersIsFilter(data, selected, "");
    ApplyFiltersIsFilter(data, [], query);
    ApplyFiltersIsFilter(Filter(data, byCategory), [], query);
    ApplyFiltersIsFilter(Filter(data, byText), selected, "");
    FilterFilter(data, byCategory, byText, shown);
    FilterCommutes(data, byCategory, byText);
  }

  /** The category-only and the text-only results intersect to the combined
      result. */
  lemma ApplyFiltersIntersect(data: seq<Item>, selected: seq<string>, query: string)
    ensures forall item :: item in ApplyFilters(data, selected, query) <==>
      item in ApplyFilters(data, selected, "") && item in ApplyFilters(data, [], query)
  {
    assert IsBlank("");
  }

  /** The search ignores the case of the query: lowercasing it beforehand
      changes nothing. */
  lemma QueryCaseInsensitive(data: seq<Item>, selected: seq<string>, query: string)
    ensures ApplyFilters(data, selected, Lower(query)) == ApplyFilters(data, selected, query)
  {
    LowerIdempotent(query);
    LowerKeepsBlankness(query);
    ApplyFiltersIsFilter(data, selected, query);
    ApplyFiltersIsFilter(data, selected, Lower(query));
    FilterExtensional(data, item => Shown(item, selected, Lower(query)), item => Shown(item, selected, query));
  }

  /** The query is matched untrimmed: a trailing space makes "Milk " miss the
      item named "Milk", although "Milk" finds it. */
  lemma UntrimmedQueryMatters()
    ensures ApplyFilters([Item("1", "Milk", "2", "Food")], [], "Milk") == [Item("1", "Milk", "2", "Food")]
    ensures ApplyFilters([Item("1", "Milk", "2", "Food")], [], "Milk ") == []
  {
    var milk := Item("1", "Milk", "2", "Food");
    assert Lower("Milk") == "milk";
    assert Lower("Milk ") == "milk ";
    assert Includes("milk", "milk");
    assert !Includes("milk", "milk ") by {
      IncludesIffOccurs("milk", "milk ");
    }
    assert !IsBlank("Milk") by {
      assert !IsWhitespace("Milk"[0]);
    }
    assert !IsBlank("Milk ") by {
      assert !IsWhitespace("Milk "[0]);
    }
    NoActiveFilterIsIdentity([milk], [], "");
    ApplyFiltersIsFilter([milk], [], "Milk");
    ApplyFiltersIsFilter([milk], [], "Milk ");
  }

  /** A lowercase fragment of a name finds the item. */
  lemma SearchFindsByFragment()
    ensures ApplyFilters([Item("1", "Milk", "2", "Food")], [], "mi") == [Item("1", "Milk", "2", "Food")]
  {
    var milk := Item("1", "Milk", "2", "Food");
    assert Lower("Milk") == "milk";
    assert Lower("mi") == "mi";
    assert NameMatches(milk, "mi") by {
      assert "mi" <= "milk";
    }
    assert Shown(milk, [], "mi");
    var r := ApplyFilters([milk], [], "mi");
    assert milk in r && |r| <= 1;
    assert r == [milk] by {
      assert r[0] == milk;
    }
  }

  /** Selecting one category shows only the items of that category. */
  lemma SelectionKeepsOnlyThatCategory()
    ensures ApplyFilters([Item("a", "Rice", "1", "Food"), Item("b", "Tape", "3", "Other")], ["Other"], "")
         == [Item("b", "Tape", "3", "Other")]
  {
    var a := Item("a", "Rice", "1", "Food");
    var b := Item("b", "Tape", "3", "Other");
    var shown := item => Shown(item, ["Other"], "");
    assert IsBlank("");
    ApplyFiltersIsFilter([a, b], ["Other"], "");
    assert !shown(a) && shown(b);
    assert [a, b][1..] == [b] && [b][1..] == [];
    assert Filter([a, b], shown) == Filter([b], shown) == [b];
  }

  // ---------------------------------------------------------------------
  // Delete
  // ---------------------------------------------------------------------

  /** The list `handleDelete` computes: every item whose id is not `id`. */
  function RemoveById(items: seq<Item>, id: string): (r: seq<Item>)
    ensures IsSubsequence(r, items)
    ensures forall item :: item in r <==> item in items && item.id != id
    ensures forall item: Item :: item.id != id ==> multiset(r)[item] == multiset(items)[item]
    ensures !HasId(r, id)
  {
    var r := Filter(items, (item: Item) => item.id != id);
    assert forall i :: 0 <= i < |r| ==> r[i] in r;
    FilterIsSubsequence(items, (item: Item) => item.id != id);
    r
  }

  /** Deleting an id that no item carries leaves the list as it is. */
  lemma RemoveAbsentIsNoop(items: seq<Item>, id: string)
    requires !HasId(items, id)
    ensures RemoveById(items, id) == items
  {
    FilterKeepsAll(items, (item: Item) => item.id != id);
  }

  /** Deleting the same id twice is deleting it once. */
  lemma RemoveIdempotent(items: seq<Item>, id: string)
    ensures RemoveById(RemoveById(items, id), id) == RemoveById(items, id)
  {
    FilterIdempotent(items, (item: Item) => item.id != id);
  }

  /** The state of the home screen that the list logic touches: the loaded
      inventory, the displayed list, the selected chips and the search text. */
  datatype HomeView = HomeView(
    items: seq<Item>,
    filteredItems: seq<Item>,
    selectedCategories: seq<string>,
    searchQuery: string)

  /** `handleDelete` before its write to storage: both the inventory and the
      displayed list become the updated inventory; the selection and the
      search text are kept. */
  function HandleDelete(view: HomeView, id: string): (r: HomeView)
    ensures r.items == RemoveById(view.items, id)
    ensures r.filteredItems == r.items
    ensures r.selectedCategories == view.selectedCategories && r.searchQuery == view.searchQuery
  {
    var updated := RemoveById(view.items, id);
    view.(items := updated, filteredItems := updated)
  }

  /** After a delete the displayed list is not re-filtered: as soon as a
      remaining item fails an active test, the screen shows something other
      than what the filter engine would. */
  lemma DeleteShowsUnfilteredList(view: HomeView, id: string, kept: Item)
    requires kept in view.items && kept.id != id
    requires !Shown(kept, view.selectedCategories, view.searchQuery)
    ensures HandleDelete(view, id).filteredItems
         != ApplyFilters(HandleDelete(view, id).items, view.selectedCategories, view.searchQuery)
  {
    var r := HandleDelete(view, id);
    assert kept in r.filteredItems;
    ApplyFiltersSpec(r.items, view.selectedCategories, view.searchQuery);
  }

  // ---------------------------------------------------------------------
  // Category chip toggle
  // ---------------------------------------------------------------------

  /** Pressing a chip: a selected category is removed (every occurrence of
      it); an unselected one is appended at the end. */
  function ToggleCategory(prev: seq<string>, category: string): (r: seq<string>)
    ensures category in r <==> category !in prev
    ensures forall c :: c != category ==> (c in r <==> c in prev)
    ensures forall c :: c != category ==> multiset(r)[c] == multiset(prev)[c]
    ensures category in prev ==> IsSubsequence(r, prev) && |r| < |prev|
    ensures category !in prev ==> |r| == |prev| + 1 && r[..|prev|] == prev && r[|prev|] == category
  {
    if category in prev then
      var r := Filter(prev, c => c != category);
      FilterShrinks(prev, c => c != category, category);
      FilterIsSubsequence(prev, c => c != category);
      r
    else
      prev + [category]
  }

  /** Toggling an unselected category twice restores the selection. */
  lemma ToggleTwiceRestores(prev: seq<string>, category: string)
    requires category !in prev
    ensures ToggleCategory(ToggleCategory(prev, category), category) == prev
  {
    var keep := c => c != category;
    FilterAppend(prev, [category], keep);
    FilterKeepsAll(prev, keep);
    FilterDropsAll([category], keep);
  }

  /** Toggling a selected category twice moves it to the end, once. */
  lemma ToggleTwiceMovesToEnd(prev: seq<string>, category: string)
    requires category in prev
    ensures ToggleCategory(ToggleCategory(prev, category), category) == Filter(prev, c => c != category) + [category]
  {
  }

  /** A selection without repeated categories stays without them. */
  lemma ToggleKeepsNoDuplicates(prev: seq<string>, category: string)
    requires NoDuplicates(prev)
    ensures NoDuplicates(ToggleCategory(prev, category))
  {
    if category in prev {
      FilterNoDuplicates(prev, c => c != category);
    } else {
      var r := prev + [category];
      forall i, j | 0 <= i < j < |r| ensures r[i] != r[j] {
        if j == |prev| {
          assert r[i] in prev;
        }
      }
    }
  }
}

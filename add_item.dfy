/** The add-item screen (app/add-item.js): the form's state, the category
    menu, and `handleAddItem`, which validates the form and appends the new
    item to the stored inventory. The id (taken from the clock in the
    application) and the stored value are parameters. */
module AddItem {
  import opened Lists
  import opened JsText
  import opened Inventory
  import Home

  /** The categories the menu offers, in its order. */
  const Categories: seq<string> := ["Uncategorized", "Food", "Cleaning Supplies", "Personal Care", "Other"]

  /** The category a fresh form starts with. */
  const DefaultCategory: string := "Uncategorized"

  /** The form's fields as the user has entered them. */
  datatype Form = Form(name: string, quantity: string, category: string)

  /** What the user can do to the form: type into a text field (any text), or
      pick the menu entry at a position of `Categories`. */
  datatype FormEvent = NameTyped(text: string) | QuantityTyped(text: string) | CategoryPicked(index: nat)

  /** Only the entries the menu shows can be picked. */
  predicate ValidEvent(e: FormEvent)
  {
    e.CategoryPicked? ==> e.index < |Categories|
  }

  /** The form when the screen opens. */
  function InitialForm(): (f: Form)
    ensures f.name == "" && f.quantity == ""
    ensures f.category == DefaultCategory && f.category in Categories
  {
    Form("", "", DefaultCategory)
  }

  /** One user action on the form. */
  function Step(f: Form, e: FormEvent): (g: Form)
    requires ValidEvent(e)
    ensures f.category in Categories ==> g.category in Categories
    ensures e.NameTyped? ==> g == f.(name := e.text)
    ensures e.QuantityTyped? ==> g == f.(quantity := e.text)
    ensures e.CategoryPicked? ==> g == f.(category := Categories[e.index])
  {
    match e
    case NameTyped(text) => f.(name := text)
    case QuantityTyped(text) => f.(quantity := text)
    case CategoryPicked(i) => f.(category := Categories[i])
  }

  /** A sequence of user actions, applied in order. */
  function Run(f: Form, events: seq<FormEvent>): Form
    requires forall i :: 0 <= i < |events| ==> ValidEvent(events[i])
    decreases |events|
  {
    if events == [] then f else Run(Step(f, events[0]), events[1..])
  }

  /** Whatever the user does, the form's category is one of the menu's. */
  lemma {:induction false} ReachableCategoryIsListed(f: Form, events: seq<FormEvent>)
    requires f.category in Categories
    requires forall i :: 0 <= i < |events| ==> ValidEvent(events[i])
    ensures Run(f, events).category in Categories
    decreases |events|
  {
    if events != [] {
      ReachableCategoryIsListed(Step(f, events[0]), events[1..]);
    }
  }

  /** Every category the menu offers has a chip on the home screen, and no
      chip is missing from the menu. */
  lemma MenuAndChipsAgree()
    ensures forall c :: c in Categories <==> c in Home.Chips
  {
  }

  /** The item `handleAddItem` builds from the form. */
  function NewItem(f: Form, id: string): (item: Item)
    ensures item.id == id
    ensures item.name == f.name && item.quantity == f.quantity && item.category == f.category
  {
    Item(id, f.name, f.quantity, f.category)
  }

  /** What `handleAddItem` leaves behind: whether the "fill in all fields"
      notice is shown, and the value stored under the inventory key. */
  datatype AddResult = AddResult(notice: bool, stored: Option<seq<Item>>)

  /** `handleAddItem`: rejects the form when the name or the quantity is the
      empty string (no trimming); otherwise appends the new item to the
      stored list, or to `[]` when nothing is stored, and stores the result. */
  function HandleAddItem(f: Form, id: string, stored: Option<seq<Item>>): (r: AddResult)
    ensures r.notice <==> f.name == "" || f.quantity == ""
    ensures r.notice ==> r.stored == stored
    ensures !r.notice ==> r.stored.Some?
    ensures !r.notice ==> |r.stored.value| == |StoredOrEmpty(stored)| + 1
    ensures !r.notice ==> r.stored.value[..|StoredOrEmpty(stored)|] == StoredOrEmpty(stored)
    ensures !r.notice ==> r.stored.value[|StoredOrEmpty(stored)|] == Item(id, f.name, f.quantity, f.category)
  {
    if f.name == "" || f.quantity == "" then
      AddResult(true, stored)
    else
      var items := StoredOrEmpty(stored);
      AddResult(false, Some(items + [NewItem(f, id)]))
  }

  /** With nothing stored, a successful add stores a one-item list. */
  lemma AddToEmptyStorage(f: Form, id: string)
    requires f.name != "" && f.quantity != ""
    ensures HandleAddItem(f, id, None).stored == Some([Item(id, f.name, f.quantity, f.category)])
  {
  }

  /** A name and a quantity made only of whitespace are accepted: they trim
      to nothing, but the check is for the empty string, not for blank text. */
  lemma BlankFieldsAccepted(f: Form, id: string, stored: Option<seq<Item>>)
    requires f.name != "" && IsBlank(f.name)
    requires f.quantity != "" && IsBlank(f.quantity)
    ensures Trim(f.name) == [] && Trim(f.quantity) == []
    ensures !HandleAddItem(f, id, stored).notice
  {
    TrimEmptyIffBlank(f.name);
    TrimEmptyIffBlank(f.quantity);
  }

  /** A form reached from the initial one by any user actions, once accepted,
      stores an item whose category is one of the menu's. */
  lemma AddedCategoryIsListed(events: seq<FormEvent>, id: string, stored: Option<seq<Item>>)
    requires forall i :: 0 <= i < |events| ==> ValidEvent(events[i])
    requires !HandleAddItem(Run(InitialForm(), events), id, stored).notice
    ensures var items := HandleAddItem(Run(InitialForm(), events), id, stored).stored.value;
            items[|items| - 1].category in Categories
  {
    ReachableCategoryIsListed(InitialForm(), events);
  }

  /** Adding an item under an id that no stored item carries, then deleting
      that id on the home screen, gives back the stored list. */
  lemma AddThenDeleteRestores(f: Form, id: string, stored: Option<seq<Item>>)
    requires !HasId(StoredOrEmpty(stored), id)
    requires !HandleAddItem(f, id, stored).notice
    ensures Home.RemoveById(HandleAddItem(f, id, stored).stored.value, id) == StoredOrEmpty(stored)
  {
    var items := StoredOrEmpty(stored);
    var keep := (item: Item) => item.id != id;
    FilterAppend(items, [NewItem(f, id)], keep);
    Home.RemoveAbsentIsNoop(items, id);
    FilterDropsAll([NewItem(f, id)], keep);
  }

  /** Nothing stops an id from being reused: adding under an id that is
      already stored yields a list with a repeated id. */
  lemma AddCanRepeatId(f: Form, id: string, stored: Option<seq<Item>>)
    requires HasId(StoredOrEmpty(stored), id)
    requires f.name != "" && f.quantity != ""
    ensures HasDuplicateIds(HandleAddItem(f, id, stored).stored.value)
  {
    var items := StoredOrEmpty(stored);
    var updated := HandleAddItem(f, id, stored).stored.value;
    var i :| 0 <= i < |items| && items[i].id == id;
    assert updated[i] == items[i] && updated[|items|].id == id;
  }
}

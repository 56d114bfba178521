/** The inventory's data: an item record, and the stored value of the single
    persistence key, which is either absent or a list of items. */
module Inventory {

  datatype Option<T> = None | Some(value: T)

  /** One tracked household good. All four fields are strings, the quantity
      included. */
  datatype Item = Item(id: string, name: string, quantity: string, category: string)

  /** Some item of `items` carries `id`. */
  predicate HasId(items: seq<Item>, id: string)
  {
    exists i :: 0 <= i < |items| && items[i].id == id
  }

  /** Two different positions of `items` carry the same id. */
  predicate HasDuplicateIds(items: seq<Item>)
  {
    exists i, j :: 0 <= i < j < |items| && items[i].id == items[j].id
  }

  /** The list a reader starts from: the stored list, or `[]` when nothing
      is stored under the key. */
  function StoredOrEmpty(stored: Option<seq<Item>>): seq<Item>
  {
    match stored
    case None => []
    case Some(list) => list
  }
}

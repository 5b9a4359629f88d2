/** The one entity of the shopping list: a row of the `shopping_items` table. */
module Items {

  datatype Option<T> = None | Some(value: T)

  /** `ShoppingItem(name, isBought = false, id = 0)`. An id of 0 means "not yet
      assigned": the table gives such an item a fresh id when it is inserted. */
  datatype Item = Item(name: string, isBought: bool, id: int)

  const UnassignedId: int := 0

  /** The item the controller builds for a new name: not bought, id unassigned. */
  function NewItem(name: string): (r: Item)
    ensures r.name == name && !r.isBought && r.id == UnassignedId
  {
    Item(name, false, UnassignedId)
  }

  /** `item.copy(isBought = !item.isBought)` */
  function Toggled(item: Item): (r: Item)
    ensures r.id == item.id && r.name == item.name && r.isBought != item.isBought
  {
    item.(isBought := !item.isBought)
  }

  /** `item.copy(name = newName)` */
  function Renamed(item: Item, newName: string): (r: Item)
    ensures r.id == item.id && r.isBought == item.isBought && r.name == newName
  {
    item.(name := newName)
  }

  /** A toggle keeps the identity and the name, flips the status, and undoes itself. */
  lemma ToggledInvolution(item: Item)
    ensures Toggled(item).id == item.id && Toggled(item).name == item.name
    ensures Toggled(item).isBought != item.isBought
    ensures Toggled(Toggled(item)) == item
  {
  }

  /** A rename keeps the identity and the status. */
  lemma RenamedKeepsIdentity(item: Item, newName: string)
    ensures Renamed(item, newName).id == item.id
    ensures Renamed(item, newName).isBought == item.isBought
    ensures Renamed(item, newName).name == newName
    ensures Renamed(item, item.name) == item
  {
  }
}

/** `ShoppingListViewModel`: a cached copy of the table that every intent
    writes through. Each coroutine body is one atomic method. */
module ViewModel {
  import opened Items
  import opened Table

  class ShoppingListViewModel {
    /** The data access object; handed in rather than fetched from a singleton. */
    const dao: ItemTable
    /** `_shoppingList`, the list the screen observes. */
    var shoppingList: seq<Item>

    ghost predicate Valid()
      reads this, dao
    {
      dao.Valid()
    }

    /** The cache shows exactly what the table holds, in the table's order. */
    predicate Synced(): (b: bool)
      reads this, dao
      ensures b ==> |shoppingList| == |dao.rows|
    {
      shoppingList == dao.rows
    }

    /** `init { loadShoppingList() }` */
    constructor (dao: ItemTable)
      requires dao.Valid()
      ensures this.dao == dao && Valid() && Synced()
      ensures unchanged(dao)
    {
      this.dao := dao;
      new;
      LoadShoppingList();
    }

    /** `loadShoppingList`: clear the cache, then add every row of `getAllItems`. */
    method LoadShoppingList()
      requires Valid()
      modifies this
      ensures Valid() && Synced()
      ensures Descending(shoppingList)
      ensures unchanged(dao)
    {
      var items := dao.GetAllItems();
      shoppingList := [];
      shoppingList := shoppingList + items;
    }

    /** `addItem(name)`: insert a new, not bought item, then reload. The new row
        gets the next id of the sequence, larger than any id ever used, and is
        first in the reloaded list. */
    method AddItem(name: string)
      requires Valid()
      modifies this, dao
      ensures Valid() && Synced()
      ensures dao.lastId == old(dao.lastId) + 1
      ensures forall r :: r in old(dao.rows) ==> r.id < dao.lastId
      ensures dao.rows == [Item(name, false, dao.lastId)] + old(dao.rows)
      ensures shoppingList[0] == Item(name, false, dao.lastId)
    {
      var newItem := NewItem(name);
      dao.InsertItem(newItem);
      LoadShoppingList();
    }

    /** `toggleBought(index)`: flip the status of the cached item at `index`,
        write that row, and patch the cache in place without a reload. */
    method ToggleBought(index: int)
      requires Valid() && 0 <= index < |shoppingList|
      modifies this, dao
      ensures Valid()
      ensures var updated := Toggled(old(shoppingList[index]));
              && shoppingList == old(shoppingList)[index := updated]
              && dao.rows == Overwrite(old(dao.rows), updated)
      ensures dao.lastId == old(dao.lastId)
      ensures old(Synced()) ==> Synced()
    {
      var item := shoppingList[index];
      var updatedItem := Toggled(item);
      ghost var synced := Synced();
      if synced {
        OverwriteAt(dao.rows, index, updatedItem);
      }
      dao.UpdateItem(updatedItem);
      shoppingList := shoppingList[index := updatedItem];
    }

    /** `deleteItem(item)`: delete the row with the item's id, then reload. */
    method DeleteItem(item: Item)
      requires Valid()
      modifies this, dao
      ensures Valid() && Synced()
      ensures dao.rows == Remove(old(dao.rows), item.id)
      ensures dao.lastId == old(dao.lastId)
      ensures forall x :: x in shoppingList <==> x in old(dao.rows) && x.id != item.id
    {
      RemoveSpec(dao.rows, item.id);
      dao.DeleteItem(item);
      LoadShoppingList();
    }

    /** `editItem(item, newName)`: write `item` under its new name, then reload. */
    method EditItem(item: Item, newName: string)
      requires Valid()
      modifies this, dao
      ensures Valid() && Synced()
      ensures dao.rows == Overwrite(old(dao.rows), Renamed(item, newName))
      ensures dao.lastId == old(dao.lastId)
    {
      var updatedItem := Renamed(item, newName);
      dao.UpdateItem(updatedItem);
      LoadShoppingList();
    }
  }

  /** What a toggle does to a synced cache equals what a reload would show:
      the optimistic patch and the table agree. */
  lemma {:induction false} TogglePatchMatchesReload(rows: seq<Item>, index: nat)
    requires Descending(rows) && index < |rows|
    ensures Overwrite(rows, Toggled(rows[index])) == rows[index := Toggled(rows[index])]
    ensures Descending(rows[index := Toggled(rows[index])])
  {
    OverwriteAt(rows, index, Toggled(rows[index]));
    OverwriteSpec(rows, Toggled(rows[index]));
  }

  /** Two toggles at the same position restore both the cache and the table,
      as long as the cached item at that position is what the table stores
      under its id (or the id is gone from the table). */
  lemma ToggleTwiceRestores(cache: seq<Item>, rows: seq<Item>, index: nat)
    requires Descending(rows) && index < |cache|
    requires cache[index] in rows || cache[index].id !in Ids(rows)
    ensures var once := Toggled(cache[index]);
            var cache1 := cache[index := once];
            var twice := Toggled(cache1[index]);
            && cache1[index := twice] == cache
            && Overwrite(Overwrite(rows, once), twice) == rows
  {
    var once := Toggled(cache[index]);
    var twice := Toggled(once);
    assert twice == cache[index];
    OverwriteLastWins(rows, once, twice);
    if cache[index] in rows {
      OverwriteSame(rows, cache[index]);
    } else {
      OverwriteAbsent(rows, cache[index]);
    }
  }

  /** Editing an item taken from the table renames that one row: its position,
      id and status stay, and every other row is untouched. */
  lemma EditRenamesOnly(rows: seq<Item>, item: Item, newName: string)
    requires Descending(rows) && item in rows
    ensures var edited := Overwrite(rows, Renamed(item, newName));
            && |edited| == |rows|
            && forall k :: 0 <= k < |rows| ==>
                 if rows[k].id == item.id
                 then edited[k].name == newName && edited[k].id == rows[k].id
                      && edited[k].isBought == rows[k].isBought
                 else edited[k] == rows[k]
  {
    var k :| 0 <= k < |rows| && rows[k] == item;
    OverwriteAt(rows, k, Renamed(item, newName));
  }

  /** Editing an id that is not in the table changes nothing: the table fact
      `OverwriteAbsent`, stated for the renamed item `editItem` writes. */
  lemma EditAbsentIsNoOp(rows: seq<Item>, item: Item, newName: string)
    requires item.id !in Ids(rows)
    ensures Overwrite(rows, Renamed(item, newName)) == rows
  {
    OverwriteAbsent(rows, Renamed(item, newName));
  }

  /** After a delete no row with that id is left, and a second delete of the
      same id leaves the table as it was: the table facts `RemoveSpec` and
      `RemoveIdempotent`, gathered under the name of `deleteItem`. */
  lemma DeleteTwiceIsDeleteOnce(rows: seq<Item>, id: int)
    ensures id !in Ids(Remove(rows, id))
    ensures Remove(Remove(rows, id), id) == Remove(rows, id)
  {
    RemoveSpec(rows, id);
    RemoveIdempotent(rows, id);
  }

  /** Start from an empty table, add "Bread" and "Eggs", toggle position 0,
      and delete "Bread" twice; returns the list shown after each step. */
  method BreadEggsScenario() returns (afterAdds: seq<Item>, afterToggle: seq<Item>, afterDeletes: seq<Item>)
    ensures afterAdds == [Item("Eggs", false, 2), Item("Bread", false, 1)]
    ensures afterToggle == [Item("Eggs", true, 2), Item("Bread", false, 1)]
    ensures afterDeletes == [Item("Eggs", true, 2)]
  {
    var table := new ItemTable();
    var vm := new ShoppingListViewModel(table);
    vm.AddItem("Bread");
    vm.AddItem("Eggs");
    afterAdds := vm.shoppingList;
    vm.ToggleBought(0);
    afterToggle := vm.shoppingList;
    var bread := vm.shoppingList[1];
    vm.DeleteItem(bread);
    vm.DeleteItem(bread);
    afterDeletes := vm.shoppingList;
  }
}

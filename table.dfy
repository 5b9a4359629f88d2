/** The `shopping_items` table behind the data access object: an in-memory
    model of a rowid table with `INTEGER PRIMARY KEY AUTOINCREMENT`. */
module Table {
  import opened Items

  /** Strictly decreasing ids: the order of `SELECT * ... ORDER BY id DESC`,
      which also makes the ids unique. */
  predicate Descending(rows: seq<Item>)
  {
    forall i, j :: 0 <= i < j < |rows| ==> rows[i].id > rows[j].id
  }

  function Ids(rows: seq<Item>): set<int>
  {
    set r | r in rows :: r.id
  }

  /** `@Insert(onConflict = REPLACE)` of an item whose id is already decided:
      the row goes to its place in id order and replaces a row with the same id. */
  function Upsert(rows: seq<Item>, item: Item): (r: seq<Item>)
    ensures item in r
    ensures |rows| <= |r| <= |rows| + 1
  {
    if rows == [] then [item]
    else if rows[0].id == item.id then [item] + rows[1..]
    else if rows[0].id < item.id then [item] + rows
    else [rows[0]] + Upsert(rows[1..], item)
  }

  /** `@Update`: `UPDATE ... WHERE id = item.id` overwrites the matching row,
      and touches nothing when there is none. */
  function Overwrite(rows: seq<Item>, item: Item): (r: seq<Item>)
    ensures |r| == |rows|
    ensures forall k :: 0 <= k < |r| ==> r[k].id == rows[k].id
  {
    seq(|rows|, k requires 0 <= k < |rows| => if rows[k].id == item.id then item else rows[k])
  }

  /** `@Delete`: `DELETE ... WHERE id = id`; only the primary key is used. */
  function Remove(rows: seq<Item>, id: int): (r: seq<Item>)
    ensures |r| <= |rows|
    ensures forall k :: 0 <= k < |r| ==> r[k].id != id
  {
    if rows == [] then []
    else if rows[0].id == id then Remove(rows[1..], id)
    else [rows[0]] + Remove(rows[1..], id)
  }

  /** The id an insert stores: 0 asks for the next value of the sequence. */
  function AssignedId(item: Item, lastId: int): (id: int)
    ensures item.id == UnassignedId ==> id > lastId
    ensures item.id != UnassignedId ==> id == item.id
  {
    if item.id == UnassignedId then lastId + 1 else item.id
  }

  function Max(a: int, b: int): int
  {
    if a < b then b else a
  }

  lemma DescendingTail(rows: seq<Item>)
    requires Descending(rows) && rows != []
    ensures Descending(rows[1..])
    ensures forall r :: r in rows[1..] ==> r.id < rows[0].id
  {
    forall r | r in rows[1..] ensures r.id < rows[0].id {
      var k :| 0 <= k < |rows[1..]| && rows[1..][k] == r;
      assert rows[k + 1] == r;
    }
  }

  /** Putting a row with a larger id in front of a descending table keeps it descending. */
  lemma DescendingCons(x: Item, rest: seq<Item>)
    requires Descending(rest)
    requires forall r :: r in rest ==> r.id < x.id
    ensures Descending([x] + rest)
  {
    var r := [x] + rest;
    forall i, j | 0 <= i < j < |r| ensures r[i].id > r[j].id {
      if i == 0 {
        assert r[j] in rest;
      } else {
        assert r[i] == rest[i - 1] && r[j] == rest[j - 1];
      }
    }
  }

  /** Insert-or-replace stores the item and drops only the row it replaces. */
  lemma {:induction false} UpsertMembers(rows: seq<Item>, item: Item)
    requires Descending(rows)
    ensures forall x :: x in Upsert(rows, item) <==> x == item || (x in rows && x.id != item.id)
  {
    if rows != [] {
      DescendingTail(rows);
      assert rows == [rows[0]] + rows[1..];
      if rows[0].id > item.id {
        UpsertMembers(rows[1..], item);
      }
    }
  }

  /** Insert-or-replace keeps the id order. */
  lemma {:induction false} UpsertDescending(rows: seq<Item>, item: Item)
    requires Descending(rows)
    ensures Descending(Upsert(rows, item))
  {
    if rows != [] {
      DescendingTail(rows);
      if rows[0].id == item.id {
        DescendingCons(item, rows[1..]);
      } else if rows[0].id < item.id {
        forall r | r in rows ensures r.id < item.id {
          assert r == rows[0] || r in rows[1..];
        }
        DescendingCons(item, rows);
      } else {
        UpsertDescending(rows[1..], item);
        UpsertMembers(rows[1..], item);
        DescendingCons(rows[0], Upsert(rows[1..], item));
      }
    }
  }

  /** Insert-or-replace adds a row exactly when the id was new. */
  lemma {:induction false} UpsertLength(rows: seq<Item>, item: Item)
    requires Descending(rows)
    ensures |Upsert(rows, item)| == if item.id in Ids(rows) then |rows| else |rows| + 1
  {
    if rows != [] {
      DescendingTail(rows);
      assert rows == [rows[0]] + rows[1..];
      assert Ids(rows) == {rows[0].id} + Ids(rows[1..]);
      if rows[0].id < item.id {
        assert item.id !in Ids(rows[1..]);
      } else if rows[0].id > item.id {
        UpsertLength(rows[1..], item);
      }
    }
  }

  /** The three facts above together. */
  lemma UpsertSpec(rows: seq<Item>, item: Item)
    requires Descending(rows)
    ensures Descending(Upsert(rows, item))
    ensures forall x :: x in Upsert(rows, item) <==> x == item || (x in rows && x.id != item.id)
    ensures |Upsert(rows, item)| == if item.id in Ids(rows) then |rows| else |rows| + 1
  {
    UpsertMembers(rows, item);
    UpsertDescending(rows, item);
    UpsertLength(rows, item);
  }

  /** A fresh id larger than every stored id puts the new row first. */
  lemma UpsertNewest(rows: seq<Item>, item: Item)
    requires forall r :: r in rows ==> r.id < item.id
    ensures Upsert(rows, item) == [item] + rows
  {
    if rows != [] {
      assert rows[0] in rows;
    }
  }

  /** An update keeps every id where it was, so the order and the id set
      stay; the row with the item's id, if any, now equals the item. */
  lemma OverwriteSpec(rows: seq<Item>, item: Item)
    ensures |Overwrite(rows, item)| == |rows|
    ensures forall k :: 0 <= k < |rows| ==> Overwrite(rows, item)[k].id == rows[k].id
    ensures Ids(Overwrite(rows, item)) == Ids(rows)
    ensures Descending(rows) ==> Descending(Overwrite(rows, item))
    ensures forall x :: x in Overwrite(rows, item) ==> x == item || (x in rows && x.id != item.id)
  {
    var r := Overwrite(rows, item);
    forall x | x in Ids(r) ensures x in Ids(rows) {
      var y :| y in r && y.id == x;
      var k :| 0 <= k < |r| && r[k] == y;
      assert rows[k] in rows;
    }
    forall x | x in Ids(rows) ensures x in Ids(r) {
      var y :| y in rows && y.id == x;
      var k :| 0 <= k < |rows| && rows[k] == y;
      assert r[k] in r;
    }
  }

  /** On a table with unique ids, updating the row at position k rewrites exactly that position. */
  lemma OverwriteAt(rows: seq<Item>, k: nat, item: Item)
    requires Descending(rows) && k < |rows| && rows[k].id == item.id
    ensures Overwrite(rows, item) == rows[k := item]
  {
  }

  /** Updating an id the table does not hold is a no-op. */
  lemma OverwriteAbsent(rows: seq<Item>, item: Item)
    requires item.id !in Ids(rows)
    ensures Overwrite(rows, item) == rows
  {
    forall k | 0 <= k < |rows| ensures rows[k].id != item.id {
      assert rows[k] in rows;
    }
  }

  /** Writing back a row exactly as it is stored is a no-op. */
  lemma OverwriteSame(rows: seq<Item>, item: Item)
    requires Descending(rows) && item in rows
    ensures Overwrite(rows, item) == rows
  {
    var k :| 0 <= k < |rows| && rows[k] == item;
    OverwriteAt(rows, k, item);
  }

  /** Two updates of the same id: the last one wins. */
  lemma OverwriteLastWins(rows: seq<Item>, a: Item, b: Item)
    requires a.id == b.id
    ensures Overwrite(Overwrite(rows, a), b) == Overwrite(rows, b)
  {
  }

  /** Delete keeps exactly the rows with another id. */
  lemma {:induction false} RemoveMembers(rows: seq<Item>, id: int)
    ensures forall x :: x in Remove(rows, id) <==> x in rows && x.id != id
  {
    if rows != [] {
      RemoveMembers(rows[1..], id);
      assert rows == [rows[0]] + rows[1..];
    }
  }

  /** Delete keeps the id order. */
  lemma {:induction false} RemoveDescending(rows: seq<Item>, id: int)
    requires Descending(rows)
    ensures Descending(Remove(rows, id))
  {
    if rows != [] {
      DescendingTail(rows);
      RemoveDescending(rows[1..], id);
      if rows[0].id != id {
        RemoveMembers(rows[1..], id);
        DescendingCons(rows[0], Remove(rows[1..], id));
      }
    }
  }

  /** Delete removes exactly one row when the id is stored, none otherwise. */
  lemma {:induction false} RemoveLength(rows: seq<Item>, id: int)
    requires Descending(rows)
    ensures |Remove(rows, id)| == if id in Ids(rows) then |rows| - 1 else |rows|
  {
    if rows != [] {
      DescendingTail(rows);
      RemoveLength(rows[1..], id);
      assert rows == [rows[0]] + rows[1..];
      assert Ids(rows) == {rows[0].id} + Ids(rows[1..]);
      if rows[0].id == id {
        assert id !in Ids(rows[1..]);
      }
    }
  }

  /** The facts above together: no row with the id is left. */
  lemma RemoveSpec(rows: seq<Item>, id: int)
    ensures forall x :: x in Remove(rows, id) <==> x in rows && x.id != id
    ensures id !in Ids(Remove(rows, id))
    ensures Descending(rows) ==> Descending(Remove(rows, id))
    ensures Descending(rows) ==> |Remove(rows, id)| == if id in Ids(rows) then |rows| - 1 else |rows|
  {
    RemoveMembers(rows, id);
    if Descending(rows) {
      RemoveDescending(rows, id);
      RemoveLength(rows, id);
    }
  }

  /** Deleting an id the table does not hold changes nothing. */
  lemma {:induction false} RemoveAbsent(rows: seq<Item>, id: int)
    requires id !in Ids(rows)
    ensures Remove(rows, id) == rows
  {
    if rows != [] {
      assert rows[0] in rows;
      assert Ids(rows[1..]) <= Ids(rows);
      RemoveAbsent(rows[1..], id);
    }
  }

  /** A second delete of the same id changes nothing. */
  lemma RemoveIdempotent(rows: seq<Item>, id: int)
    ensures Remove(Remove(rows, id), id) == Remove(rows, id)
  {
    RemoveSpec(rows, id);
    RemoveAbsent(Remove(rows, id), id);
  }

  /** The table: rows newest first (a rowid B-tree read backwards) and
      `lastId`, the largest id ever inserted (the AUTOINCREMENT sequence). */
  class ItemTable {
    var rows: seq<Item>
    var lastId: int

    ghost predicate Valid()
      reads this
    {
      && Descending(rows)
      && lastId >= 0
      && forall r :: r in rows ==> r.id <= lastId
    }

    constructor ()
      ensures Valid() && rows == [] && lastId == 0
    {
      rows := [];
      lastId := 0;
    }

    /** `getAllItems()`: every stored row, by descending id. */
    method GetAllItems() returns (items: seq<Item>)
      requires Valid()
      ensures items == rows
      ensures Descending(items)
    {
      items := rows;
    }

    /** `insertItem(item)`: id 0 draws the next id of the sequence, any other id
        is kept; a row with the same id is replaced. */
    method InsertItem(item: Item)
      requires Valid()
      modifies this
      ensures Valid()
      ensures var stored := item.(id := AssignedId(item, old(lastId)));
              rows == Upsert(old(rows), stored) && lastId == Max(old(lastId), stored.id)
      ensures item.id == UnassignedId ==>
                lastId == old(lastId) + 1 && rows == [item.(id := lastId)] + old(rows)
    {
      var stored := item.(id := AssignedId(item, lastId));
      UpsertSpec(rows, stored);
      if item.id == UnassignedId {
        UpsertNewest(rows, stored);
      }
      rows := Upsert(rows, stored);
      lastId := Max(lastId, stored.id);
    }

    /** `updateItem(item)`: overwrite the row with the item's id, if there is one. */
    method UpdateItem(item: Item)
      requires Valid()
      modifies this
      ensures Valid()
      ensures rows == Overwrite(old(rows), item) && lastId == old(lastId)
    {
      OverwriteSpec(rows, item);
      rows := Overwrite(rows, item);
    }

    /** `deleteItem(item)`: remove the row with the item's id, if there is one. */
    method DeleteItem(item: Item)
      requires Valid()
      modifies this
      ensures Valid()
      ensures rows == Remove(old(rows), item.id) && lastId == old(lastId)
    {
      RemoveSpec(rows, item.id);
      rows := Remove(rows, item.id);
    }
  }
}

# Shopping list: table, list controller and intent guards

The app keeps one table of shopping items (`name`, `isBought`, `id`). A
view model keeps a cached copy of the table for the screen to show. Every
user intent goes through that view model:

- add, delete and edit write to the table and then reload the whole cache;
- toggling "bought" writes one row and patches the cache at that position,
  with no reload.

The screen adds two guards. An add is forwarded only when the text is
non-empty, and an edit only when the text is not blank. The screen also
shows "bought of total" counters.

The model has four modules, following the sections of `MainActivity.kt`:

- `Items`: the `ShoppingItem` record and the two `copy` updates it gets
  (`Toggled`, `Renamed`).
- `Table`: the Room table as a class `ItemTable`. Its rows are kept newest
  first, matching `ORDER BY id DESC`. Its `lastId` is the autoincrement
  sequence. The effect of `@Insert(REPLACE)`, `@Update` and `@Delete` is
  given by the pure functions `Upsert`, `Overwrite` and `Remove`, with the
  lemmas that describe them.
- `ViewModel`: `ShoppingListViewModel`, with the table passed in at
  construction and the cache held as a `seq`. Each coroutine body is one
  atomic method. Every reload ends with the cache equal to the table
  (`Synced`). The optimistic toggle keeps the two equal without a reload.
- `Screen`: the guards, the counters, and a class holding the screen's
  `text`, `itemToEdit` and `editText`.

Room's `autoGenerate = true` gives the column `INTEGER PRIMARY KEY
AUTOINCREMENT`. So an item inserted with id `0` gets one more than the
largest id ever stored, and deleted ids are never reused. An explicit id is
kept as given. A row already holding that id is replaced, and the sequence
rises to that id if it is larger.

Two behaviours of the code are worth noting:

- The add guard is only `isNotEmpty`, so a name made only of spaces can be
  added, while an edit to such a name is refused (`Screen.EditGuardStricter`).
- `editItem` writes `item.copy(name = newName)`. It therefore writes back the
  `isBought` of the item the dialog was opened with. The row's status is kept
  when that item is the stored row, which is always the case for an item taken
  from a synced cache (`ViewModel.EditRenamesOnly`).

## Model

| member | source | states |
|---|---|---|
| `Items.NewItem` | app/src/main/java/com/example/mylist/MainActivity.kt:168-171 | the item built for a new name carries that name, is not bought, and has the unassigned id 0 (the record defaults at lines 92-94) |
| `Items.Toggled` | app/src/main/java/com/example/mylist/MainActivity.kt:180 | the toggled copy keeps id and name and has the opposite status |
| `Items.Renamed` | app/src/main/java/com/example/mylist/MainActivity.kt:195 | the renamed copy keeps id and status and carries the new name |
| `Items.ToggledInvolution` | app/src/main/java/com/example/mylist/MainActivity.kt:180 | the toggled copy keeps id and name, flips isBought, and toggling twice gives back the item |
| `Items.RenamedKeepsIdentity` | app/src/main/java/com/example/mylist/MainActivity.kt:195 | the renamed copy keeps id and isBought and carries the new name; renaming to the old name changes nothing |
| `Table.Upsert` | app/src/main/java/com/example/mylist/MainActivity.kt:105-106 | insert-or-replace: the stored rows always include the inserted item, and grow by at most one row |
| `Table.Overwrite` | app/src/main/java/com/example/mylist/MainActivity.kt:109-110 | update by id: as many rows as before, each keeping the id at its position |
| `Table.Remove` | app/src/main/java/com/example/mylist/MainActivity.kt:113-114 | delete by id: no more rows than before, and none left with that id |
| `Table.AssignedId` | app/src/main/java/com/example/mylist/MainActivity.kt:93-94 | an unassigned id (0) becomes an id larger than every id used so far; any other id is kept |
| `Table.UpsertMembers` | app/src/main/java/com/example/mylist/MainActivity.kt:105-106 | after insert-or-replace the rows are the new item plus the old rows with another id |
| `Table.UpsertDescending` | app/src/main/java/com/example/mylist/MainActivity.kt:105-106 | insert-or-replace keeps the rows strictly descending by id |
| `Table.UpsertLength` | app/src/main/java/com/example/mylist/MainActivity.kt:105-106 | insert-or-replace adds a row exactly when the id was not stored, and replaces one otherwise |
| `Table.UpsertSpec` | app/src/main/java/com/example/mylist/MainActivity.kt:105-106 | the three insert-or-replace facts together |
| `Table.UpsertNewest` | app/src/main/java/com/example/mylist/MainActivity.kt:101-106 | a row whose id exceeds every stored id becomes the first row of the listing |
| `Table.OverwriteSpec` | app/src/main/java/com/example/mylist/MainActivity.kt:109-110 | an update keeps the length, the id at every position, the id set and the order; each row is either the item or an old row with another id |
| `Table.OverwriteAt` | app/src/main/java/com/example/mylist/MainActivity.kt:109-110 | with unique ids, updating the id at position k replaces exactly position k |
| `Table.OverwriteAbsent` | app/src/main/java/com/example/mylist/MainActivity.kt:109-110 | updating an id that is not stored is a no-op |
| `Table.OverwriteSame` | app/src/main/java/com/example/mylist/MainActivity.kt:109-110 | writing back a row exactly as stored is a no-op |
| `Table.OverwriteLastWins` | app/src/main/java/com/example/mylist/MainActivity.kt:109-110 | of two updates of one id, the second decides the table |
| `Table.RemoveMembers` | app/src/main/java/com/example/mylist/MainActivity.kt:113-114 | after a delete the rows are exactly the old rows with another id |
| `Table.RemoveDescending` | app/src/main/java/com/example/mylist/MainActivity.kt:113-114 | a delete keeps the rows strictly descending by id |
| `Table.RemoveLength` | app/src/main/java/com/example/mylist/MainActivity.kt:113-114 | a delete removes exactly one row when the id is stored and none otherwise |
| `Table.RemoveSpec` | app/src/main/java/com/example/mylist/MainActivity.kt:113-114 | the delete facts together, and no row with that id is left |
| `Table.RemoveAbsent` | app/src/main/java/com/example/mylist/MainActivity.kt:113-114 | deleting an id that is not stored changes nothing |
| `Table.RemoveIdempotent` | app/src/main/java/com/example/mylist/MainActivity.kt:113-114 | a second delete of the same id changes nothing |
| `Table.ItemTable.constructor` | app/src/main/java/com/example/mylist/MainActivity.kt:118-119 | a new table is empty, with the id sequence at 0 |
| `Table.ItemTable.GetAllItems` | app/src/main/java/com/example/mylist/MainActivity.kt:101-102 | returns every stored row, strictly descending by id |
| `Table.ItemTable.InsertItem` | app/src/main/java/com/example/mylist/MainActivity.kt:105-106 | stores the item under its assigned id, replacing a row with that id; the sequence rises to that id; an id-0 item gets lastId + 1 and goes first |
| `Table.ItemTable.UpdateItem` | app/src/main/java/com/example/mylist/MainActivity.kt:109-110 | overwrites the row with the item's id, if any, keeping the order and the sequence |
| `Table.ItemTable.DeleteItem` | app/src/main/java/com/example/mylist/MainActivity.kt:113-114 | removes the row with the item's id, if any, keeping the order and the sequence |
| `ViewModel.ShoppingListViewModel.Synced` | app/src/main/java/com/example/mylist/MainActivity.kt:160-165 | the relation every reload establishes: the cache is the table listing, same rows in the same order |
| `ViewModel.ShoppingListViewModel.constructor` | app/src/main/java/com/example/mylist/MainActivity.kt:154-156 | the first load leaves the cache equal to the table, and the table unchanged |
| `ViewModel.ShoppingListViewModel.LoadShoppingList` | app/src/main/java/com/example/mylist/MainActivity.kt:160-165 | the cache becomes exactly the table listing (same rows, same order, nothing left from before); the table is unchanged |
| `ViewModel.ShoppingListViewModel.AddItem` | app/src/main/java/com/example/mylist/MainActivity.kt:168-174 | the table gains one row (the name, not bought, id one above every id used) in front of the old rows; after the reload it is at cache position 0 |
| `ViewModel.ShoppingListViewModel.ToggleBought` | app/src/main/java/com/example/mylist/MainActivity.kt:176-184 | for an index inside the cache: flips only the status at that position, writes that row, leaves every other position and every row with another id alone, and keeps a synced cache synced |
| `ViewModel.ShoppingListViewModel.DeleteItem` | app/src/main/java/com/example/mylist/MainActivity.kt:186-191 | the table loses exactly the rows with the item's id; the reloaded cache holds exactly the old rows with another id |
| `ViewModel.ShoppingListViewModel.EditItem` | app/src/main/java/com/example/mylist/MainActivity.kt:193-199 | the row with the item's id is overwritten by the renamed item; the cache is reloaded |
| `ViewModel.TogglePatchMatchesReload` | app/src/main/java/com/example/mylist/MainActivity.kt:176-184 | on a synced cache, patching position i gives the same list as the updated table, which stays descending |
| `ViewModel.ToggleTwiceRestores` | app/src/main/java/com/example/mylist/MainActivity.kt:176-184 | two toggles at one position give back both the cache and the table |
| `ViewModel.EditRenamesOnly` | app/src/main/java/com/example/mylist/MainActivity.kt:193-198 | editing a stored item changes only that row's name; its position, id and status stay and other rows are untouched |
| `ViewModel.EditAbsentIsNoOp` | app/src/main/java/com/example/mylist/MainActivity.kt:193-198 | editing an item whose id is not stored leaves the table as it was |
| `ViewModel.DeleteTwiceIsDeleteOnce` | app/src/main/java/com/example/mylist/MainActivity.kt:186-190 | after a delete no row with the id remains, and a second delete changes nothing |
| `ViewModel.BreadEggsScenario` | app/src/main/java/com/example/mylist/MainActivity.kt:160-190 | from an empty table, adding Bread then Eggs lists [Eggs(2), Bread(1)]; toggling position 0 marks Eggs bought; deleting Bread twice leaves [Eggs(2)] |
| `Screen.IsWhitespace` | app/src/main/java/com/example/mylist/MainActivity.kt:332 | the characters Kotlin's `Char.isWhitespace()` accepts on the JVM (`Character.isWhitespace` or `Character.isSpaceChar`): U+0009-U+000D, U+001C-U+0020, U+00A0, U+1680, U+2000-U+200A, U+2028, U+2029, U+202F, U+205F, U+3000; space, tab, newline and carriage return among them, and none above U+3000 |
| `Screen.IsBlank` | app/src/main/java/com/example/mylist/MainActivity.kt:332 | `isBlank()`: every character is whitespace, so the empty text is blank |
| `Screen.AddAllowed` | app/src/main/java/com/example/mylist/MainActivity.kt:266 | the add guard `isNotEmpty()`: at least one character |
| `Screen.EditAllowed` | app/src/main/java/com/example/mylist/MainActivity.kt:332 | the edit guard `isNotBlank()`: some character is not whitespace |
| `Screen.EditGuardStricter` | app/src/main/java/com/example/mylist/MainActivity.kt:332 | text the edit guard accepts is also accepted by the add guard; " " passes the add guard but not the edit guard |
| `Screen.BoughtCount` | app/src/main/java/com/example/mylist/MainActivity.kt:283 | the bought count lies between 0 and the total; it is 0 exactly when nothing is bought and the total exactly when everything is |
| `Screen.BoughtCountToggle` | app/src/main/java/com/example/mylist/MainActivity.kt:283 | toggling one position changes the bought count by exactly one, and the total not at all |
| `Screen.ShoppingListScreen.Counters` | app/src/main/java/com/example/mylist/MainActivity.kt:282-283 | the total is the cache length and the bought count never exceeds it |
| `Screen.ShoppingListScreen.constructor` | app/src/main/java/com/example/mylist/MainActivity.kt:286-287 | the screen starts with empty texts and no item being edited |
| `Screen.ShoppingListScreen.OnTextChange` | app/src/main/java/com/example/mylist/MainActivity.kt:262 | typing sets the add field's text only |
| `Screen.ShoppingListScreen.OnAddClick` | app/src/main/java/com/example/mylist/MainActivity.kt:265-269 | non-empty text is added as a new first row with the next id of the sequence, and the field is cleared; empty text changes nothing |
| `Screen.ShoppingListScreen.OnEditClick` | app/src/main/java/com/example/mylist/MainActivity.kt:311-314 | opening the dialog remembers the item and presets its name |
| `Screen.ShoppingListScreen.OnEditTextChange` | app/src/main/java/com/example/mylist/MainActivity.kt:326 | typing in the dialog sets the edit text only |
| `Screen.ShoppingListScreen.OnConfirmEdit` | app/src/main/java/com/example/mylist/MainActivity.kt:331-335 | non-blank text renames the remembered item in the table, keeps the id sequence, reloads, and closes the dialog; blank text leaves the table and the dialog as they were |
| `Screen.ShoppingListScreen.OnDismissEdit` | app/src/main/java/com/example/mylist/MainActivity.kt:341 | cancelling closes the dialog without touching the table |

## Left out

- Room annotations, SQL execution and the `ShoppingDatabase.getInstance` singleton with its lock (lines 118-139) are platform plumbing. The table is an in-memory class handed to the view model at construction. A failure to open the database is not modelled.
- `viewModelScope.launch(IO)` and concurrency. Each coroutine body is one atomic method, and the methods run one after another. This assumes that no reload lands between the moment `toggleBought` reads cache position `index` and the moment it patches it. The position-based toggle race therefore does not arise in the model.
- `ViewModel.ShoppingListViewModel.ToggleBought`: requires the index to lie inside the cache. The source would throw `IndexOutOfBoundsException` inside the coroutine on any other index, and its only caller passes positions of the rendered list.
- `ShoppingListViewModelFactory` (lines 203-212) is reflection glue.
- `MainActivity.onCreate`, the layout of `ShoppingItemCard`, `LazyColumn` and `AlertDialog` rendering, theming and `Preview` are UI only. The card callbacks for toggle and delete (lines 309-310) forward straight to the view model methods. They are not modelled separately.
- Ids are unbounded integers. SQLite rowids are 64 bit and Kotlin's `Int` is 32 bit. The model covers neither reading a large rowid into `Int` nor the insert failure once the autoincrement sequence is exhausted.
- Kotlin strings are UTF-16. The model's `char` is a Unicode scalar value. This only matters for `IsWhitespace`, and no whitespace character lies outside the basic plane.

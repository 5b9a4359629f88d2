/** What is kept of the Compose screen: the add and edit guards, the
    "bought of total" counters, and the screen's own state variables. */
module Screen {
  import opened Items
  import opened Table
  import opened ViewModel

  /** Kotlin's `Char.isWhitespace()` on the JVM: `Character.isWhitespace` or
      `Character.isSpaceChar`, i.e. tab to carriage return, the four
      information separators, and the Unicode space, line and paragraph
      separators. */
  predicate IsWhitespace(c: char): (b: bool)
    ensures c == ' ' || c == '\t' || c == '\n' || c == '\r' ==> b
    ensures b ==> c as int <= 0x3000
  {
    var n := c as int;
    || 0x09 <= n <= 0x0D
    || 0x1C <= n <= 0x20
    || n == 0xA0 || n == 0x1680
    || 0x2000 <= n <= 0x200A
    || n == 0x2028 || n == 0x2029 || n == 0x202F || n == 0x205F
    || n == 0x3000
  }

  /** `isBlank()`: empty, or whitespace only. */
  predicate IsBlank(s: string): (b: bool)
    ensures s == "" ==> b
    ensures b && s != "" ==> IsWhitespace(s[0]) && IsWhitespace(s[|s| - 1])
  {
    forall i :: 0 <= i < |s| ==> IsWhitespace(s[i])
  }

  /** The add guard `text.isNotEmpty()`. */
  predicate AddAllowed(text: string): (b: bool)
    ensures b <==> |text| > 0
  {
    text != ""
  }

  /** The edit guard `editText.isNotBlank()`. */
  predicate EditAllowed(text: string): (b: bool)
    ensures b <==> exists k :: 0 <= k < |text| && !IsWhitespace(text[k])
  {
    !IsBlank(text)
  }

  /** Every text the edit guard lets through also passes the add guard; the
      converse fails: a name made of spaces can be added but not saved by an edit. */
  lemma EditGuardStricter(text: string)
    ensures EditAllowed(text) ==> AddAllowed(text)
    ensures AddAllowed(" ") && !EditAllowed(" ")
  {
    assert IsWhitespace(" "[0]);
  }

  /** `shoppingList.count { it.isBought }` */
  function BoughtCount(items: seq<Item>): (n: nat)
    ensures n <= |items|
    ensures n == 0 <==> forall k :: 0 <= k < |items| ==> !items[k].isBought
    ensures n == |items| <==> forall k :: 0 <= k < |items| ==> items[k].isBought
  {
    if items == [] then 0
    else BoughtCount(items[1..]) + (if items[0].isBought then 1 else 0)
  }

  /** Toggling one position moves the bought count by exactly one, up or down
      as the item was not bought or bought; the total stays. */
  lemma {:induction false} BoughtCountToggle(items: seq<Item>, index: nat)
    requires index < |items|
    ensures |items[index := Toggled(items[index])]| == |items|
    ensures BoughtCount(items[index := Toggled(items[index])])
            == if items[index].isBought then BoughtCount(items) - 1 else BoughtCount(items) + 1
  {
    var t := items[index := Toggled(items[index])];
    if index == 0 {
      assert t[1..] == items[1..];
    } else {
      assert t[1..] == items[1..][index - 1 := Toggled(items[index])];
      BoughtCountToggle(items[1..], index - 1);
    }
  }

  /** The screen's state: the add field's `text`, the edited item and the
      dialog's `editText`. */
  class ShoppingListScreen {
    const vm: ShoppingListViewModel
    var text: string
    var itemToEdit: Option<Item>
    var editText: string

    ghost predicate Valid()
      reads this, vm, vm.dao
    {
      vm.Valid()
    }

    /** "Bought: b of t", from the list the view model exposes. */
    function Counters(): (c: (nat, nat))
      reads this, vm
      ensures c.0 <= c.1 == |vm.shoppingList|
    {
      (BoughtCount(vm.shoppingList), |vm.shoppingList|)
    }

    constructor (vm: ShoppingListViewModel)
      ensures this.vm == vm
      ensures text == "" && itemToEdit == None && editText == ""
    {
      this.vm := vm;
      text := "";
      itemToEdit := None;
      editText := "";
    }

    /** The add field's `onValueChange`. */
    method OnTextChange(newText: string)
      modifies this
      ensures text == newText
      ensures itemToEdit == old(itemToEdit) && editText == old(editText)
    {
      text := newText;
    }

    /** The Add button: forward non-empty text to `addItem`, then clear the field. */
    method OnAddClick()
      requires Valid()
      modifies this, vm, vm.dao
      ensures Valid()
      ensures itemToEdit == old(itemToEdit) && editText == old(editText)
      ensures AddAllowed(old(text)) ==>
                && text == ""
                && vm.dao.lastId == old(vm.dao.lastId) + 1
                && vm.dao.rows == [Item(old(text), false, old(vm.dao.lastId) + 1)] + old(vm.dao.rows)
                && vm.Synced()
      ensures !AddAllowed(old(text)) ==> text == old(text) && unchanged(vm, vm.dao)
    {
      if AddAllowed(text) {
        vm.AddItem(text);
        text := "";
      }
    }

    /** The edit icon of a card: remember the item and preset its name. */
    method OnEditClick(item: Item)
      modifies this
      ensures itemToEdit == Some(item) && editText == item.name
      ensures text == old(text)
    {
      itemToEdit := Some(item);
      editText := item.name;
    }

    /** The dialog field's `onValueChange`. */
    method OnEditTextChange(newText: string)
      modifies this
      ensures editText == newText
      ensures text == old(text) && itemToEdit == old(itemToEdit)
    {
      editText := newText;
    }

    /** The Save button, shown while an item is being edited: forward non-blank
        text to `editItem` and close the dialog; blank text changes nothing. */
    method OnConfirmEdit()
      requires Valid() && itemToEdit.Some?
      modifies this, vm, vm.dao
      ensures Valid()
      ensures text == old(text) && editText == old(editText)
      ensures EditAllowed(old(editText)) ==>
                && itemToEdit == None
                && vm.dao.lastId == old(vm.dao.lastId)
                && vm.dao.rows == Overwrite(old(vm.dao.rows), Renamed(old(itemToEdit).value, old(editText)))
                && vm.Synced()
      ensures !EditAllowed(old(editText)) ==> itemToEdit == old(itemToEdit) && unchanged(vm, vm.dao)
    {
      if EditAllowed(editText) {
        vm.EditItem(itemToEdit.value, editText);
        itemToEdit := None;
      }
    }

    /** Cancel, or a tap outside the dialog: close it without saving. */
    method OnDismissEdit()
      modifies this
      ensures itemToEdit == None
      ensures text == old(text) && editText == old(editText)
    {
      itemToEdit := None;
    }
  }
}

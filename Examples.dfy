/**
 * Worked examples of single prompts against small tables: the stock of a
 * named item is decremented or the item deleted, a low-stock question on a
 * healthy table gets the all-clear, and "inventory" outranks "remove".
 * The string facts are established one at a time so that each proof stays small.
 */
module Examples {
  import opened Wrappers
  import opened Text
  import opened Inventory
  import opened Chat

  lemma RemoveTwoWidgetsIsLowerCase()
    ensures Lower("remove 2 widget") == "remove 2 widget"
  {
  }

  lemma RemoveTwoWidgetsNoLowStock()
    ensures !AsksLowStock("remove 2 widget")
  {
    NotContainsWithoutChar("remove 2 widget", "low stock", 'k');
    NotContainsWithoutChar("remove 2 widget", "stockout", 'k');
  }

  lemma RemoveTwoWidgetsNoAllItems()
    ensures !Contains("remove 2 widget", "all items")
  {
    NotContainsWithoutChar("remove 2 widget", "all items", 'a');
  }

  lemma RemoveTwoWidgetsNoInventory()
    ensures !Contains("remove 2 widget", "inventory")
  {
    NotContainsWithoutChar("remove 2 widget", "inventory", 'y');
  }

  lemma RemoveTwoWidgetsNoTools()
    ensures !AnyMentioned(["Tools"], "remove 2 widget")
  {
    assert Lower("Tools")[3] == 'l';
    NotContainsWithoutChar("remove 2 widget", Lower("Tools"), 'l');
  }

  lemma RemoveTwoWidgetsIsRemove()
    ensures Classify("remove 2 widget", ["Tools"]) == RemoveQuery
  {
    RemoveTwoWidgetsNoLowStock();
    RemoveTwoWidgetsNoAllItems();
    RemoveTwoWidgetsNoInventory();
    RemoveTwoWidgetsNoTools();
    assert IsPrefix("remove", "remove 2 widget"[0..]);
  }

  lemma RemoveTwoWidgetsFindsWidget()
    ensures FirstMentioned(["Widget"], "remove 2 widget") == Some(0)
  {
    assert Lower("Widget") == "widget";
    assert IsPrefix("widget", "remove 2 widget"[9..]);
  }

  lemma RemoveTwoWidgetsFirstDigit()
    ensures FirstDigitAt("remove 2 widget") == Some(7)
  {
  }

  lemma TwoWidgetsLeadingDigits()
    ensures LeadingDigits("2 widget") == "2"
  {
    assert "2 widget"[1..] == " widget";
  }

  lemma RemoveTwoWidgetsQuantity()
    ensures RequestedQuantity("remove 2 widget") == 2
  {
    RemoveTwoWidgetsFirstDigit();
    assert "remove 2 widget"[7..] == "2 widget";
    TwoWidgetsLeadingDigits();
    assert FirstDigitRun("remove 2 widget") == Some("2");
  }

  lemma OneWidgetColumns(it: Item)
    requires it.name == "Widget" && it.category == "Tools"
    ensures UniqueCategories([it]) == ["Tools"] && Names([it]) == ["Widget"]
  {
    var id := (c: string) => c;
    assert Categories([it]) == ["Tools"];
    assert ["Tools"][1..] == [];
    assert Seqs.DedupFrom(["Tools"], id, {}) == ["Tools"] + Seqs.DedupFrom([], id, {"Tools"});
  }

  lemma DecrementMessage()
    ensures "Removed " + NatToString(2) + " " + "Widget" + "(s). New stock: " + NatToString(3)
            == "Removed 2 Widget(s). New stock: 3"
  {
  }

  lemma WidgetStockSetToThree(it: Item)
    requires it.name == "Widget"
    ensures SetQuantity([it], "Widget", 3) == [it.(quantity := 3)]
  {
  }

  lemma DeletionMessage()
    ensures "Removed " + "Widget" + " completely from inventory." == "Removed Widget completely from inventory."
  {
  }

  lemma WidgetRowDropped(it: Item)
    requires it.name == "Widget"
    ensures WithoutName([it], "Widget") == []
  {
    assert |WithoutName([it], "Widget")| <= 0;
  }

  /** Facts about one Widget row and the prompt "remove 2 widget" that both removal examples share. */
  lemma RemoveTwoWidgetsSetting(it: Item, prompt: string)
    requires it.name == "Widget" && it.category == "Tools"
    requires prompt == "remove 2 widget"
    ensures Classify(Lower(prompt), UniqueCategories([it])) == RemoveQuery
    ensures FirstMentioned(Names([it]), Lower(prompt)) == Some(0)
    ensures RequestedQuantity(Lower(prompt)) == 2
  {
    RemoveTwoWidgetsIsLowerCase();
    RemoveTwoWidgetsIsRemove();
    RemoveTwoWidgetsFindsWidget();
    RemoveTwoWidgetsQuantity();
    OneWidgetColumns(it);
  }

  /** "remove 2 widget" against a Widget row holding 5 leaves it holding 3. */
  lemma RemoveTwoOfFive(it: Item, prompt: string)
    requires it.name == "Widget" && it.category == "Tools" && it.quantity == 5
    requires prompt == "remove 2 widget"
    ensures Interpret([it], prompt) == Outcome([it.(quantity := 3)], Say("Removed 2 Widget(s). New stock: 3", None))
  {
    RemoveTwoWidgetsSetting(it, prompt);
    ChatRemoveUpdatesOrDeletes([it], prompt, 0);
    DecrementMessage();
    WidgetStockSetToThree(it);
  }

  /** "remove 2 widget" against a Widget row holding 2 deletes the row. */
  lemma RemoveTwoOfTwo(it: Item, prompt: string)
    requires it.name == "Widget" && it.category == "Tools" && it.quantity == 2
    requires prompt == "remove 2 widget"
    ensures Interpret([it], prompt) == Outcome([], Say("Removed Widget completely from inventory.", None))
  {
    RemoveTwoWidgetsSetting(it, prompt);
    ChatRemoveUpdatesOrDeletes([it], prompt, 0);
    WidgetRowDropped(it);
    DeletionMessage();
  }

  /** "show low stock" on a table with no row below its reorder level gets the all-clear and no table. */
  lemma ShowLowStockAllClear(rows: seq<Item>, prompt: string)
    requires forall i :: 0 <= i < |rows| ==> !IsLow(rows[i])
    requires prompt == "show low stock"
    ensures Interpret(rows, prompt) == Outcome(rows, Say(AllClear, None))
  {
    assert Lower(prompt) == prompt;
    assert IsPrefix("low stock", prompt[5..]);
    AllClearWhenNothingLow(rows, prompt);
  }

  lemma ListAndRemoveNoElectronics()
    ensures !Mentions("show inventory and remove 2 mouse", "Electronics")
  {
    assert Lower("Electronics")[3] == 'c';
    NotContainsWithoutChar("show inventory and remove 2 mouse", Lower("Electronics"), 'c');
  }

  lemma ListAndRemoveNoOfficeSupplies()
    ensures !Mentions("show inventory and remove 2 mouse", "Office Supplies")
  {
    assert Lower("Office Supplies")[1] == 'f';
    NotContainsWithoutChar("show inventory and remove 2 mouse", Lower("Office Supplies"), 'f');
  }

  lemma ListAndRemoveNoFurniture()
    ensures !Mentions("show inventory and remove 2 mouse", "Furniture")
  {
    assert Lower("Furniture")[0] == 'f';
    NotContainsWithoutChar("show inventory and remove 2 mouse", Lower("Furniture"), 'f');
  }

  lemma ListAndRemoveIsLowerCase()
    ensures Lower("show inventory and remove 2 mouse") == "show inventory and remove 2 mouse"
  {
  }

  lemma ListAndRemoveNoLowStock()
    ensures !AsksLowStock("show inventory and remove 2 mouse")
  {
    NotContainsWithoutChar("show inventory and remove 2 mouse", "low stock", 'k');
    NotContainsWithoutChar("show inventory and remove 2 mouse", "stockout", 'k');
  }

  lemma ListAndRemoveSaysInventory()
    ensures Contains("show inventory and remove 2 mouse", "inventory")
  {
    assert IsPrefix("inventory", "show inventory and remove 2 mouse"[5..]);
  }

  lemma ListAndRemoveGuards(prompt: string)
    requires prompt == "show inventory and remove 2 mouse"
    ensures Lower(prompt) == prompt
    ensures !AsksLowStock(prompt) && Contains(prompt, "inventory")
    ensures !Mentions(prompt, "Electronics") && !Mentions(prompt, "Office Supplies") && !Mentions(prompt, "Furniture")
  {
    ListAndRemoveIsLowerCase();
    ListAndRemoveNoLowStock();
    ListAndRemoveSaysInventory();
    ListAndRemoveNoElectronics();
    ListAndRemoveNoOfficeSupplies();
    ListAndRemoveNoFurniture();
  }

  /**
   * On a table whose categories all come from the add form's list, a prompt
   * that says both "inventory" and "remove" lists the table and changes nothing.
   */
  lemma InventoryOutranksRemove(rows: seq<Item>, prompt: string)
    requires forall i :: 0 <= i < |rows| ==>
               rows[i].category == "Electronics" || rows[i].category == "Office Supplies" || rows[i].category == "Furniture"
    requires prompt == "show inventory and remove 2 mouse"
    ensures Interpret(rows, prompt) == Outcome(rows, Say(ListAllHeading, Some(rows)))
  {
    ListAndRemoveGuards(prompt);
    var cats := UniqueCategories(rows);
    forall i | 0 <= i < |cats| ensures !Mentions(prompt, cats[i]) {
      assert cats[i] in Categories(rows);
    }
    ListingBeatsRemove(rows, prompt);
  }
}

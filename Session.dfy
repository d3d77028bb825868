/**
 * The per-user session state of the dashboard: the inventory table, the
 * chat transcript and the flag that lets a CSV upload be read only once.
 * Each method is one user action (upload, add form, update form, remove
 * form, chat prompt) and states the whole new state in terms of the old.
 */
module SessionState {
  import opened Wrappers
  import opened Text
  import opened Inventory
  import opened Chat

  class Session {
    var inventory: seq<Item>
    var chat: seq<Msg>
    var csvLoaded: bool

    /** A fresh session: an empty table, an empty transcript, no CSV read yet. */
    constructor ()
      ensures inventory == [] && chat == [] && !csvLoaded
    {
      inventory := [];
      chat := [];
      csvLoaded := false;
    }

    /**
     * An uploaded file, already parsed into rows. It replaces the table,
     * de-duplicated on (item_name, category), only the first time; every later
     * upload in the session is ignored.
     */
    method Upload(rows: seq<Item>)
      modifies this`inventory, this`csvLoaded
      ensures old(csvLoaded) ==> inventory == old(inventory) && csvLoaded
      ensures !old(csvLoaded) ==> inventory == Deduplicated(rows) && csvLoaded
      ensures forall i, j :: !old(csvLoaded) && 0 <= i < j < |inventory| ==>
                !(inventory[i].name == inventory[j].name && inventory[i].category == inventory[j].category)
      ensures chat == old(chat)
    {
      if !csvLoaded {
        inventory := rows;
        csvLoaded := true;
        inventory := Deduplicated(inventory);
      }
    }

    /** The add form: appends one row whose id exceeds every id in the table. */
    method AddItem(name: string, category: string, quantity: int, reorderLevel: int, supplier: string)
      modifies this`inventory
      ensures inventory == old(inventory) + [Item(NextId(old(inventory)), name, category, quantity, reorderLevel, supplier)]
      ensures forall i :: 0 <= i < |old(inventory)| ==> old(inventory)[i].id < inventory[|inventory| - 1].id
      ensures old(inventory) == [] ==> inventory[0].id == 1
      ensures IdsUnique(old(inventory)) ==> IdsUnique(inventory)
      ensures chat == old(chat) && csvLoaded == old(csvLoaded)
    {
      var newId := if inventory != [] then MaxId(inventory) + 1 else 1;
      var item := Item(newId, name, category, quantity, reorderLevel, supplier);
      if IdsUnique(inventory) {
        AddKeepsIdsUnique(inventory, item);
      }
      inventory := inventory + [item];
    }

    /** The update form: every row named `name` gets the stock `newQuantity`; nothing else changes. */
    method UpdateQuantity(name: string, newQuantity: int)
      modifies this`inventory
      ensures inventory == SetQuantity(old(inventory), name, newQuantity)
      ensures chat == old(chat) && csvLoaded == old(csvLoaded)
    {
      inventory := SetQuantity(inventory, name, newQuantity);
    }

    /** The remove form: drops every row named `name`, keeping the others in order. */
    method RemoveItem(name: string)
      modifies this`inventory
      ensures inventory == WithoutName(old(inventory), name)
      ensures forall i :: 0 <= i < |inventory| ==> inventory[i].name != name
      ensures chat == old(chat) && csvLoaded == old(csvLoaded)
    {
      inventory := WithoutName(inventory, name);
    }

    /** `qty = 1; if num_match: qty = int(num_match.group())`. */
    static method ReadQuantity(q: string) returns (qty: nat)
      ensures qty == RequestedQuantity(q)
    {
      qty := 1;
      var run := FirstDigitRun(q);
      if run.Some? {
        qty := DigitsValue(run.value);
      }
    }

    /** The remove branch of the assistant, for the lower-cased query `q`. */
    method RemoveByChat(q: string) returns (reply: Msg)
      modifies this`inventory
      ensures Outcome(inventory, reply) == RemoveOutcome(old(inventory), q)
    {
      var qty := ReadQuantity(q);
      ghost var rows := inventory;
      var itemName := FindFirstMentioned(Names(inventory), q);
      if itemName.Some? && itemName.value != "" {
        ghost var i := FirstMentioned(Names(rows), q).value;
        assert itemName.value == rows[i].name;
        var name := itemName.value;
        var current := FirstQuantityOf(inventory, name);
        var newQty := current - qty;
        if newQty > 0 {
          inventory := SetQuantity(inventory, name, newQty);
          reply := Say("Removed " + NatToString(qty) + " " + name + "(s). New stock: " + NatToString(newQty), None);
          assert RemoveOutcome(rows, q) == Outcome(inventory, reply);
        } else {
          inventory := WithoutName(inventory, name);
          reply := Say("Removed " + name + " completely from inventory.", None);
          assert RemoveOutcome(rows, q) == Outcome(inventory, reply);
        }
      } else {
        reply := Say(NotIdentified, None);
        assert RemoveOutcome(rows, q) == Outcome(inventory, reply);
      }
    }

    /**
     * The assistant's side of a chat prompt: the reply, and the table as the
     * remove branch leaves it, are exactly what `Interpret` says.
     */
    method Answer(prompt: string) returns (reply: Msg)
      modifies this`inventory
      ensures Outcome(inventory, reply) == Interpret(old(inventory), prompt)
    {
      var rows := inventory;
      var q := Lower(prompt);
      var cats := UniqueCategories(rows);
      if AsksLowStock(q) {
        assert Classify(q, cats) == LowStockQuery;
        var low := LowStock(rows);
        if low == [] {
          reply := Say(AllClear, None);
        } else {
          reply := Say(LowStockHeading, Some(low));
        }
      } else if AnyMentioned(cats, q) {
        assert Classify(q, cats) == CategoryQuery;
        var found := FindFirstMentioned(cats, q);
        if found.Some? && found.value != "" {
          reply := Say("Items in **" + found.value + "**:", Some(InCategory(rows, found.value)));
        } else {
          reply := Say(CategoryNotFound + Join(", ", cats), None);
        }
      } else if AsksAll(q) {
        assert Classify(q, cats) == ListAll;
        reply := Say(ListAllHeading, Some(rows));
      } else if AsksRemove(q) {
        assert Classify(q, cats) == RemoveQuery;
        reply := RemoveByChat(q);
      } else {
        assert Classify(q, cats) == HelpQuery;
        reply := Say(HelpText, None);
      }
    }

    /**
     * A chat prompt: the transcript grows by the user's message, carrying the
     * prompt as typed, and then the assistant's reply; the table becomes what
     * `Interpret` says. An empty prompt is falsy and does nothing.
     */
    method Submit(prompt: string)
      modifies this`inventory, this`chat
      ensures prompt == "" ==> chat == old(chat) && inventory == old(inventory)
      ensures prompt != "" ==> chat == old(chat) + [Msg(User, prompt, None), Interpret(old(inventory), prompt).reply]
      ensures prompt != "" ==> inventory == Interpret(old(inventory), prompt).rows
      ensures csvLoaded == old(csvLoaded)
    {
      if prompt == "" {
        return;
      }
      chat := chat + [Msg(User, prompt, None)];
      var reply := Answer(prompt);
      chat := chat + [reply];
    }
  }
}

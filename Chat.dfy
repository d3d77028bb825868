/**
 * The chat assistant: the transcript entries, the fixed first-match-wins
 * intent order, and `Interpret`, the reference definition of what one
 * submitted prompt does to the table and which reply it produces.
 */
module Chat {
  import opened Wrappers
  import opened Text
  import opened Inventory

  datatype Role = User | Assistant

  /** A transcript entry; `table` is the dataframe attached to the reply, if any. */
  datatype Msg = Msg(role: Role, content: string, table: Option<seq<Item>>)

  /** The five branches of the assistant, in the order they are tried. */
  datatype Intent = LowStockQuery | CategoryQuery | ListAll | RemoveQuery | HelpQuery

  /** What one prompt leaves behind: the new table and the assistant's reply. */
  datatype Outcome = Outcome(rows: seq<Item>, reply: Msg)

  const AllClear: string := "All items are sufficiently stocked ✅"
  const LowStockHeading: string := "⚠ Low Stock Items:"
  const ListAllHeading: string := "Current Inventory:"
  const CategoryNotFound: string := "Category not found. Available: "
  const NotIdentified: string := "Could not identify item to remove. Make sure to include the exact item name."
  const HelpText: string := "Try commands like:\n- list items under electronics\n- show low stock\n- remove 2 wireless mouse\n- show all items"

  function Say(content: string, table: Option<seq<Item>>): Msg {
    Msg(Assistant, content, table)
  }

  /** `s.lower() in q`. */
  predicate Mentions(q: string, s: string) {
    Contains(q, Lower(s))
  }

  predicate AsksLowStock(q: string) { Contains(q, "low stock") || Contains(q, "stockout") }

  /** `any(s.lower() in q for s in names)`. */
  predicate AnyMentioned(names: seq<string>, q: string) {
    exists i :: 0 <= i < |names| && Mentions(q, names[i])
  }

  predicate AsksAll(q: string) { Contains(q, "all items") || Contains(q, "inventory") }

  predicate AsksRemove(q: string) { Contains(q, "remove") }

  /** The branch taken for the lower-cased query `q` when the table's categories are `cats`. */
  function Classify(q: string, cats: seq<string>): (intent: Intent)
    ensures intent == LowStockQuery <==> AsksLowStock(q)
    ensures intent == CategoryQuery <==> !AsksLowStock(q) && AnyMentioned(cats, q)
    ensures intent == ListAll <==> !AsksLowStock(q) && !AnyMentioned(cats, q) && AsksAll(q)
    ensures intent == RemoveQuery <==> !AsksLowStock(q) && !AnyMentioned(cats, q) && !AsksAll(q) && AsksRemove(q)
  {
    if AsksLowStock(q) then LowStockQuery
    else if AnyMentioned(cats, q) then CategoryQuery
    else if AsksAll(q) then ListAll
    else if AsksRemove(q) then RemoveQuery
    else HelpQuery
  }

  /** The position of the first entry of `names` whose lower-cased form occurs in `q`. */
  function FirstMentioned(names: seq<string>, q: string): (r: Option<nat>)
    ensures r.Some? ==> r.value < |names| && Mentions(q, names[r.value])
    ensures r.Some? ==> forall k :: 0 <= k < r.value ==> !Mentions(q, names[k])
    ensures r.None? <==> !AnyMentioned(names, q)
    decreases |names|
  {
    if names == [] then None
    else if Mentions(q, names[0]) then Some(0)
    else
      var r := FirstMentioned(names[1..], q);
      assert forall k :: 1 <= k < |names| ==> names[k] == names[1..][k - 1];
      match r
      case None => None
      case Some(i) => Some(i + 1)
  }

  /** The value at the position `FirstMentioned` picks, as the source's scan loop returns it. */
  function Pick(names: seq<string>, q: string): Option<string> {
    match FirstMentioned(names, q)
    case None => None
    case Some(i) => Some(names[i])
  }

  /**
   * The scan loop `for s in names: if s.lower() in q: found = s; break`
   * (over the unique categories, and over the item_name column).
   */
  method FindFirstMentioned(names: seq<string>, q: string) returns (found: Option<string>)
    ensures found == Pick(names, q)
  {
    found := None;
    var i := 0;
    while i < |names|
      invariant 0 <= i <= |names|
      invariant forall k :: 0 <= k < i ==> !Mentions(q, names[k])
    {
      if Mentions(q, names[i]) {
        found := Some(names[i]);
        break;
      }
      i := i + 1;
    }
  }

  /** The quantity a remove command asks for: the first run of digits read as a number, else 1. */
  function RequestedQuantity(q: string): (n: nat)
    ensures (forall i :: 0 <= i < |q| ==> !IsDigit(q[i])) ==> n == 1
    ensures FirstDigitRun(q).Some? ==> n == DigitsValue(FirstDigitRun(q).value)
  {
    match FirstDigitRun(q)
    case None => 1
    case Some(d) => DigitsValue(d)
  }

  /** The low-stock branch: the all-clear when nothing is low, else the heading with the low rows attached. */
  function LowStockReply(rows: seq<Item>): (m: Msg)
    ensures m.role == Assistant
    ensures m.table.None? <==> forall i :: 0 <= i < |rows| ==> !IsLow(rows[i])
    ensures m.table.None? ==> m.content == AllClear
    ensures m.table.Some? ==> m.content == LowStockHeading && m.table.value == LowStock(rows)
  {
    var low := LowStock(rows);
    if low == [] then Say(AllClear, None) else Say(LowStockHeading, Some(low))
  }

  /** Both lookups guard on the truthiness of the found value, so an empty string counts as not found. */
  function CategoryReply(rows: seq<Item>, cats: seq<string>, q: string): (m: Msg)
    ensures m.role == Assistant
    ensures m.table.Some? <==> Pick(cats, q).Some? && Pick(cats, q).value != ""
    ensures m.table.Some? ==>
              var c := Pick(cats, q).value;
              Mentions(q, c) && m.content == "Items in **" + c + "**:"
              && forall i :: 0 <= i < |m.table.value| ==> m.table.value[i] in rows && m.table.value[i].category == c
    ensures m.table.None? ==> m.content == CategoryNotFound + Join(", ", cats)
  {
    match Pick(cats, q)
    case Some(c) =>
      if c != "" then Say("Items in **" + c + "**:", Some(InCategory(rows, c)))
      else Say(CategoryNotFound + Join(", ", cats), None)
    case None => Say(CategoryNotFound + Join(", ", cats), None)
  }

  /** The remove branch: never attaches a table, and can only drop or rewrite rows. */
  function RemoveOutcome(rows: seq<Item>, q: string): (out: Outcome)
    ensures out.reply.role == Assistant && out.reply.table.None?
    ensures |out.rows| <= |rows|
    ensures forall i :: 0 <= i < |out.rows| ==> out.rows[i].id in Ids(rows)
  {
    var qty := RequestedQuantity(q);
    match FirstMentioned(Names(rows), q)
    case None => Outcome(rows, Say(NotIdentified, None))
    case Some(i) =>
      var name := rows[i].name;
      if name == "" then Outcome(rows, Say(NotIdentified, None))
      else
        var newQty := FirstQuantityOf(rows, name) - qty;
        if newQty > 0 then
          Outcome(SetQuantity(rows, name, newQty),
                  Say("Removed " + NatToString(qty) + " " + name + "(s). New stock: " + NatToString(newQty), None))
        else
          Outcome(WithoutName(rows, name), Say("Removed " + name + " completely from inventory.", None))
  }

  /** What submitting `prompt` against the table `rows` does; only the remove intent touches the table. */
  function Interpret(rows: seq<Item>, prompt: string): (out: Outcome)
    ensures out.reply.role == Assistant
    ensures Classify(Lower(prompt), UniqueCategories(rows)) != RemoveQuery ==> out.rows == rows
  {
    var q := Lower(prompt);
    var cats := UniqueCategories(rows);
    match Classify(q, cats)
    case LowStockQuery => Outcome(rows, LowStockReply(rows))
    case CategoryQuery => Outcome(rows, CategoryReply(rows, cats, q))
    case ListAll => Outcome(rows, Say(ListAllHeading, Some(rows)))
    case RemoveQuery => RemoveOutcome(rows, q)
    case HelpQuery => Outcome(rows, Say(HelpText, None))
  }

  // ---------------------------------------------------------------------------
  // Properties of one prompt
  // ---------------------------------------------------------------------------

  /** A low-stock question is answered by the low-stock filter and leaves the table alone. */
  lemma LowStockIntentAnswers(rows: seq<Item>, prompt: string)
    requires AsksLowStock(Lower(prompt))
    ensures Interpret(rows, prompt) == Outcome(rows, LowStockReply(rows))
  {
  }

  /** A low-stock question with no row below its reorder level gets the all-clear and no table. */
  lemma AllClearWhenNothingLow(rows: seq<Item>, prompt: string)
    requires AsksLowStock(Lower(prompt))
    requires forall i :: 0 <= i < |rows| ==> !IsLow(rows[i])
    ensures Interpret(rows, prompt) == Outcome(rows, Say(AllClear, None))
  {
    LowStockIntentAnswers(rows, prompt);
  }

  /** A low-stock answer attaches a table exactly when some row is low, and that table holds exactly the low rows, in table order. */
  lemma LowStockReplyListsLowRows(rows: seq<Item>, prompt: string)
    requires AsksLowStock(Lower(prompt))
    ensures Interpret(rows, prompt).rows == rows
    ensures Interpret(rows, prompt).reply.table.Some? <==> exists i :: 0 <= i < |rows| && IsLow(rows[i])
    ensures Interpret(rows, prompt).reply.table.Some? ==>
              var t := Interpret(rows, prompt).reply.table.value;
              Seqs.IsSubsequence(t, rows) && forall x :: multiset(t)[x] == if IsLow(x) then multiset(rows)[x] else 0
  {
    LowStockIntentAnswers(rows, prompt);
  }

  /**
   * Scanning a list of the distinct values of a column, kept in order of first
   * appearance, picks the same value as scanning the column itself.
   */
  lemma PickOfFirstAppearances(cats: seq<string>, all: seq<string>, q: string)
    requires forall i :: 0 <= i < |cats| ==> cats[i] in all
    requires forall k :: 0 <= k < |all| ==> all[k] in cats
    requires forall i, j :: 0 <= i < j < |cats| ==> Seqs.FirstIndexOf(all, cats[i]) < Seqs.FirstIndexOf(all, cats[j])
    requires AnyMentioned(cats, q)
    ensures FirstMentioned(all, q).Some?
    ensures Pick(cats, q) == Some(all[FirstMentioned(all, q).value])
  {
    var i := FirstMentioned(cats, q).value;
    var f := Seqs.FirstIndexOf(all, cats[i]);
    assert Mentions(q, all[f]);
    var k0 := FirstMentioned(all, q).value;
    var i' :| 0 <= i' < |cats| && cats[i'] == all[k0];
    assert Seqs.FirstIndexOf(all, cats[i']) <= k0;
    assert i' == i;
  }

  /**
   * Scanning the unique categories picks the same category as scanning the
   * category column row by row: the category of the first row whose category
   * the query mentions.
   */
  lemma PickUniqueIsFirstMentionedRow(rows: seq<Item>, q: string)
    requires AnyMentioned(UniqueCategories(rows), q)
    ensures FirstMentioned(Categories(rows), q).Some?
    ensures Pick(UniqueCategories(rows), q) == Some(rows[FirstMentioned(Categories(rows), q).value].category)
  {
    var cats := UniqueCategories(rows);
    var all := Categories(rows);
    assert forall k :: 0 <= k < |all| ==> all[k] in cats;
    PickOfFirstAppearances(cats, all, q);
  }

  /**
   * A category answer is about the category of the first row whose category
   * the prompt mentions: it lists exactly that category's rows, unless that
   * category is the empty string, which is falsy and gives "Category not found".
   */
  lemma CategoryReplyListsFirstMentioned(rows: seq<Item>, prompt: string)
    requires Classify(Lower(prompt), UniqueCategories(rows)) == CategoryQuery
    ensures FirstMentioned(Categories(rows), Lower(prompt)).Some?
    ensures var c := rows[FirstMentioned(Categories(rows), Lower(prompt)).value].category;
            (c != "" ==> Interpret(rows, prompt) == Outcome(rows, Say("Items in **" + c + "**:", Some(InCategory(rows, c)))))
            && (c == "" ==> Interpret(rows, prompt) == Outcome(rows, Say(CategoryNotFound + Join(", ", UniqueCategories(rows)), None)))
  {
    PickUniqueIsFirstMentionedRow(rows, Lower(prompt));
  }

  /** The "Category not found" reply can only come from a category that is the empty string. */
  lemma CategoryNotFoundNeedsEmptyCategory(rows: seq<Item>, prompt: string)
    requires Classify(Lower(prompt), UniqueCategories(rows)) == CategoryQuery
    requires Interpret(rows, prompt).reply.table.None?
    ensures exists k :: 0 <= k < |rows| && rows[k].category == ""
  {
    var cats := UniqueCategories(rows);
    var i := FirstMentioned(cats, Lower(prompt)).value;
    assert cats[i] in Categories(rows);
  }

  /** A prompt naming no category and not asking about low stock lists the table when it says "all items" or "inventory", even if it also says "remove". */
  lemma ListingBeatsRemove(rows: seq<Item>, prompt: string)
    requires !AsksLowStock(Lower(prompt)) && !AnyMentioned(UniqueCategories(rows), Lower(prompt))
    requires AsksAll(Lower(prompt))
    ensures Interpret(rows, prompt) == Outcome(rows, Say(ListAllHeading, Some(rows)))
  {
  }

  /** A prompt that matches none of the four intents gets the help text, no table, and leaves the table alone. */
  lemma HelpWhenNothingMatches(rows: seq<Item>, prompt: string)
    requires !AsksLowStock(Lower(prompt)) && !AnyMentioned(UniqueCategories(rows), Lower(prompt))
    requires !AsksAll(Lower(prompt)) && !AsksRemove(Lower(prompt))
    ensures Interpret(rows, prompt) == Outcome(rows, Say(HelpText, None))
  {
  }

  /** The remove command reads the stock of the very row its scan found: no earlier row has that name. */
  lemma RemoveReadsFoundRow(rows: seq<Item>, q: string, i: nat)
    requires FirstMentioned(Names(rows), q) == Some(i)
    ensures i < |rows| && FirstQuantityOf(rows, rows[i].name) == rows[i].quantity
  {
    var name := rows[i].name;
    assert exists j :: 0 <= j < |rows| && rows[j].name == name;
    var q0 := FirstQuantityOf(rows, name);
    var j :| 0 <= j < |rows| && rows[j].name == name && rows[j].quantity == q0
             && forall k :: 0 <= k < j ==> rows[k].name != name;
  }

  /**
   * A remove command that finds a named item subtracts the requested quantity
   * from that item's stock: a positive result is written to every row with
   * the name, anything else deletes every row with the name.
   */
  lemma ChatRemoveUpdatesOrDeletes(rows: seq<Item>, prompt: string, i: nat)
    requires Classify(Lower(prompt), UniqueCategories(rows)) == RemoveQuery
    requires FirstMentioned(Names(rows), Lower(prompt)) == Some(i)
    requires rows[i].name != ""
    ensures var name := rows[i].name;
            var qty := RequestedQuantity(Lower(prompt));
            var newQty := rows[i].quantity - qty;
            var out := Interpret(rows, prompt);
            (newQty > 0 ==> out == Outcome(SetQuantity(rows, name, newQty),
                                           Say("Removed " + NatToString(qty) + " " + name + "(s). New stock: " + NatToString(newQty), None)))
            && (newQty <= 0 ==> out == Outcome(WithoutName(rows, name), Say("Removed " + name + " completely from inventory.", None)))
  {
    RemoveReadsFoundRow(rows, Lower(prompt), i);
  }

  /** A remove command that names no item (or only an item with an empty name) leaves the table unchanged. */
  lemma ChatRemoveNotFound(rows: seq<Item>, prompt: string)
    requires Classify(Lower(prompt), UniqueCategories(rows)) == RemoveQuery
    requires match FirstMentioned(Names(rows), Lower(prompt))
             case None => true
             case Some(i) => rows[i].name == ""
    ensures Interpret(rows, prompt) == Outcome(rows, Say(NotIdentified, None))
  {
  }

  /** No prompt can make two rows share an id. */
  lemma InterpretKeepsIdsUnique(rows: seq<Item>, prompt: string)
    requires IdsUnique(rows)
    ensures IdsUnique(Interpret(rows, prompt).rows)
  {
    var q := Lower(prompt);
    if Classify(q, UniqueCategories(rows)) == RemoveQuery {
      var found := FirstMentioned(Names(rows), q);
      if found.None? || rows[found.value].name == "" {
        ChatRemoveNotFound(rows, prompt);
      } else {
        var i := found.value;
        var name := rows[i].name;
        var newQty := rows[i].quantity - RequestedQuantity(q);
        ChatRemoveUpdatesOrDeletes(rows, prompt, i);
        if newQty > 0 {
          SetQuantityKeepsIdsUnique(rows, name, newQty);
        } else {
          WithoutNameKeepsIdsUnique(rows, name);
        }
      }
    }
  }
}

/**
 * The inventory table held in the session: a sequence of item rows, and the
 * pure transformations the dashboard applies to it (CSV de-duplication,
 * the id of an added row, the quantity update and the removal by name, the
 * low-stock and category filters, the unique categories).
 */
module Inventory {
  import opened Seqs

  /** One row: item_id, item_name, category, quantity_in_stock, reorder_level, supplier. */
  datatype Item = Item(id: int, name: string, category: string, quantity: int, reorderLevel: int, supplier: string)

  /** The key a CSV import de-duplicates on. */
  function NameAndCategory(it: Item): (string, string) { (it.name, it.category) }

  function ItemId(it: Item): int { it.id }

  /** The `item_name` column. */
  function Names(rows: seq<Item>): (names: seq<string>)
    ensures |names| == |rows| && forall i :: 0 <= i < |rows| ==> names[i] == rows[i].name
  {
    seq(|rows|, i requires 0 <= i < |rows| => rows[i].name)
  }

  /** The `category` column. */
  function Categories(rows: seq<Item>): (cats: seq<string>)
    ensures |cats| == |rows| && forall i :: 0 <= i < |rows| ==> cats[i] == rows[i].category
  {
    seq(|rows|, i requires 0 <= i < |rows| => rows[i].category)
  }

  /** The `item_id` column, as a set. */
  function Ids(rows: seq<Item>): set<int> {
    set i | 0 <= i < |rows| :: rows[i].id
  }

  predicate IdsUnique(rows: seq<Item>) {
    forall i, j :: 0 <= i < j < |rows| ==> rows[i].id != rows[j].id
  }

  // ---------------------------------------------------------------------------
  // CSV load
  // ---------------------------------------------------------------------------

  /** `drop_duplicates(subset=["item_name", "category"], keep="first")`. */
  function Deduplicated(rows: seq<Item>): (r: seq<Item>)
    ensures DistinctBy(r, NameAndCategory)
    ensures forall i :: 0 <= i < |r| ==> r[i] in rows
  {
    DedupBy(rows, NameAndCategory)
  }

  /** Every row that is the first of its key survives the load. */
  lemma LoadKeepsFirstOccurrence(rows: seq<Item>, i: int)
    requires 0 <= i < |rows| && IsFirstOfKey(rows, NameAndCategory, i)
    ensures rows[i] in Deduplicated(rows)
  {
    DedupKeepsFirst(rows, NameAndCategory, i);
  }

  /** Every row that survives the load is the first row of its key in the upload. */
  lemma LoadKeepsOnlyFirstOccurrences(rows: seq<Item>, x: Item)
    requires x in Deduplicated(rows)
    ensures exists i :: 0 <= i < |rows| && rows[i] == x && IsFirstOfKey(rows, NameAndCategory, i)
  {
    DedupOnlyFirst(rows, NameAndCategory, x);
  }

  /** No (item_name, category) pair of the upload is lost by the load. */
  lemma LoadKeepsEveryKey(rows: seq<Item>, k: int)
    requires 0 <= k < |rows|
    ensures exists j :: 0 <= j < |Deduplicated(rows)| && Deduplicated(rows)[j].name == rows[k].name
                                                   && Deduplicated(rows)[j].category == rows[k].category
  {
    DedupKeepsEveryKey(rows, NameAndCategory, k);
    var r := Deduplicated(rows);
    var j :| 0 <= j < |r| && NameAndCategory(r[j]) == NameAndCategory(rows[k]);
    assert r[j].name == rows[k].name && r[j].category == rows[k].category;
  }

  /**
   * The rows kept by the load appear in the order of their first appearance
   * in the upload: wherever the upload holds the key of a later kept row, it
   * held the key of an earlier kept row before.
   */
  lemma LoadKeepsOrder(rows: seq<Item>)
    ensures IsSubsequence(Deduplicated(rows), rows)
    ensures var r := Deduplicated(rows);
            forall i, j, k :: 0 <= i < j < |r| && 0 <= k < |rows| && NameAndCategory(rows[k]) == NameAndCategory(r[j]) ==>
              exists m :: 0 <= m < k && NameAndCategory(rows[m]) == NameAndCategory(r[i])
  {
    DedupIsSubsequence(rows, NameAndCategory);
    var r := Deduplicated(rows);
    forall i, j, k | 0 <= i < j < |r| && 0 <= k < |rows| && NameAndCategory(rows[k]) == NameAndCategory(r[j])
      ensures exists m :: 0 <= m < k && NameAndCategory(rows[m]) == NameAndCategory(r[i])
    {
      DedupFirstAppearanceOrder(rows, NameAndCategory, i, j, k);
    }
  }

  /** Loading an upload with one more row at the end keeps that row exactly when its (item_name, category) is new. */
  lemma LoadAppend(rows: seq<Item>, x: Item)
    ensures Deduplicated(rows + [x])
            == Deduplicated(rows)
               + (if exists k :: 0 <= k < |rows| && rows[k].name == x.name && rows[k].category == x.category then [] else [x])
  {
    DedupBySnoc(rows, x, NameAndCategory);
    assert (exists k :: 0 <= k < |rows| && NameAndCategory(rows[k]) == NameAndCategory(x))
       <==> (exists k :: 0 <= k < |rows| && rows[k].name == x.name && rows[k].category == x.category);
  }

  /** Loading an already de-duplicated table (for instance a re-imported export) changes nothing. */
  lemma LoadIdempotent(rows: seq<Item>)
    ensures Deduplicated(Deduplicated(rows)) == Deduplicated(rows)
  {
    DedupIdempotent(rows, NameAndCategory);
  }

  // ---------------------------------------------------------------------------
  // Add
  // ---------------------------------------------------------------------------

  /** `inventory_df["item_id"].max()` on a non-empty table. */
  function MaxId(rows: seq<Item>): (m: int)
    requires rows != []
    ensures forall i :: 0 <= i < |rows| ==> rows[i].id <= m
    ensures exists i :: 0 <= i < |rows| && rows[i].id == m
    decreases |rows|
  {
    if |rows| == 1 then rows[0].id
    else
      var m := MaxId(rows[1..]);
      assert forall i :: 1 <= i < |rows| ==> rows[i] == rows[1..][i - 1];
      if rows[0].id >= m then rows[0].id else m
  }

  /** The id given to an added row: one more than the largest id, or 1 on an empty table. */
  function NextId(rows: seq<Item>): (id: int)
    ensures forall i :: 0 <= i < |rows| ==> rows[i].id < id
    ensures rows == [] ==> id == 1
    ensures rows != [] ==> exists i :: 0 <= i < |rows| && rows[i].id == id - 1
  {
    if rows != [] then MaxId(rows) + 1 else 1
  }

  /** Appending a row with the next id keeps the ids unique. */
  lemma AddKeepsIdsUnique(rows: seq<Item>, it: Item)
    requires IdsUnique(rows) && it.id == NextId(rows)
    ensures IdsUnique(rows + [it])
  {
    var r := rows + [it];
    forall i, j | 0 <= i < j < |r| ensures r[i].id != r[j].id {
      assert r[i] == rows[i];
      if j < |rows| { assert r[j] == rows[j]; }
    }
  }

  // ---------------------------------------------------------------------------
  // Update and remove by name
  // ---------------------------------------------------------------------------

  /** `df.loc[df["item_name"] == name, "quantity_in_stock"] = q`. */
  function SetQuantity(rows: seq<Item>, name: string, q: int): (r: seq<Item>)
    ensures |r| == |rows|
    ensures forall i :: 0 <= i < |rows| && rows[i].name == name ==> r[i].quantity == q
    ensures forall i :: 0 <= i < |rows| ==>
              r[i].id == rows[i].id && r[i].name == rows[i].name && r[i].category == rows[i].category
              && r[i].reorderLevel == rows[i].reorderLevel && r[i].supplier == rows[i].supplier
    ensures forall i :: 0 <= i < |rows| && rows[i].name != name ==> r[i] == rows[i]
    decreases |rows|
  {
    if rows == [] then []
    else
      var head := if rows[0].name == name then rows[0].(quantity := q) else rows[0];
      var r := [head] + SetQuantity(rows[1..], name, q);
      assert forall i :: 1 <= i < |rows| ==> r[i] == SetQuantity(rows[1..], name, q)[i - 1] && rows[i] == rows[1..][i - 1];
      r
  }

  /** The quantity update leaves the ids as they are, so keeps them unique. */
  lemma SetQuantityKeepsIdsUnique(rows: seq<Item>, name: string, q: int)
    requires IdsUnique(rows)
    ensures IdsUnique(SetQuantity(rows, name, q))
  {
  }

  /** `df[df["item_name"] != name]`. */
  function WithoutName(rows: seq<Item>, name: string): (r: seq<Item>)
    ensures forall i :: 0 <= i < |r| ==> r[i].name != name && r[i] in rows
    ensures forall i :: 0 <= i < |rows| && rows[i].name != name ==> rows[i] in r
    ensures forall y :: multiset(r)[y] == if y.name != name then multiset(rows)[y] else 0
    ensures IsSubsequence(r, rows)
  {
    var keep := (it: Item) => it.name != name;
    FilterIsSubsequence(rows, keep);
    assert forall y :: multiset(Filter(rows, keep))[y] == if keep(y) then multiset(rows)[y] else 0 by {
      forall y { FilterCount(rows, keep, y); }
    }
    Filter(rows, keep)
  }

  /** Removal by name keeps the ids unique. */
  lemma WithoutNameKeepsIdsUnique(rows: seq<Item>, name: string)
    requires IdsUnique(rows)
    ensures IdsUnique(WithoutName(rows, name))
  {
    var keep := (it: Item) => it.name != name;
    assert DistinctBy(rows, ItemId);
    FilterKeepsDistinct(rows, keep, ItemId);
    var r := WithoutName(rows, name);
    assert r == Filter(rows, keep);
    forall i, j | 0 <= i < j < |r| ensures r[i].id != r[j].id {
      assert ItemId(r[i]) != ItemId(r[j]);
    }
  }

  /** `df.loc[df["item_name"] == name, "quantity_in_stock"].iloc[0]`: the quantity of the first row with that name. */
  function FirstQuantityOf(rows: seq<Item>, name: string): (q: int)
    requires exists i :: 0 <= i < |rows| && rows[i].name == name
    ensures exists i :: 0 <= i < |rows| && rows[i].name == name && rows[i].quantity == q
                        && forall k :: 0 <= k < i ==> rows[k].name != name
    decreases |rows|
  {
    if rows[0].name == name then rows[0].quantity
    else
      assert exists i :: 0 <= i < |rows[1..]| && rows[1..][i].name == name by {
        var i :| 0 <= i < |rows| && rows[i].name == name;
        assert rows[1..][i - 1] == rows[i];
      }
      var q := FirstQuantityOf(rows[1..], name);
      assert forall i :: 1 <= i < |rows| ==> rows[i] == rows[1..][i - 1];
      q
  }

  // ---------------------------------------------------------------------------
  // Filters read by the chat assistant and the dashboard
  // ---------------------------------------------------------------------------

  /** An item is at stockout risk when its stock is strictly below its reorder level. */
  predicate IsLow(it: Item) { it.quantity < it.reorderLevel }

  /** `df[df["quantity_in_stock"] < df["reorder_level"]]`. */
  function LowStock(rows: seq<Item>): (r: seq<Item>)
    ensures forall i :: 0 <= i < |r| ==> r[i] in rows && IsLow(r[i])
    ensures forall i :: 0 <= i < |rows| && IsLow(rows[i]) ==> rows[i] in r
    ensures r == [] <==> forall i :: 0 <= i < |rows| ==> !IsLow(rows[i])
    ensures forall y :: multiset(r)[y] == if IsLow(y) then multiset(rows)[y] else 0
    ensures IsSubsequence(r, rows)
  {
    FilterIsSubsequence(rows, IsLow);
    assert forall y :: multiset(Filter(rows, IsLow))[y] == if IsLow(y) then multiset(rows)[y] else 0 by {
      forall y { FilterCount(rows, IsLow, y); }
    }
    Filter(rows, IsLow)
  }

  /** `df[df["category"] == cat]`. */
  function InCategory(rows: seq<Item>, cat: string): (r: seq<Item>)
    ensures forall i :: 0 <= i < |r| ==> r[i] in rows && r[i].category == cat
    ensures forall i :: 0 <= i < |rows| && rows[i].category == cat ==> rows[i] in r
    ensures forall y :: multiset(r)[y] == if y.category == cat then multiset(rows)[y] else 0
    ensures IsSubsequence(r, rows)
  {
    var keep := (it: Item) => it.category == cat;
    FilterIsSubsequence(rows, keep);
    assert forall y :: multiset(Filter(rows, keep))[y] == if keep(y) then multiset(rows)[y] else 0 by {
      forall y { FilterCount(rows, keep, y); }
    }
    Filter(rows, keep)
  }

  /** Categories are de-duplicated on the string itself. */
  function CategoryKey(c: string): string { c }

  /** A later unique category first occurs in the column after an earlier one does. */
  lemma CategoriesInFirstAppearanceOrder(rows: seq<Item>, i: int, j: int)
    requires 0 <= i < j < |DedupBy(Categories(rows), CategoryKey)|
    ensures var cats := DedupBy(Categories(rows), CategoryKey);
            FirstIndexOf(Categories(rows), cats[i]) < FirstIndexOf(Categories(rows), cats[j])
  {
    var all := Categories(rows);
    var cats := DedupBy(all, CategoryKey);
    var k := FirstIndexOf(all, cats[j]);
    DedupFirstAppearanceOrder(all, CategoryKey, i, j, k);
    var m :| 0 <= m < k && CategoryKey(all[m]) == CategoryKey(cats[i]);
  }

  /** The facts `UniqueCategories` promises, about the de-duplicated column. */
  lemma UniqueCategoriesFacts(rows: seq<Item>)
    ensures var cats := DedupBy(Categories(rows), CategoryKey);
            (forall i, j :: 0 <= i < j < |cats| ==> cats[i] != cats[j])
            && (forall k :: 0 <= k < |rows| ==> rows[k].category in cats)
            && IsSubsequence(cats, Categories(rows))
  {
    var all := Categories(rows);
    var cats := DedupBy(all, CategoryKey);
    assert forall i, j :: 0 <= i < j < |cats| ==> CategoryKey(cats[i]) != CategoryKey(cats[j]);
    forall k | 0 <= k < |rows| ensures rows[k].category in cats {
      DedupKeepsEveryKey(all, CategoryKey, k);
    }
    DedupIsSubsequence(all, CategoryKey);
  }

  /** `df["category"].unique()`: each category once, in order of first appearance. */
  function UniqueCategories(rows: seq<Item>): (cats: seq<string>)
    ensures forall i, j :: 0 <= i < j < |cats| ==> cats[i] != cats[j]
    ensures forall i :: 0 <= i < |cats| ==> cats[i] in Categories(rows)
    ensures forall k :: 0 <= k < |rows| ==> rows[k].category in cats
    ensures IsSubsequence(cats, Categories(rows))
    ensures forall i, j :: 0 <= i < j < |cats| ==>
              FirstIndexOf(Categories(rows), cats[i]) < FirstIndexOf(Categories(rows), cats[j])
  {
    var all := Categories(rows);
    var cats := DedupBy(all, CategoryKey);
    UniqueCategoriesFacts(rows);
    assert forall i, j :: 0 <= i < j < |cats| ==> FirstIndexOf(all, cats[i]) < FirstIndexOf(all, cats[j]) by {
      forall i, j | 0 <= i < j < |cats|
        ensures FirstIndexOf(all, cats[i]) < FirstIndexOf(all, cats[j])
      {
        CategoriesInFirstAppearanceOrder(rows, i, j);
      }
    }
    cats
  }
}

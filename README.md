# Inventory dashboard session — a Dafny model

This project models the session logic of a single-page inventory dashboard. The UI, dataframe and charting calls are removed. What remains is:

- **The inventory table.** It is a sequence of item rows (`item_id`, `item_name`, `category`, `quantity_in_stock`, `reorder_level`, `supplier`), held in a per-user session.
- **Direct table actions.** A CSV upload is read once and de-duplicated on (item_name, category), keeping the first row. The add form appends a row with the next id. The update form overwrites the stock of every row with a given name. The remove form drops every row with a given name.
- **The chat assistant.** It lower-cases the prompt and sends it to exactly one intent. Intents are tried in a fixed order and the first match wins: low stock, a mentioned category, all items / inventory, remove, help. The remove intent reads a quantity (the first run of digits, else 1). It finds the first row, in table order, whose lower-cased name occurs in the prompt. It then either writes the decremented stock to every row with that name, or deletes them all. Every prompt appends the user's message and then the assistant's reply to the transcript.

Layout:

- `Wrappers.dfy`: `Option`.
- `Seqs.dfy`: generic boolean-mask filtering and first-occurrence de-duplication on a key, with their order and exactness lemmas.
- `Text.dfy`: ASCII lower-casing, Python substring containment, the first digit run, `int(...)` of digits and `str(n)`.
- `Inventory.dfy`: the `Item` row and the pure table transformations.
- `Chat.dfy`:
  - the intent order and the scan loops;
  - `Interpret`, the reference definition of what one prompt does;
  - the lemmas about `Interpret`.
- `Session.dfy`: the `Session` class. It has one method per user action, and each method states its whole new state.
- `Examples.dfy`: single prompts against small tables, proved outright.

The two scan loops with `break` share one method, `Chat.FindFirstMentioned`. It is a `while` loop, proved against the function `FirstMentioned`. One loop runs over the unique categories in the category branch (app.py:161-164). The other runs over the `item_name` column in the remove branch (app.py:195-198).

The session-state updates are methods of `SessionState.Session`. Each changes the fields it names and states the new state through a function:
- the CSV load (app.py:23-28);
- the add form (app.py:85-88);
- the update form (app.py:104-107);
- the remove form (app.py:121-123);
- a chat prompt (app.py:138-242), including the remove branch's writes (app.py:207-217).

The pandas expressions these use become functions: filters, `drop_duplicates`, `unique()`, `max()` and `.iloc[0]`.

Notes on app.py's behaviour:

- Update by name writes to **all** rows with that name, not just the first.
- The chat remove reads the stock from the first row with the name. It then writes to, or deletes, **every** row with that name.
- The checks `if found_category:` and `if item_name:` use Python truthiness. So a found empty string counts as "not found". The model reproduces this. `Chat.CategoryNotFoundNeedsEmptyCategory` shows that "Category not found" is reachable only through an empty category name.
- An empty chat prompt is falsy (`if prompt := ...`) and does nothing.

## Model

| member | source | states |
|---|---|---|
| Seqs.Filter | app.py:147 | A `df[mask]` filter: no longer than the input; a row is in the result iff it is in the input and satisfies the mask |
| Seqs.FilterCount | app.py:147 | A filter keeps every copy of a retained row and no copy of a dropped one |
| Seqs.FilterConcat | app.py:147 | Filtering distributes over concatenation, which with the one-row case fixes the result and its order uniquely |
| Seqs.FilterIsSubsequence | app.py:121-123 | A filtered table keeps the original relative order of the retained rows |
| Seqs.FilterKeepsDistinct | app.py:121-123 | Filtering a table whose rows have distinct keys yields rows with distinct keys |
| Seqs.DedupFrom | app.py:26-28 | Front-to-back de-duplication: survivors have distinct keys, none already seen, all taken from the input |
| Seqs.DedupBy | app.py:26-28 | `drop_duplicates(keep="first")` on a key: survivors have pairwise distinct keys and come from the input |
| Seqs.DedupIsSubsequence | app.py:26-28 | Survivors form a subsequence of the input |
| Seqs.DedupBySnoc | app.py:26-28 | Appending an element to the input appends it to the survivors exactly when no earlier element has its key; with the empty case this determines the result, including its order |
| Seqs.DedupFirstAppearanceOrder | app.py:26-28 | Survivors are in order of first appearance: wherever a later survivor's key occurs in the input, an earlier survivor's key occurred before it |
| Seqs.DedupKeepsFirst | app.py:26-28 | Every row that is the first of its key survives |
| Seqs.DedupOnlyFirst | app.py:26-28 | Every survivor is the first row of its key in the input |
| Seqs.DedupKeepsEveryKey | app.py:26-28 | Every key of the input is represented among the survivors |
| Seqs.DedupOfDistinct | app.py:26-28 | A table whose keys are already distinct is returned unchanged |
| Seqs.DedupIdempotent | app.py:26-28 | De-duplicating twice equals de-duplicating once |
| Text.Lower | app.py:141 | `prompt.lower()` on ASCII: same length, capitals mapped to lower case, every other character unchanged, no capital left |
| Text.Contains | app.py:146 | Python `needle in hay`: true iff the needle occurs at some position of the haystack (so the empty needle always occurs) |
| Text.FirstDigitAt | app.py:190 | Position of the first digit: a digit, with no digit before it; none iff the string holds no digit |
| Text.LeadingDigits | app.py:190 | The maximal all-digit prefix: a prefix, all digits, followed by a non-digit or the end |
| Text.FirstDigitRun | app.py:190-192 | `re.search(r'\d+')`: none iff there is no digit; otherwise a non-empty digit block starting at the leftmost digit and extending as far as the digits go |
| Text.NatToString | app.py:212 | `str(n)`: a non-empty digit string that `int(...)` reads back as `n`, with a leading '0' only for 0, and exactly "0" for 0 |
| Text.DigitsValue | app.py:192 | `int(digits)`: the value is 0 iff every digit is '0' |
| Text.Join | app.py:177 | `', '.join(parts)`: empty for no parts, the part itself for one part, starts with the first part |
| Text.JoinSnoc | app.py:177 | Joining one more part appends the separator and then that part; with the zero- and one-part cases this fixes the joined text and the order of its parts |
| Text.JoinContainsEveryPart | app.py:177 | Every part occurs in the joined text |
| Inventory.Deduplicated | app.py:26-28 | After a load no two rows share (item_name, category), and every row comes from the upload |
| Inventory.LoadKeepsFirstOccurrence | app.py:26-28 | A row with no earlier row of the same (item_name, category) is kept |
| Inventory.LoadKeepsOnlyFirstOccurrences | app.py:26-28 | Every kept row is the first upload row of its (item_name, category) |
| Inventory.LoadKeepsEveryKey | app.py:26-28 | Every (item_name, category) pair of the upload is still present after the load |
| Inventory.LoadKeepsOrder | app.py:26-28 | Kept rows are a subsequence of the upload, in order of first appearance: wherever the upload holds a later kept row's (item_name, category), it held an earlier kept row's pair before |
| Inventory.LoadAppend | app.py:26-28 | An upload with one more row at the end loads as before, plus that row exactly when its (item_name, category) is new |
| Inventory.LoadIdempotent | app.py:26-28 | Re-loading a loaded table changes nothing |
| Inventory.MaxId | app.py:73 | `item_id.max()`: at least every id and equal to some row's id |
| Inventory.NextId | app.py:72-75 | The new id exceeds every existing id; it is 1 on an empty table and otherwise exactly one more than some existing id, i.e. max + 1 |
| Inventory.AddKeepsIdsUnique | app.py:72-88 | Appending the row with the next id keeps ids unique |
| Inventory.SetQuantity | app.py:104-107 | Same length; every row with the name gets the new stock; all other fields of every row are unchanged; rows with other names are unchanged |
| Inventory.SetQuantityKeepsIdsUnique | app.py:104-107 | The quantity update preserves id uniqueness |
| Inventory.WithoutName | app.py:121-123 | No remaining row has the name; every row with another name is kept with all its copies; order is preserved |
| Inventory.WithoutNameKeepsIdsUnique | app.py:121-123 | Removal by name preserves id uniqueness |
| Inventory.FirstQuantityOf | app.py:201-203 | `.iloc[0]` of the matching rows: the stock of the first row with that name |
| Inventory.LowStock | app.py:147 | Exactly the rows with stock below reorder level, each copy kept, in table order; empty iff no row is low |
| Inventory.InCategory | app.py:167 | Exactly the rows whose category equals the given one, each copy kept, in table order |
| Inventory.UniqueCategories | app.py:158 | `category.unique()`: pairwise distinct, each one a category of some row, every row's category present, and the first index of each in the column increases along the list |
| Inventory.CategoriesInFirstAppearanceOrder | app.py:158 | A later unique category first occurs in the category column after an earlier one does |
| Chat.Classify | app.py:146-239 | Exactly one intent, first match wins: low stock iff its keywords occur; category iff not low stock and some category is mentioned; list-all and remove likewise after the earlier ones fail |
| Chat.FirstMentioned | app.py:161-164 | The first entry whose lower-cased form occurs in the query, with no earlier entry occurring; none iff no entry occurs |
| Chat.FindFirstMentioned | app.py:195-198 | The scan loop with `break` (also used for lines 161-164) returns exactly the entry `FirstMentioned` picks |
| Chat.RequestedQuantity | app.py:189-192 | The quantity asked for: 1 when the query holds no digit, otherwise `int` of the first digit run |
| Chat.LowStockReply | app.py:147-155 | Assistant reply; no table iff no row is low, then the all-clear text; otherwise the low-stock heading with the low-stock rows |
| Chat.CategoryReply | app.py:158-178 | Assistant reply; a table iff the scan picks a non-empty category, which the query mentions, with the heading naming it and only that category's rows; otherwise "Category not found" followed by the joined category list |
| Chat.PickOfFirstAppearances | app.py:157-164 | Scanning the distinct values of a column, in first-appearance order, picks the value of the first mentioned row of the column |
| Chat.PickUniqueIsFirstMentionedRow | app.py:157-164 | The category scan over `unique()` finds the category of the first row whose category the query mentions |
| Chat.RemoveOutcome | app.py:187-227 | The remove branch attaches no table, never adds rows, and keeps only ids already in the table |
| Chat.Interpret | app.py:136-242 | The reply is an assistant message; every intent other than remove leaves the table unchanged |
| Chat.LowStockIntentAnswers | app.py:146-155 | A low-stock question is answered by the low-stock filter and leaves the table unchanged |
| Chat.AllClearWhenNothingLow | app.py:148-149 | With no low row, the reply is the all-clear text with no table |
| Chat.LowStockReplyListsLowRows | app.py:146-155 | A table is attached iff some row is low; it holds exactly the low rows, every copy of each, in table order; the table is unchanged |
| Chat.CategoryReplyListsFirstMentioned | app.py:157-178 | A category answer is about the category of the first row whose category the prompt mentions: a non-empty one gets its heading and exactly its rows; an empty one gets "Category not found" with the joined list; the table is unchanged |
| Chat.CategoryNotFoundNeedsEmptyCategory | app.py:166-178 | The "Category not found" reply requires a row whose category is the empty string |
| Chat.ListingBeatsRemove | app.py:180-187 | With no low-stock keyword and no mentioned category, "all items" or "inventory" lists the whole table unchanged, even if "remove" also occurs |
| Chat.HelpWhenNothingMatches | app.py:229-239 | A prompt matching none of the four intents gets the help text with no table, and the table is unchanged |
| Chat.RemoveReadsFoundRow | app.py:200-204 | The stock read by the remove command is that of the very row the scan found |
| Chat.ChatRemoveUpdatesOrDeletes | app.py:187-221 | Found name, new stock = its stock minus the requested quantity: if positive every row with the name gets it (with the "Removed n name(s)" reply), else every row with the name is deleted |
| Chat.ChatRemoveNotFound | app.py:223-227 | No mentioned name, or only an empty one: table unchanged, not-identified reply |
| Chat.InterpretKeepsIdsUnique | app.py:187-217 | No prompt can make two rows share an id |
| SessionState.Session.constructor | app.py:12-16 | A new session has an empty table, an empty transcript (as app.py creates at line 132) and no CSV read |
| SessionState.Session.Upload | app.py:22-28 | First upload: the table becomes the de-duplicated upload and the flag is set; later uploads change nothing; transcript untouched |
| SessionState.Session.AddItem | app.py:71-88 | The table is the old table plus one row at the end carrying the next id, which exceeds every old id; id uniqueness is preserved |
| SessionState.Session.UpdateQuantity | app.py:103-107 | The table becomes `SetQuantity` of the old table; nothing else changes |
| SessionState.Session.RemoveItem | app.py:120-123 | The table becomes `WithoutName` of the old table and no row keeps the name; nothing else changes |
| SessionState.Session.ReadQuantity | app.py:189-192 | The assignments `qty = 1`, then `int(...)` of the first match, give exactly `RequestedQuantity` |
| SessionState.Session.RemoveByChat | app.py:187-227 | Table and reply are exactly those `RemoveOutcome` defines for the old table |
| SessionState.Session.Answer | app.py:140-239 | The if-chain produces the reply and the table change that `Interpret` defines for the old table |
| SessionState.Session.Submit | app.py:136-242 | A non-empty prompt appends the user message with the prompt as typed, then the reply `Interpret` gives, and sets the table to `Interpret`'s; an empty prompt changes nothing |
| Examples.RemoveTwoOfFive | app.py:187-213 | "remove 2 widget" against a Widget row holding 5 leaves it holding 3, replying "Removed 2 Widget(s). New stock: 3" |
| Examples.RemoveTwoOfTwo | app.py:214-221 | "remove 2 widget" against a Widget row holding 2 deletes the row, replying "Removed Widget completely from inventory." |
| Examples.ShowLowStockAllClear | app.py:146-149 | "show low stock" on a table with no low row gets the all-clear and no table |
| Examples.InventoryOutranksRemove | app.py:180-187 | On a table with the add form's categories, "show inventory and remove 2 mouse" lists the table and changes nothing |

## Left out

- All presentation is left out, because it has no logic: page setup, logo, expanders, forms and widgets, tabs, chat rendering, metric cards, alerts and the bar chart (app.py:6-7, 49-69, 247-252, 254-299, 332-345). The KPI count and the dashboard's low-stock tables (app.py:267, 284, 320) apply the same filter as `Inventory.LowStock`.
- CSV parsing and export (`read_csv`, `to_csv`) are foreign library calls. An upload is modelled as its already-parsed rows, so the export/import round trip is covered only through `Inventory.LoadIdempotent`.
- `price_per_unit` is a float that is only carried through, so it is omitted from `Item`.
- The hard-coded KPI constants and the executive summary's `groupby(...).idxmax()/idxmin()` are left out: they are display only, and their tie-breaking depends on pandas' key order.
- `st.stop()` on an empty table is not modelled as a precondition. The actions are modelled on every table, including the empty one the source handles in `NextId`.
- Widget-level input constraints (stock and reorder level at least 0, category from a fixed list of three) are not required by any property, so the form methods do not require them.
- Text.Lower: lower-cases ASCII capitals only. Python's Unicode case mapping, which can change string length, is not modelled.
- Text.FirstDigitRun: recognises ASCII digits only. Python's `\d` and `int` also accept other Unicode decimal digits.
- Chat.LowStockReplyListsLowRows: the attached table holds whole rows. The source attaches only a subset of columns (item_name, category, quantity, reorder level; for categories item_name, quantity, reorder level). Column projection is display only.
- Chat.Interpret: an attached full table is stored as a value snapshot. The source stores a reference to the live dataframe, so a later in-place `.loc` write (update form, chat decrement) also changes what an earlier "Current Inventory" reply refers to. This aliasing is not modelled.
- Integers are unbounded. numpy's 64-bit overflow for huge requested quantities, and float-typed stock columns produced by missing CSV cells, are not modelled. Neither are the exceptions raised by non-string names or categories.
- Streamlit's rerun model (one script run per interaction) is modelled as one method call per user action.

# Workwear inventory (Munkaruha Nyilvántartó) in Dafny

This project models the bookkeeping of a small workwear store. The store keeps two tables:

- The **stock table** ("raktár") has one row per garment type ("Típus") and size ("Méret"), with the quantity on hand ("Mennyiség").
- The **issuance log** ("kiadási napló") has one row per hand-out: date, worker ("Dolgozó"), type, size and quantity.

The program changes the tables with four buttons:

- stock-in ("Bevitel");
- issue ("Kiadás");
- type registration ("Típus hozzáadása");
- worker registration ("Dolgozó hozzáadása").

It also derives these views from the tables:

- the choice lists of the issue form;
- the low-stock flag of the stock view;
- the log report: the log filtered by worker and date range, sorted newest first, then summed per worker and pivoted worker × type.

Layout:

- `Tables.dfy`: the two row types, the refusal reasons and the constants. The constants are `MinStock` = 5, `AllWorkers` = "(összes)" and the length of a day. The module also has the whitespace test behind `strip()`.
- `Seqs.dfy`: `Distinct` (pandas' `unique()`), `Sum` and facts about duplicate-free sequences.
- `Sorting.dfy`: the two report orders, both built on a verified insertion sort.
  - `NameLe` is Python's string order.
  - `NewerOrSame` puts later dates first and rows without a date last.
- `Inventory.dfy`: the stock table's transitions as functions from the old table to the new one. These are stock-in, the stock side of an issue and type registration. The module also holds the type and size choice lists and the low-stock flags. `Valid` is the table invariant: no negative quantity, and at most one row per (type, size).
- `Ledger.dfy`: the log's transitions, the worker choice lists, and the report's filter and order. `WellFormed` is the log invariant: every row is either a dated issuance of at least one piece, or the placeholder of a registered worker.
- `Reports.dfy`: the per-worker summary, the pivot with its "Összesen" column, and the report's worker list.
- `Workwear.dfy`: class `Store`, which holds both tables as `seq` fields. Its methods `StockIn`, `Issue`, `AddType` and `AddWorker` change them in place.
  - Each method's `ensures` ties the new state to the functions above and states that `Valid()` is preserved.
  - `Issue` also states the conservation law: what is in stock plus what has been handed out stays the same.
  - Four scenario methods walk the store through the program's basic stories, and the verifier proves each outcome: partial issue, insufficient stock, unknown item, and issuing the last piece.

Timestamps are integers, counting seconds. The issue time is a parameter, `now`. A log row's calendar day is `DayOf(date)`. Report date bounds are day numbers, and both ends are inclusive. The registration placeholder row has an empty date, which the program parses to "no date". The model writes that as `None`, and such a row never passes the date filter.

## Model

| member | source | states |
|---|---|---|
| `Tables.DayOf` | munkaruha_v2.py:181 | The day of a timestamp is the one whose 86400-second span contains it. |
| `Inventory.FirstMatch` | munkaruha_v2.py:120-122 | None exactly when no row has the key. Otherwise it is the index of a row with the key, and no earlier row has it. |
| `Inventory.Restocked` | munkaruha_v2.py:81-93 | An empty type or size leaves the table as it was. An existing key keeps every row in place and raises each matching row by q. A new key appends `(t, s, q)`. |
| `Inventory.BumpedQuantity` | munkaruha_v2.py:86 | The in-place update adds q times the number of rows with the key to that key's holding. Every other key is unchanged. |
| `Inventory.BumpedTotal` | munkaruha_v2.py:86 | The in-place update adds q times the number of rows with the key to everything in stock. |
| `Inventory.CountUnique` | munkaruha_v2.py:84-89 | Under unique keys, a present key has exactly one row and an absent key has none. |
| `Inventory.RestockedQuantity` | munkaruha_v2.py:82-89 | Under unique keys, stock-in adds exactly q to key (t, s) and changes no other key's holding. |
| `Inventory.RestockedTotal` | munkaruha_v2.py:82-89 | Under unique keys, stock-in adds exactly q to everything in stock, or nothing when it is refused. |
| `Inventory.RestockedValid` | munkaruha_v2.py:82-89 | Stock-in of q ≥ 1 keeps quantities non-negative and keys unique. |
| `Inventory.RestockedNotLow` | munkaruha_v2.py:86-89 | After stock-in of at least `MinStock` pieces, the row of that key is not low. |
| `Inventory.Withdraw` | munkaruha_v2.py:119-145 | Refused as no-such-item exactly when no row has the key. Refused as insufficient exactly when the first matching row holds less than q. On success the first matching row drops by q and is removed at exactly 0, and every other row stays in order. |
| `Inventory.WithdrawnQuantity` | munkaruha_v2.py:122-127 | A successful issue takes exactly q from its key and changes no other key. |
| `Inventory.WithdrawnTotal` | munkaruha_v2.py:122-127 | A successful issue takes exactly q from the total in stock. |
| `Inventory.WithdrawnKeepsOthers` | munkaruha_v2.py:124-127 | A successful issue keeps every row other than the one it takes from. |
| `Inventory.WithdrawnValid` | munkaruha_v2.py:123-127 | A successful issue keeps quantities non-negative and keys unique. |
| `Inventory.WithdrawnRemovesAtZero` | munkaruha_v2.py:125-126 | Under unique keys, the key stays in the table exactly when something remains. |
| `Inventory.PlaceholderPersists` | munkaruha_v2.py:123-126 | A type-registration row `(t, "", 0)` survives every stock-in and every successful issue, since `0 >= q` fails for q ≥ 1. |
| `Inventory.TypeChoices` | munkaruha_v2.py:105 | The issue form's type list has each type of the stock table exactly once. |
| `Inventory.SizesOf` | munkaruha_v2.py:109 | Holds exactly the sizes z for which the table has a row (t, z). |
| `Inventory.SizeChoices` | munkaruha_v2.py:109 | The size list for type t has each size of a row of type t exactly once. |
| `Inventory.IssuedOutSizeDisappears` | munkaruha_v2.py:125-127 | After a successful issue, the size is still offered for its type exactly when pieces remain. |
| `Inventory.WithType` | munkaruha_v2.py:45-52 | The old rows stay in place, and at most one row follows them. That row is the placeholder `(t, "", 0)`, and it is added exactly when t is non-empty and not yet a type. Afterwards the types offered are the old ones plus t, when t is non-empty. |
| `Inventory.WithTypeIdempotent` | munkaruha_v2.py:47-52 | Registering the same type twice is the same as registering it once. |
| `Inventory.WithTypeValid` | munkaruha_v2.py:48-52 | Type registration keeps quantities non-negative and keys unique. |
| `Inventory.LowStockFlags` | munkaruha_v2.py:153 | One flag per row. Under unique keys, a row is flagged exactly when everything held under its (type, size) is below `MIN_KESZLET` = 5. |
| `Ledger.KnownWorkers` | munkaruha_v2.py:57 | Every worker value of the log, each exactly once. |
| `Ledger.NonEmpty` | munkaruha_v2.py:101 | Keeps exactly the non-empty names and creates no duplicate. |
| `Ledger.WorkerChoices` | munkaruha_v2.py:101 | The issue form's worker list has each non-empty worker name of the log exactly once. |
| `Ledger.WithWorker` | munkaruha_v2.py:57-64 | The old rows stay in place, and at most one row follows them. That row is w's placeholder, and it is added exactly when w is non-empty and not yet in the log. Afterwards the workers known and offered are the old ones plus w, when w is non-empty. |
| `Ledger.WithWorkerIdempotent` | munkaruha_v2.py:59-64 | Registering the same worker twice is the same as registering them once. |
| `Ledger.WithWorkerIssuances` | munkaruha_v2.py:61-62 | Worker registration adds and changes no issuance: the dated rows stay the same. |
| `Ledger.Filtered` | munkaruha_v2.py:179-181 | Every row kept is selected: the chosen worker (or "(összes)") and a day between the bounds, both included. Every selected row of the log is kept as often as it occurs. |
| `Ledger.LogView` | munkaruha_v2.py:179-183 | The report's table is the selected rows, newest first. |
| `Ledger.NothingSelected` | munkaruha_v2.py:179-183 | When no row is selected, the report is the empty table rather than an error. |
| `Ledger.PlaceholderHidden` | munkaruha_v2.py:169-181 | A worker-registration row never appears in the report. |
| `Sorting.SortedNames` | munkaruha_v2.py:172 | `sorted` on names: ordered by code point, and a rearrangement of its input. |
| `Sorting.SortedNamesUnique` | munkaruha_v2.py:172 | Two sorted rearrangements of the same names are equal, so `SortedNames` gives exactly the list `sorted` gives. |
| `Ledger.NonEmptyCount` | munkaruha_v2.py:172 | Dropping the empty names keeps every other name as often as it occurs. |
| `Sorting.NewestFirst` | munkaruha_v2.py:183 | `sort_values("Dátum", ascending=False)`: later dates first, and the same rows. |
| `Reports.ReportNames` | munkaruha_v2.py:187 | The group keys: each value once, in sorted order. |
| `Reports.Summary` | munkaruha_v2.py:187 | Each summary row's figure is everything issued in the rows of that row's worker. |
| `Reports.SummaryOrder` | munkaruha_v2.py:187 | Summary rows are sorted by worker name, with each worker once. |
| `Reports.SummaryWorkers` | munkaruha_v2.py:187 | The summary has a row for each worker of the filtered rows and for no one else. |
| `Reports.SummaryAddsUp` | munkaruha_v2.py:187 | The summary column adds up to everything issued in the filtered rows. |
| `Reports.PartitionByKey` | munkaruha_v2.py:187 | Grouping by a key loses nothing: over distinct keys that cover every row, the per-key sums add up to the total. |
| `Reports.PivotTable` | munkaruha_v2.py:192 | Every pivot row has one cell per column. |
| `Reports.PivotColumns` | munkaruha_v2.py:192 | The columns are the types of the filtered rows, each once, in sorted order. |
| `Reports.PivotRowOrder` | munkaruha_v2.py:192 | Pivot rows are sorted by worker name, with each worker once. |
| `Reports.PivotWorkers` | munkaruha_v2.py:192 | The pivot has a row for each worker of the filtered rows and for no one else. |
| `Reports.PivotCells` | munkaruha_v2.py:192 | Each cell is the sum issued to its worker of its type, and 0 (`fill_value=0`) where nothing was. |
| `Reports.PivotRowTotal` | munkaruha_v2.py:193 | The "Összesen" column, the sum of a row's cells, equals everything issued in the worker's rows: the same figure as in the summary. |
| `Reports.ReportWorkerOptionsAsWritten` | munkaruha_v2.py:172 | The program's report worker list: "(összes)" first, then the names sorted. No entry is empty, and each non-empty name appears as many times as the log has rows for it. |
| `Reports.ReportWorkerOptionsRepeatNames` | munkaruha_v2.py:172 | A registered worker who has received one item appears twice in that list. |
| `Reports.ReportWorkerOptions` | munkaruha_v2.py:172 | The corrected list: "(összes)" first, then each non-empty worker name of the log exactly once, sorted. |
| `Workwear.Store.constructor` | munkaruha_v2.py:24-27 | The session starts from the loaded tables. |
| `Workwear.Store.StockIn` | munkaruha_v2.py:81-93 | Accepted exactly when type and size are non-empty. The new stock is `Restocked` of the old, and the log is untouched. Under the invariant, the key and the total each gain exactly q. The invariant is preserved. |
| `Workwear.Store.Issue` | munkaruha_v2.py:115-145 | A blank worker is refused first. Otherwise the outcome is that of `Withdraw`. A refusal changes neither table. A success sets the stock to the withdrawal's result and appends exactly one log entry `(now, worker, t, s, q)`. Stock plus issued is conserved, and both invariants are preserved. |
| `Workwear.Store.AddType` | munkaruha_v2.py:44-54 | Added exactly when the type is new and non-empty. The stock is `WithType` of the old, the log is untouched, and the invariant is preserved. |
| `Workwear.Store.AddWorker` | munkaruha_v2.py:56-66 | Added exactly when the name is new and non-empty. The log is `WithWorker` of the old, no issuance changes, the stock is untouched, and both invariants are preserved. |

## Left out

- The Streamlit user interface is presentation only and is not modelled: page setup, sidebar, forms, selectboxes, messages, colours, tables and download buttons.
- The CSV files are file I/O and are not modelled: loading, the fallback to empty tables, and the save after each change. The store keeps its tables in memory.
- The clock is not read: the issue time comes in as the parameter `now`, in seconds.
- Parsing dates with `pd.to_datetime(errors="coerce")` is not modelled. A dated row carries an integer timestamp, and the registration row carries `None`.
- The report's default date bounds (the earliest log date, and today) are UI defaults. The bounds are parameters.
- Pandas' type changes are not modelled: after a reload, an empty cell becomes NaN, and integer columns may become floats. The model keeps empty strings and integers.
- `dropna()` in the report's worker list has nothing to drop in the model, because every worker value is a string.
- `Workwear.Store.Issue`: when no worker is registered the program's worker box is empty, and `strip()` on its `None` fails. The model takes the worker as a string.
- `Reports.PivotCells`: when a garment type is itself named "Összesen", line 193 overwrites that type's column with the row totals, so the program loses that type's cells. The model keeps the type's column and the row total apart, so for that one type name its cells differ from the program's.
- `Seqs.Distinct`: the contract does not state pandas' first-appearance order of `unique()`. So `Inventory.TypeChoices`, `Inventory.SizeChoices` and `Ledger.KnownWorkers` promise membership and distinctness only, not the order of the choices.
- `Ledger.LogView`: pandas' default sort is not stable, so the program fixes no order among rows with the same timestamp. The contract claims only the date order and the same rows.
- Quantities are unbounded integers. The 64-bit limits of pandas' integer columns are not modelled.
- `st.session_state` caching across reruns is replaced by the fields of `Store`.

## Findings

| source | as written | input that shows it | evidently intended | confidence | as-written member | corrected member |
|---|---|---|---|---|---|---|
| munkaruha_v2.py:172 | The report's worker list is `["(összes)"] + sorted(...)` over every non-empty worker value of the log, with no `unique()`. A worker is therefore listed once per log row. | A log with Anna's registration row and one issuance to Anna gives `["(összes)", "Anna", "Anna"]`. | Each worker once, as in the issue form's list at line 101. | not executed | `Reports.ReportWorkerOptionsAsWritten`, `Reports.ReportWorkerOptionsRepeatNames` | `Reports.ReportWorkerOptions` |

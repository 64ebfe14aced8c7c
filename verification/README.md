# Stock ledger of `stock_consumible`

A model of the stock ledger behind the consumables web application in `app/app.py`.
The application keeps two tables:

- `consumibles`: the registry of consumables, keyed by `codigo_hoja`. Each row holds a
  display name, a category and an `activo` flag.
- `movimientos`: an append-only ledger of entries (`entrada`) and exits (`salida`) against
  batches (`id_lote`) of a consumable.

Stock is never stored. Every page recomputes it as the sum of entries minus the sum of exits
over the rows of a (consumable, batch) pair. An exit is written only when its quantity does
not exceed that stock.

The model has six modules:

- `Wrappers` (wrappers.dfy): `Option` (SQL NULL) and `Result` (a handler that fails).
- `Order` (order.dfy): the `ORDER BY` collation as lexicographic order on code points, an
  insertion sort specified by permutation and sortedness, and `Distinct`, which keeps keys in
  order of first appearance (the key order of a Python dict).
- `Registry` (registry.dfy): the `consumibles` row, the five categories of the `CHECK`
  constraint, and the upsert and the soft deactivation as functions on the table.
- `Ledger` (ledger.dfy): the `movimientos` row and the two `INSERT` shapes. Also the
  `SUM(COALESCE(...))` stock of a batch, `MAX(CASE WHEN tipo = 'entrada' ...)` as the price,
  `GROUP BY ... HAVING stock > 0`, and the guard invariant with its consequence that stock is
  never negative.
- `Views` (views.dfy): what the read-only pages compute.
  - The batches offered on the exit form (`salida_form`).
  - The filtered stock page (`ver_stock`).
  - The PDF report's rows (`generar_informe_pdf`), its `setdefault` grouping loop and its
    per-name totals, as methods with loop invariants.
- `Inventory` (inventory.dfy): the mutable state. Class `Inventory` holds the registry as a
  `map`, the ledger as a `seq` and the next value of the `SERIAL` sequence. Its methods are
  the four writing handlers and the two listings.
  - Each handler that writes to the ledger is tied to a pure function of the old tables
    (`Entered`, `Exited`).
  - Lemmas about those functions state the effect on stock, and show that the schema's
    constraints and the exit guard are preserved (`Consistent`).

Quantities and prices are `real`. A failed `INSERT` is modelled as an error result.
PostgreSQL raises the failure and FastAPI turns it into HTTP 500.

Behaviour of the code worth knowing, which the model follows:

- A price of `0` prints as "N/A", like a missing price, because the report tests the price's
  truthiness (`Views.PriceCell`).
- The sign of a quantity is never checked. A negative exit passes the guard and raises stock,
  and a negative entry can make stock negative. Stock stays non-negative only when no entry is
  negative (`Ledger.NeverNegative`, `Inventory.EntryNeverNegative`).
- The price column is the largest entry price of the batch (`MAX`), whichever entry came last.
- The upsert's `ON CONFLICT` clause updates only the name and the category. Re-adding a
  deactivated code therefore does not reactivate it (`Registry.Upserted`).
- An exit checks stock before the foreign key. An exit for an unknown code is therefore
  refused as insufficient stock (available 0) when the quantity is positive. The foreign key
  rejects it only when the quantity is 0 or negative. In that case, as for an entry with an
  unknown code, the failed `INSERT` still uses up a sequence value.

## Model

| member | source | states |
|---|---|---|
| Registry.Upserted | app/app.py:70-76 | Upsert keyed on `codigo_hoja`: the code ends with exactly one row carrying the new name and category, and keeps its `activo` if it existed (new codes are active). Every other code is unchanged. |
| Registry.UpsertActiveCodes | app/app.py:70-76 | After an upsert, the active codes are the old ones plus the code when it was new or already active. |
| Registry.Deactivated | app/app.py:85 | `UPDATE ... SET activo = FALSE WHERE codigo_hoja = %s`: same codes, only that code's flag becomes false, and an unknown code changes nothing. |
| Registry.DeactivateIdempotent | app/app.py:85 | Deactivating twice is the same as deactivating once. |
| Registry.DeactivateHides | app/app.py:85 | Deactivation removes exactly that code from the active codes and keeps every code in the table. |
| Order.SortBy | app/app.py:264 | `ORDER BY`: the result is a permutation of the input, sorted by the key. |
| Order.Distinct | app/app.py:286-288 | The distinct keys of a sequence: no duplicates, every key present, nothing else. |
| Order.DistinctOrder | app/app.py:286-288 | The keys come in order of first appearance: an earlier key of `Distinct` first occurs before the first occurrence of any later one (the insertion order of the `resumen` dict). |
| Order.UniqueByPermutation | app/app.py:264 | Reordering rows by `ORDER BY` keeps each (code, batch) group at most once. |
| Ledger.EntryRow | app/app.py:120-123 | The entry `INSERT`: a well-formed entry row for that code and batch with that id, `COALESCE(entrada, 0)` = quantity, `COALESCE(salida, 0)` = 0, `existencias` = the quantity, and the given price. |
| Ledger.ExitRow | app/app.py:196-199 | The exit `INSERT`: a well-formed exit row for that code and batch with that id and document, `COALESCE(entrada, 0)` = 0, `COALESCE(salida, 0)` = quantity, and no `existencias` or price. |
| Ledger.Stock | app/app.py:186-191 | Definition: the sum of `COALESCE(entrada, 0)` minus the sum of `COALESCE(salida, 0)` over the rows of (code, batch). Its properties are stated by the lemmas below. |
| Ledger.StockWithoutRows | app/app.py:186-191 | The available stock of a (code, batch) with no matching row is 0, never NULL (`or 0`). |
| Ledger.StockHasRow | app/app.py:186-191 | A non-zero stock implies a matching row exists. |
| Ledger.StockAppend | app/app.py:186-191 | Appending a row changes a batch's stock by that row's `COALESCE(entrada, 0) - COALESCE(salida, 0)` when it matches, and not at all otherwise. |
| Ledger.StockAfterEntry | app/app.py:120-123 | An entry row raises its own batch's stock by its quantity and leaves every other batch unchanged. |
| Ledger.StockAfterExit | app/app.py:196-199 | An exit row lowers its own batch's stock by its quantity and leaves every other batch unchanged. |
| Ledger.ExitAllLeavesZero | app/app.py:193-199 | An exit of exactly the available stock leaves that batch at 0. |
| Ledger.ExitGuardedAt | app/app.py:193-199 | In a guarded ledger, every exit row took at most the stock its batch had just before it. |
| Ledger.ExitsGuardedAppend | app/app.py:193-199 | Appending an entry, or an exit that passes the guard, keeps the ledger guarded. |
| Ledger.NeverNegative | app/app.py:193-199 | With well-formed rows, no negative entry and every exit guarded, no (code, batch) has negative stock. |
| Ledger.MaxEntryPrice | app/app.py:223 | `MAX(CASE WHEN tipo = 'entrada' THEN precio_unitario ELSE NULL END)`: NULL exactly when the batch has no entry row. Otherwise it is the price of one of its entry rows and at least every entry price. |
| Ledger.Having | app/app.py:226 | `HAVING stock > 0` over the groups: each kept row has positive stock equal to its batch's stock and price. Every group with positive stock is kept. Distinct groups give distinct rows. |
| Ledger.StockGroups | app/app.py:220-227 | The per-batch query: exactly the (code, batch) pairs with positive stock, each once, with its stock and maximum entry price. |
| Views.BatchesOf | app/app.py:145-153 | The query's rows restricted to one consumable are exactly that consumable's (batch, stock) pairs. |
| Views.BatchesOfStock | app/app.py:145-153 | The batches offered for a code are each of its batches with positive stock, with that stock, each batch once. |
| Views.BatchOffered | app/app.py:145-153 | A batch of the code with positive stock is offered. |
| Views.BatchesDistinct | app/app.py:150 | `GROUP BY id_lote`: no batch is offered twice. |
| Views.ExitFormView | app/app.py:134-153 | `salida_form`: warns exactly when the filter is non-empty and not an active code. A warning resets the filter and lists no batch; an empty filter lists no batch. Otherwise every batch of that code with positive stock is offered once, with its stock, and nothing else. |
| Views.FilterStock | app/app.py:240 | The comprehension keeps exactly the rows matching both filters (an empty filter matches everything). The result is a sub-multiset of the input, so no row is added or repeated, and rows unique per (code, batch) stay unique. |
| Views.FilterEmptyKeepsAll | app/app.py:240 | With both filters empty, every row is kept in the same order. |
| Views.StockView | app/app.py:220-240 | `ver_stock`: every row shown passes the filters and has positive stock and its maximum entry price. Every batch with positive stock that passes the filters is shown. Each (code, batch) appears once. |
| Views.Joined | app/app.py:261 | The inner join keeps exactly the groups whose code is registered, with that consumable's display name. Groups unique per (code, batch) stay unique. |
| Views.JoinedComplete | app/app.py:256-265 | Every batch of a registered code with positive stock survives the join. |
| Views.ReportRows | app/app.py:256-265 | The report rows are sorted by (display name, batch), each registered and with positive stock and its maximum entry price. Every registered batch with positive stock appears, and each (code, batch) appears once, so no batch is counted twice in the section totals. |
| Views.PriceCell | app/app.py:294 | The price prints as "N/A" exactly when it is NULL or 0. Otherwise the price itself is printed. |
| Views.BuildReport | app/app.py:286-297 | One section per display name, in order of first appearance. Each section holds that name's rows in order, with their printed price cells, and the total of their stock. |
| Views.Summarize | app/app.py:286-288 | The `setdefault(...).append(...)` loop builds a dict whose keys, in insertion order, are the distinct names, each mapped to that name's items in row order. |
| Views.SummarizeSeen | app/app.py:288 | Appending to an existing key keeps the dict in step with the rows read so far. |
| Views.SummarizeNew | app/app.py:288 | `setdefault` on a new name adds it last, with that row as its only item. |
| Views.Tabulated | app/app.py:290-297 | One section per key, in dict order, holding that key's lines and total. |
| Views.Tabulate | app/app.py:292-297 | The inner loop: one line per item with its price cell, and `total` equal to the sum of the items' stock. |
| Views.SectionTotalsCoverAll | app/app.py:286-297 | The section totals together add up to the stock of all report rows: no row is lost or counted twice by the grouping. |
| Inventory.ConsistentAppend | app/app.py:36-47 | Appending a well-formed row with the next id, for a registered code, that passes the guard keeps the schema's constraints and the guard invariant. |
| Inventory.Entered | app/app.py:120-123 | Definition of `registrar_entrada` on the tables: the next sequence value is always drawn. An unknown code fails the foreign key and writes no row; otherwise one `EntryRow` with that id is appended. Its properties are stated by the next two lemmas. |
| Inventory.EntryStock | app/app.py:120-123 | An entry is accepted exactly when the code is registered. It always uses up one sequence value. On success the batch's stock rises by the quantity, and a failure writes no row. No other batch changes. |
| Inventory.EntryConsistent | app/app.py:120-123 | Entries keep the tables consistent. |
| Inventory.EntryNeverNegative | app/app.py:120-123 | From consistent tables without negative entries, a non-negative entry leaves every batch's stock non-negative. |
| Inventory.Exited | app/app.py:186-201 | Definition of `registrar_salida` on the tables: a quantity above the batch's `Stock` is refused with that stock and nothing written. Otherwise the next sequence value is drawn, an unknown code fails the foreign key, and a registered one gets one `ExitRow` appended. Its properties are stated by the lemmas below. |
| Inventory.ExitStock | app/app.py:186-201 | An exit is accepted exactly when the quantity is at most the batch's stock and the code is registered. A quantity above the stock is refused with that stock and leaves both tables and the sequence unchanged. On success the batch's stock drops by the quantity. No other batch changes. |
| Inventory.ExitConsistent | app/app.py:193-199 | Exits keep the tables consistent, the guard included. |
| Inventory.ExitAllSucceeds | app/app.py:193-199 | An exit of exactly the available stock of a registered code is accepted and leaves that batch at 0. |
| Inventory.ExitNeverNegative | app/app.py:193-199 | From consistent tables without negative entries, any exit leaves every batch's stock non-negative. |
| Inventory.Inventory.constructor | app/app.py:25-47 | Empty tables, and the sequence starts at 1. |
| Inventory.Inventory.Upsert | app/app.py:70-76 | A category outside the five is rejected and nothing changes. Otherwise the registry becomes `Upserted` of the old one and the ledger is untouched. |
| Inventory.Inventory.Deactivate | app/app.py:85 | The registry becomes `Deactivated` of the old one and the ledger is untouched. |
| Inventory.Inventory.RecordEntry | app/app.py:120-123 | The result and the new tables are `Entered` of the old tables, and consistency is kept. |
| Inventory.Inventory.RecordExit | app/app.py:186-201 | The result and the new tables are `Exited` of the old tables, and consistency is kept. |
| Inventory.Inventory.Rows | app/app.py:61 | The consumables (all, or only the active ones) as listed rows, each code once. |
| Inventory.Inventory.ListActive | app/app.py:61 | The active consumables, each code exactly once, sorted by (category, name). |
| Inventory.Inventory.ListAll | app/app.py:230 | Every consumable, active or not, each code exactly once, sorted by name. |

## Left out

- `app/utils/db.py` is not part of this model. It holds only the connection plumbing: an environment variable, URL parsing and a psycopg2 connection.
- Schema creation and the `activo` migration (app/app.py:20-51) are not executed. Their constraints (primary key, category `CHECK`, foreign key, `SERIAL`) are the invariant `Inventory.Consistent`.
- FastAPI routing, Jinja templates, redirects and the URL-encoding of messages (app/app.py:205-209) are left out. Only the outcome of each handler is modelled.
- The mapping of exceptions to HTTP 500 (app/app.py:166-168, 211-213) is left out. A rejected `INSERT` is an `Error` value.
- The HTML built for the report, `datetime.now()`, the pdfkit rendering and the pandas Excel export (app/app.py:269-314) are foreign libraries and I/O. The report stops at the structured sections.
- `REAL`/`float` rounding and the `:.2f`/`:.4f` formatting are left out. Quantities and prices are exact `real`s.
- Concurrency is left out, including the race between the stock check and the insert of two concurrent exits. The model is sequential.
- The category grouping of `entrada_form` (app/app.py:98-100) is left out. It is page decoration, not ledger logic.
- The batch list of the stock page's filter dropdown (app/app.py:233-236) is left out.
- `Order.SortBy`: the collation is code-point order. The database's locale collation and the order among rows with equal keys are not modelled.
- Ledger.StockGroups: neither stock query has `ORDER BY`, so SQL leaves the row order open. The model returns the groups in order of first appearance, and no contract depends on that order.
- Inventory.Inventory.ListAll: the query selects only code and name. The model's listed row also carries the category.
- Views.ExitFormView: the list of active consumables that the exit form also displays is not returned. Only its codes are used, for the filter check.

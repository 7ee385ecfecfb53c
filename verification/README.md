# Café order ledger — a Dafny model

This project models the order flow of a small café point-of-sale server
(`server.js`). It covers three things:

- the routes that change the ledger: open or find a table's order, add and
  remove order lines, record a payment, close an order, create a table and
  soft-delete a product;
- the two read queries the order flow feeds: the table list with each
  table's open order, and the per-product sales report over closed orders;
- the invariants the flow keeps, and where the denormalised order totals
  can drift.

The layers:

- `records.dfy` holds the rows: tables, products, orders, order lines and
  payments. It also holds the handlers' answers and JavaScript truthiness
  (`Given`, `GivenText`: a missing value, `0` or `""` counts as absent).
- `sums.dfy` sums a weight over a map of order lines (`Sum`). It also
  proves that a sum can be split at any key (`SumRemove`).
- `state.dfy` holds the store as a value, with one map per SQL table and
  the next id each AUTOINCREMENT key issues. It also holds its invariants:
  - `Valid`: ids below their counters, unique table names, at most one
    open order per table;
  - `Consistent`: every order total equals the sum of `qty * price` over
    its lines, and no line points at an order id that has not been issued.
- `handlers.dfy` has each mutating route as one atomic transition
  `Store -> Reply(after, outcome)`, plus the server as a state machine
  (`Handle`, `Run`).
- `server.dfy` is the ledger as a mutable object (`Server.Ledger`) with
  one method per route. Each method is specified by its transition in
  `Handlers`.
- `invariants.dfy` proves which invariants every request keeps. It also
  exhibits the two ways the handlers as written let a total drift.
- `projections.dfy` and `observations.dfy` cover `GET /api/tables` and
  `GET /api/reports/products`, and how the handlers show through them.

Representation choices:

- Money is a whole number of cents.
- A time is milliseconds since the epoch.
- SQLite's `date()` of a timestamp is `DayOf(t) = t / 86_400_000`, a day
  number.
- Text ordering is comparison by Unicode code point, which is SQLite's
  BINARY collation (code-point order is UTF-8 byte order).

The model follows the code as written, including these behaviours:

- Adding a line for an unknown product answers 400, not 404.
- Adding a line accepts an inactive product, any non-zero quantity
  (negative ones too), and an order id that does not exist or is closed.
- Removing a line does not check that the line belongs to the order named
  in the path.
- Closing an order has no status guard.
- There is no merge route and no `merged` status.

## Model

| member | source | states |
|---|---|---|
| Records.DayOf | server.js:335 | `date()` maps a time to the day that contains it: `d * 86400000 <= t < (d+1) * 86400000` |
| Sums.SumRemove | server.js:243-256 | a sum over order lines splits at any line: the whole is that line's weight plus the sum over the rest, whichever line the sum began with |
| Sums.SumInsert | server.js:245-253 | inserting a fresh line adds exactly its weight to the sum |
| State.OpenOrderOf | server.js:203-205 | the open-order lookup finds an open order of that table when one exists, and none exists when it finds nothing |
| Handlers.FindOrCreateOrder | server.js:199-220 | a falsy table id is a 400 that changes nothing; otherwise the answer is an open order of that table; a new order (total 0, id = next id) is inserted only when the table had no open order; nothing outside `orders` and the order counter changes |
| Handlers.AddItem | server.js:236-262 | succeeds iff product id and qty are truthy and the product row exists (else 400, no change); the line takes the product's current price; the named order's total (if that order exists) rises by `price * qty` and no other order changes |
| Handlers.RemoveItem | server.js:264-281 | 404 with no change iff the line does not exist; otherwise the line is deleted and the total of the order named in the path (not necessarily the line's order) falls by `qty * price`; no other order changes |
| Handlers.RecordPayment | server.js:283-295 | succeeds iff method and amount are truthy; appends exactly one payment under the next id; nothing else changes |
| Handlers.CloseOrder | server.js:297-306 | always answers ok; the order, if it exists, becomes closed with the closing time set, whatever its status was; every other order is unchanged |
| Handlers.CreateTable | server.js:140-151 | succeeds iff the name is truthy and not taken; an empty name is a 400 and a taken name is refused by the UNIQUE constraint, both with no change; on success exactly one table is added under the next id |
| Handlers.SoftDeleteProduct | server.js:180-185 | always answers ok; only the named product's `active` flag is cleared, and its row is kept |
| Invariants.HandleKeepsValid | server.js:199-306 | every request, whatever its arguments, keeps ids below their counters, table names unique and at most one open order per table |
| Invariants.RunKeepsValid | server.js:199-306 | the same holds for any sequence of requests served one at a time |
| Invariants.FindOrCreateKeepsConsistent | server.js:210-216 | opening an order with total 0 keeps every total equal to the sum of its lines |
| Invariants.AddItemKeepsConsistent | server.js:243-256 | adding a line to an already issued order id keeps every total equal to the sum of its lines |
| Invariants.RemoveItemKeepsConsistent | server.js:266-278 | removing a line through its own order keeps every total equal to the sum of its lines |
| Invariants.HandleKeepsConsistent | server.js:199-306 | every aimed request keeps the totals right. Aimed means a line is added to an issued order id, and a removed line belongs to the named order |
| Invariants.RunKeepsConsistent | server.js:199-306 | a sequence of aimed requests keeps the totals right |
| Invariants.ItemAheadOfOrderDrifts | server.js:236-262 | a line posted to the next, not yet issued order id is inherited by the order opened next, whose total of 0 then differs from the sum of its lines |
| Invariants.MisdirectedRemoveDrifts | server.js:264-281 | removing a line through an order it does not belong to leaves that order's total different from the sum of its lines |
| Invariants.FindOrCreateIdempotent | server.js:199-208 | asking again for a table's order answers the same order and changes nothing |
| Invariants.CloseTwice | server.js:297-306 | closing an order a second time changes only its closing time |
| Invariants.RemoveTwice | server.js:264-268 | a second removal of the same line is a 404 with no change |
| Invariants.HandleKeepsLines | server.js:243-247 | no request rewrites a line: each line afterwards is either an earlier line, unchanged and at the price it was added with, or new under a fresh id |
| Invariants.RunKeepsLines | server.js:243-247 | the same holds over any sequence of requests, so a later price change never reaches an existing line |
| Server.Ledger.constructor | server.js:20-107 | the ledger opens over a valid store and holds exactly that store |
| Server.Ledger.FindOrCreateOrder | server.js:199-220 | the new state and answer are those of `Handlers.FindOrCreateOrder`; keeps `Valid` and `Consistent` |
| Server.Ledger.AddItem | server.js:236-262 | the new state and answer are those of `Handlers.AddItem`; keeps `Valid`, and keeps `Consistent` when the order id has been issued |
| Server.Ledger.RemoveItem | server.js:264-281 | the new state and answer are those of `Handlers.RemoveItem`; keeps `Valid`, and keeps `Consistent` when the line belongs to the named order |
| Server.Ledger.RecordPayment | server.js:283-295 | the new state and answer are those of `Handlers.RecordPayment`; keeps `Valid` and `Consistent` |
| Server.Ledger.CloseOrder | server.js:297-306 | the new state and answer are those of `Handlers.CloseOrder`; keeps `Valid` and `Consistent` |
| Server.Ledger.CreateTable | server.js:140-151 | the new state and answer are those of `Handlers.CreateTable`; keeps `Valid` and `Consistent` |
| Server.Ledger.SoftDeleteProduct | server.js:180-185 | the new state and answer are those of `Handlers.SoftDeleteProduct`; keeps `Valid` and `Consistent` |
| Projections.NameBeforeTotal | server.js:132 | any two distinct names are ordered one way or the other |
| Projections.NameBeforeTransitive | server.js:132 | the name order is transitive |
| Projections.RowFor | server.js:127-131 | a table's row carries its id and name; it shows an open order of that table with that order's total, or none exactly when the table has no open order |
| Projections.InsertByNameSorted | server.js:132 | inserting a row into a name-sorted list keeps it sorted |
| Projections.InsertByNameDistinct | server.js:126-138 | inserting a row for a table not yet listed keeps one row per table |
| Projections.TableList | server.js:126-138 | every table appears exactly once, as its own row, with no other rows, in ascending name order |
| Projections.TableListStrictlySorted | server.js:126-138 | since table names are unique, the list is strictly ascending |
| Projections.Sold | server.js:332-335 | a line is counted iff it exists, its order is closed, the order's closing day is in the range, and its product row exists |
| Projections.InsertByRevenueSorted | server.js:337 | inserting a row into a revenue-descending list keeps it descending |
| Projections.InsertByRevenueDistinct | server.js:336 | inserting a row for a product not yet listed keeps one row per product |
| Projections.ReportRows | server.js:330-337 | one row per product in the group set, each with its name, unit sum and revenue sum, highest revenue first |
| Projections.ProductReport | server.js:326-343 | a missing bound is a 400; otherwise exactly one row per product with a counted line, carrying the sums of `qty` and `qty * price` over its counted lines, highest revenue first |
| Observations.OpenedOrderIsListed | server.js:126-138 | after find-or-create, the table's row in the list shows the answered order and its total |
| Observations.ClosedOrderLeavesList | server.js:297-306 | after its open order is closed, a table's row shows no open order |
| Observations.ReportIgnoresOpenOrders | server.js:335 | adding a line to an open or missing order leaves the product report unchanged for every range |
| Observations.ClosingReportsLines | server.js:297-306 | closing an order on a day inside the range brings each of its lines with an existing product into the report |
| Observations.TwoLineReport | server.js:330-338 | an order closed with lines 2 × 10.00 and 1 × 5.00 of one product reports that product with 3 units and 25.00 |

## Left out

- HTTP and Express plumbing, JSON bodies and the SQLite connection are not modelled. Each handler is one function from a store and its already parsed arguments to a new store and an answer.
- Concurrency is not modelled. Each handler runs as one atomic step, although in the server its two or three SQL statements run in separate callbacks and can interleave with other requests.
- The clock (`now()`) is a parameter. Timestamps are milliseconds, not ISO strings, and `date()` of a malformed string is not modelled.
- Money is whole cents, not SQLite REAL. Rounding of floating-point prices and totals is not modelled.
- The SQLite error paths (status 500) are left out, except the UNIQUE violation on a table name, which is modelled as `Rejected`. A failure between a handler's statements (for example, a line inserted but the total not updated) is not modelled.
- Handlers.FindOrCreateOrder: when the store already holds several open orders for one table, the query returns one of them chosen by SQLite's scan order; the model picks one without saying which.
- Projections.TableList: under `Valid` a table has at most one open order. Without that invariant, the LEFT JOIN would give one row per open order; the model gives one row per table.
- Projections.ProductReport: rows of equal revenue come in SQLite's unspecified order. The model promises only descending revenue, not a particular tie order.
- Projections.NameBefore: text order is by Unicode code point. Code-point order equals UTF-8 byte order, so this is SQLite's BINARY collation for every name; other collations are not modelled.
- Product creation (`POST /api/products`), table deletion (`DELETE /api/tables/:id`) and product and order listing (`GET /api/products`, `GET /api/orders`, `GET /api/orders/:id/items`) are not part of this model. The ledger's initial contents are given to its constructor.
- The summary report (`GET /api/reports/summary`), admin login, health check, ingredients, recipes and stocks are not part of this model.
- Request fields are typed: `qty`, `product_id`, `table_id` and `amount` are integers and `method` and `name` are strings. Only integer-valued numeric fields are modelled. A fractional `qty` such as 1.5, stored as REAL and multiplied into the total, is not modelled. Neither is a numeric field sent as a JSON string such as `"0"`, which JavaScript treats as truthy.
- Projections.ProductReport: each row carries `productId`, the `GROUP BY p.id` key. The server's rows carry only `name`, `qty` and `revenue`, so two products with the same name give two rows that look alike there but are told apart here.
- Response bodies are reduced to the answer kind and the new id. The echoed fields (`name`, `table_id`, `status`) and the whole order row returned by find-or-create are not modelled.

# ePharma inventory ledger in Dafny

This project models the core of ePharma, a pharmacy inventory library written in C++ over
SQLite. The model has two parts.

The **expiry calculator** covers:
- the leap-year rule;
- the `YYYY-MM-DD` validation rule, with its February clause exactly as written;
- the number of days from a reference day to an expiry day;
- whether an inventory item counts as expired.

The **inventory ledger** has three tables: inventory items, sales and stock-ins. It covers:
- the item operations: create, read by id and by barcode, update, delete, and set barcode;
- the movements: a stock-in, its deletion, and a sale;
- the one-transaction batches of stock-ins and of sales;
- the stock-in search by invoice or batch number.

The model is built in layers:

| file | module | what it holds |
|---|---|---|
| `wrappers.dfy` | `Wrappers` | `Option` |
| `expiry.dfy` | `Expiry` | the date handling: parsing, validation, day numbers, days to expiry |
| `records.dfy` | `Records` | the row types, the error kinds, `IsExpired` |
| `tables.dfy` | `Tables` | the database as one value `Db` and its invariant `Valid` |
| `store.dfy` | `Store` | the inventory-item statements as functions from `Db` to a `Step` |
| `ledger.dfy` | `Ledger` | the movements, the transactions, the batches and the ledger invariant |
| `scenarios.dfy` | `Scenarios` | the repository's ledger test cases as lemmas |
| `database.dfy` | `Database` | the `Epharma` class, described below |

More detail on some of these pieces:
- **`Tables`:** `Db` holds the three tables, each with its AUTOINCREMENT sequence. `Valid` says:
  - row ids are positive, stored in their rows, and within their table's sequence;
  - (name, brand) is unique;
  - a present barcode is unique.

  `Tables` also holds the row-level statements on the movement tables, a generic in-order batch loop `Fold`, and per-item sums of movement quantities.
- **`Store` and `Ledger` steps:** a `Step` is the database a run of statements reaches together with its result, given as `Ok` or as the exception kind. `Atomically` models BEGIN/COMMIT/ROLLBACK, returning to the saved state when any statement fails.
- **The ledger invariant:** `OpeningBalance(db, i)` is the item's quantity, minus all stock-in quantities recorded for it, plus all sale quantities recorded for it.
- **`Database`:** the `Epharma` class keeps the three tables as fields. Its methods change those fields statement by statement. BEGIN saves the fields, and `Rollback` puts them back. Each method is proved to reach exactly the state and result of the matching `Store` or `Ledger` function, so the lemmas about those functions hold of the class. Two methods follow the corrected sale of "## Findings" rather than the code. `CreateSalesItem` checks and lowers the stock, as `Ledger.ApplySale` and `Ledger.CreateSale` do. `CreateSalesItems` returns one id per sale, as `Ledger.SalesBatch` does. The sale as the code has it is modelled by the pure functions `Ledger.ApplySaleAsWritten` and `Ledger.SalesBatchAsWritten` only. Its read-only methods use loops over the row ids:
  - listing all inventory items;
  - the barcode lookup;
  - the stock-in search.

Other modelling decisions:
- **The clock and timestamps:** the clock is a parameter. `now` is the value SQLite's `CURRENT_TIMESTAMP` gives a new row. `today` is the reference day of `compute_days_to_expiry`.
- **Numbers:** prices are `real`, and quantities and ids are unbounded `int`.
- **Where the header comments and the code disagree, the model follows the code.** The two defects under "## Findings" are modelled both as written and as intended. The other points are:
  - `update_inventory_item` and `update_barcode` on an id that matches no row are successful no-ops. The header says the item must exist, but nothing checks it.
  - `create_inventory_item` never stores a barcode, because its INSERT lists no barcode column. A new row's barcode is always absent.
  - `search_stock_in_items` accepts `invoice_no` and `batch_no` only. The header also lists `item_id`.
  - No operation checks that quantities are positive. `delete_stock_in_item` may leave a negative stock.

## Model

| member | source | states |
|---|---|---|
| `Expiry.IsLeapYear` | epharma.cpp:60-62 | divisible by 4 and not by 100, or divisible by 400; a predicate without a contract; `Expiry.DaysBeforeYearStep` states what it means for the day count |
| `Expiry.DaysBeforeYearStep` | epharma.cpp:60-62 | a year adds 366 days to the day count exactly when it is a leap year by the 4/100/400 rule, otherwise 365 |
| `Expiry.ParseDate` | epharma.cpp:65-70 | a text parses exactly when it is four digits, '-', two digits, '-', two digits; the fields are then in their digit ranges |
| `Expiry.ParseFormat` | epharma.cpp:65-70 | parsing the zero-padded rendering of a date gives the date back |
| `Expiry.FormatParse` | epharma.cpp:65-70 | rendering a parsed text gives the same text back |
| `Expiry.AcceptedFields` | epharma.cpp:72-77 | the year, month, day and February checks as written; a predicate without a contract, compared with the real calendar by `Expiry.AcceptedFieldsVersusCalendar` |
| `Expiry.ValidateExpiryDate` | epharma.cpp:64-83 | a text is valid exactly when it parses as `YYYY-MM-DD` and its fields pass `AcceptedFields`; a predicate without a contract, whose meaning `Expiry.ValidateFormatted` states |
| `Expiry.AcceptedFieldsVersusCalendar` | epharma.cpp:72-77 | the rule accepts every real day from 1900 on outside non-leap Februaries, rejects every day of a non-leap February, and its only accepted non-days are the 31st of April, June, September and November |
| `Expiry.ValidateFormatted` | epharma.cpp:64-83 | a rendered date passes validation exactly when its fields pass the year, month, day and February checks |
| `Expiry.ValidateAccepts` | epharma_test.cpp:22-27 | "2023-12-31", "2025-01-01" and "2024-02-29" are valid |
| `Expiry.ValidateRejects` | epharma_test.cpp:29-34 | "2021-02-29", "2023-13-01", "2023-12-32" and "abcd-ef-gh" are invalid |
| `Expiry.ValidateFebruaryClause` | epharma.cpp:75-76 | "2023-02-10" is rejected by the February clause as written, and "2023-04-31" is accepted |
| `Expiry.DaysToExpiry` | epharma.cpp:13-16 | a text that fails validation gives -1; a valid expiry equal to the reference day gives 0 |
| `Expiry.DayNumberOrder` | epharma.cpp:21-25 | on real calendar days the day number preserves and reflects both order and equality |
| `Expiry.DayNumberNextDay` | epharma.cpp:21-25 | consecutive calendar days have day numbers one apart |
| `Expiry.DaysToExpirySign` | epharma.hpp:34-39 | for a valid real expiry day, the result is positive exactly before expiry, zero exactly on the day, and negative exactly after it |
| `Expiry.DaysToExpiryNextDay` | epharma.cpp:13-26 | an expiry one calendar day later gives one more day to expiry |
| `Expiry.DaysToExpiryWithinMonth` | epharma_test.cpp:36-47 | the offsets 0, 6 and -3 of the test vectors |
| `Expiry.DaysToExpiryAcrossMonths` | epharma_test.cpp:49-51 | -30 from 2024-06-30 back to 2024-05-31; "2023-04-31" falls on 2023-05-01; "2021-02-29" gives -1 |
| `Expiry.DaysToExpiryAcrossYears` | epharma_test.cpp:53-55 | -180 from 2024-06-28 back to 2023-12-31 |
| `Records.IsExpired` | epharma.hpp:69-71 | days to expiry at most zero; a predicate without a contract, whose meaning `Records.IsExpiredMeaning` states |
| `Records.IsExpiredMeaning` | epharma.hpp:69-71 | an invalid or missing expiry date counts as expired; for a valid real date, expired exactly when the reference day is not before it |
| `Records.IsExpiredExamples` | epharma.hpp:69-71 | an empty expiry text and today's date are expired, a date six days away is not |
| `Tables.Valid` | epharma.cpp:117-185 | the constraints of the DDL: positive row ids within each AUTOINCREMENT sequence, UNIQUE(name, brand) and UNIQUE(barcode); a predicate that the operation lemmas prove preserved |
| `Tables.InsertStockInRow` | epharma.cpp:776-805 | a refused INSERT changes nothing and is a constraint violation; a successful one returns an id that was free and is now a stock-in |
| `Tables.InsertSaleRow` | epharma.cpp:413-442 | the same for a sale row |
| `Tables.InsertStockInRowSpec` | epharma.cpp:788-805 | the INSERT succeeds exactly when the id is unset or unused; the row gets the caller's positive id or an id greater than every existing id (the AUTOINCREMENT sequence plus one), and the invariant holds after it |
| `Tables.InsertSaleRowSpec` | epharma.cpp:425-442 | the same for a sale row; the item id is not checked by the INSERT |
| `Tables.GetStockIn` | epharma.cpp:908-927 | the stock-in with that id, or NotFound exactly when there is none |
| `Tables.DeleteStockInRow` | epharma.cpp:957-962 | the row with that id is gone; every other stock-in row keeps its value; the items, the sales and all three sequences are unchanged |
| `Tables.OpeningBalance` | epharma.cpp:806-809 | the ledger invariant: an item's quantity minus all stock-in quantities for it plus all sale quantities from it; a function without a contract, which `Ledger.ApplyStockInBalance`, `Ledger.ReverseStockInBalance` and `Ledger.ApplySaleBalance` prove kept |
| `Tables.Fold` | epharma.cpp:829-832 | a successful batch loop yields one id per request |
| `Tables.FoldSteps` | epharma.cpp:829-832 | in a successful loop every prefix succeeded and the j-th id is what the j-th call returned |
| `Tables.FoldFailure` | epharma.cpp:833-836 | a failed loop failed at some request k after all earlier requests succeeded, with that request's error and state |
| `Tables.FoldStopped` | epharma.cpp:833-836 | after the first failure no later request changes anything |
| `Store.InsertItem` | epharma.cpp:228-256 | a refused create leaves the database unchanged and reports a constraint violation |
| `Store.InsertItemSpec` | epharma.cpp:241-255 | create succeeds exactly when the id is unset or unused and no item has the same name and brand; the new id is the caller's positive id or an id greater than every existing id (the AUTOINCREMENT sequence plus one); the row has no barcode; the invariant holds |
| `Store.GetItem` | epharma.cpp:353-372 | the item with that id, or NotFound exactly when there is none |
| `Store.UpdateItem` | epharma.cpp:269-272 | update reports an invalid argument exactly when the id is not positive; a refused update changes nothing |
| `Store.UpdateItemSpec` | epharma.cpp:269-299 | an update of an existing id rewrites name, brand, quantity, prices and expiry date, keeps id, created_at and barcode and every other row; a missing id is a no-op; a name/brand clash is refused |
| `Store.UpdateQuantitySucceeds` | epharma.cpp:806-809 | writing back a re-read item with a new quantity always succeeds and changes only that quantity |
| `Store.DeleteItem` | epharma.cpp:302-306 | delete removes that id, if present, and leaves every other row and both movement tables alone |
| `Store.DeleteItemValid` | epharma.cpp:302-306 | delete keeps the invariant |
| `Store.SetBarcode` | epharma.cpp:374-386 | a refused barcode change leaves the database unchanged and reports a constraint violation |
| `Store.SetBarcodeSpec` | epharma.cpp:374-386 | the change succeeds exactly when the id is missing or no other item carries the barcode; a missing id changes nothing; otherwise it sets only that item's barcode |
| `Store.FindByBarcode` | epharma.cpp:389-408 | the lookup finds an item carrying the barcode, or NotFound exactly when none does |
| `Store.FindByBarcodeUnique` | epharma.cpp:129 | with barcodes unique, the lookup returns the one item carrying it |
| `Store.SetBarcodeThenFind` | epharma.hpp:187-191 | after setting barcode b on item i, looking up b returns item i |
| `Store.InsertItems` | epharma.cpp:258-266 | a successful multi-insert returns one id per item |
| `Store.InsertItemsSpec` | epharma.cpp:258-266 | the multi-insert keeps the invariant, both movement tables and every existing row, whether or not it succeeds |
| `Store.InsertItemsIds` | epharma.cpp:258-266 | the ids a successful multi-insert returns were absent before, are distinct and present, keep the explicit ids given, and each holds its item's row with no barcode |
| `Ledger.Atomically` | epharma.cpp:800-820 | BEGIN/COMMIT/ROLLBACK: the result is passed on; success keeps the state the statements reached; failure returns to the state before BEGIN |
| `Ledger.ApplyStockIn` | epharma.cpp:774-821 | create_stock_in without a transaction: a success means the item existed and the returned id was free and is now a stock-in |
| `Ledger.CreateStockIn` | epharma.cpp:774-821 | create_stock_in with its transaction: a failure leaves the database unchanged |
| `Ledger.ApplyStockInOutcome` | epharma.cpp:800-821 | a stock-in succeeds exactly when its id is free and its item exists; otherwise a constraint violation or NotFound |
| `Ledger.ApplyStockInSpec` | epharma.cpp:800-821 | a successful stock-in adds one row and raises that item's quantity by exactly its quantity; no other item changes; the invariant holds |
| `Ledger.StockInUnknownItem` | epharma.cpp:805-820 | for a missing item the row is written and then the re-read fails; with the transaction the database is as before |
| `Ledger.ApplyStockInBalance` | epharma.cpp:805-809 | a stock-in keeps every item's opening balance |
| `Ledger.ReverseStockIn` | epharma.cpp:951-970 | a failed deletion changes nothing; a successful one removes exactly that stock-in id |
| `Ledger.ReverseStockInSpec` | epharma.cpp:951-970 | deletion fails with NotFound and no change when the stock-in or its item is missing; otherwise it removes the row and lowers the item's quantity by the row's quantity, with no floor at zero |
| `Ledger.ReverseStockInBalance` | epharma.hpp:261-264 | deleting a stock-in keeps every item's opening balance |
| `Ledger.StockInThenReverse` | epharma_test.cpp:465-479 | deleting the stock-in just created restores the item and stock-in tables |
| `Ledger.ApplySaleAsWritten` | epharma.cpp:411-456 | create_sales_item as written: it never changes the items or the stock-ins, and succeeds only for an existing item |
| `Ledger.ApplySale` | epharma.cpp:411-456 | the corrected create_sales_item: a successful sale names an existing item whose stock covers it, and its id was free and is now a sale |
| `Ledger.CreateSale` | epharma.cpp:411-456 | the corrected create_sales_item with its transaction: a failure leaves the database unchanged |
| `Ledger.ApplySaleOutcome` | epharma.cpp:438-456 | a checked sale succeeds exactly when its id is free, the item exists and the stock covers it; otherwise a constraint violation, NotFound, or an insufficient-quantity error naming item, request and stock |
| `Ledger.ApplySaleSpec` | epharma.cpp:438-456 | a successful checked sale adds one row and lowers that item's stock by exactly its quantity; the invariant holds |
| `Ledger.SaleRejectsOversell` | epharma_test.cpp:231-256 | a sale above the stock is refused and, with the transaction, leaves the database as it was |
| `Ledger.ApplySaleBalance` | epharma.cpp:444-445 | a checked sale keeps every item's opening balance |
| `Ledger.ApplySaleAsWrittenDrifts` | epharma.cpp:442-449 | as written, a recorded sale leaves the stock unchanged, so the item's opening balance grows by the sale's quantity |
| `Ledger.OversellAcceptedAsWritten` | epharma.cpp:444-445 | as written, selling 200 from a stock of 100 succeeds and the stock stays 100; the checked sale is refused |
| `Ledger.StockInSequence` | epharma.cpp:829-832 | a successful stock-in loop returns one id per request |
| `Ledger.StockInBatch` | epharma.cpp:824-839 | create_stock_in_items: a success returns one id per request, a failure leaves the database unchanged |
| `Ledger.StockInSequenceSpec` | epharma.cpp:829-832 | the stock-in loop keeps the invariant, the item ids and the sales, and only adds stock-in rows |
| `Ledger.StockInSequenceIds` | epharma.cpp:827-832 | the ids a successful loop returns are new, distinct, present, and equal to the explicit ids given; the j-th id holds the j-th request's row with the creation time |
| `Ledger.StockInSequenceTotals` | epharma.cpp:829-832 | after the loop each item's quantity is its quantity before plus the quantities requested for it; its opening balance is unchanged |
| `Ledger.StockInBatchSpec` | epharma.cpp:824-839 | create_stock_in_items either adds every request's quantity, returning the ids in request order (the j-th is what the j-th create_stock_in returned), or changes nothing and reports the first failing request's error |
| `Ledger.SaleSequence` | epharma.cpp:462-465 | a successful loop of corrected sales returns one id per request |
| `Ledger.SalesBatch` | epharma.cpp:458-473 | the corrected create_sales_items: a success returns one id per request, a failure leaves the database unchanged |
| `Ledger.SalesBatchAsWritten` | epharma.cpp:458-473 | create_sales_items as written: a success returns 2n ids for n requests, a failure leaves the database unchanged |
| `Ledger.SaleSequenceSpec` | epharma.cpp:462-465 | the sales loop keeps the invariant, the item ids and the stock-ins, and only adds sale rows |
| `Ledger.SaleSequenceIds` | epharma.cpp:462-465 | the sale ids a successful loop returns are new, distinct, present, and equal to the explicit ids given; the j-th id holds the j-th sale's row with the creation time |
| `Ledger.SaleSequenceTotals` | epharma.cpp:462-465 | after the loop each item's stock is its stock before minus the quantities sold from it; its opening balance is unchanged |
| `Ledger.SalesBatchSpec` | epharma.cpp:458-473 | create_sales_items either returns the sale ids in request order and lowers each stock by its total, or changes nothing and reports the first failing request's error |
| `Ledger.SalesBatchAsWrittenLeadingZeros` | epharma.cpp:459 | as written, a successful batch of n sales returns 2n ids: n zeros, then the id of each unchecked sale in request order |
| `Scenarios.OneItem` | epharma.cpp:228-256 | creating an item with id 1 on empty tables stores it under id 1 with the creation time, and keeps the invariant |
| `Scenarios.InsertNumbered` | epharma.cpp:258-266 | items numbered 1 .. n with distinct names go into empty tables as ids 1 .. n, each row holding its item's data |
| `Scenarios.InsertItemsKeepsGivenIds` | epharma_test.cpp:58-80 | the test's five items go into empty tables and come back as ids [1, 2, 3, 4, 5] with their names; success is proved, not assumed |
| `Scenarios.StockInAddsQuantity` | epharma_test.cpp:367-381 | 100 in stock plus a stock-in of 100 is 200 |
| `Scenarios.StockInBatchAddsQuantities` | epharma_test.cpp:419-441 | 100 in stock plus a batch of 100 and 200 is 400, with ids [2, 3] |
| `Scenarios.DeleteStockInRestoresQuantity` | epharma_test.cpp:465-479 | 200 in stock, a stock-in of 100 and its deletion leave 200 |
| `Scenarios.CantMakeSalesIfOutOfStock` | epharma_test.cpp:231-256 | selling 200 and 150 from stocks of 100 fails on the first sale with nothing changed; as written it succeeds, returns [0, 0, 1, 2] and leaves stock untouched |
| `Database.Epharma.constructor` | epharma.cpp:117-185 | a new connection has empty tables |
| `Database.Epharma.Rollback` | epharma.cpp:816-818 | ROLLBACK returns the tables to the state saved at BEGIN |
| `Database.Epharma.CreateInventoryItem` | epharma.cpp:228-256 | the method reaches the state and result of `Store.InsertItem` |
| `Database.Epharma.InsertInventoryItems` | epharma.cpp:258-266 | the loop reaches the state and result of `Store.InsertItems`, keeping earlier rows after a failure |
| `Database.Epharma.GetInventoryItem` | epharma.cpp:353-372 | the row with that id, or NotFound exactly when there is none |
| `Database.Epharma.GetInventoryItems` | epharma.cpp:332-350 | every item exactly once, in increasing id order |
| `Database.Epharma.UpdateInventoryItem` | epharma.cpp:269-299 | the method reaches the state and result of `Store.UpdateItem` |
| `Database.Epharma.DeleteInventoryItem` | epharma.cpp:302-306 | the method reaches the state of `Store.DeleteItem` |
| `Database.Epharma.UpdateBarcode` | epharma.cpp:374-386 | the method reaches the state and result of `Store.SetBarcode` |
| `Database.Epharma.GetInventoryItemByBarcode` | epharma.cpp:389-408 | the scan returns the item carrying the barcode, or NotFound exactly when none does |
| `Database.Epharma.InsertStockInRecord` | epharma.cpp:776-805 | the INSERT statement reaches the state and result of `Tables.InsertStockInRow` |
| `Database.Epharma.InsertSaleRecord` | epharma.cpp:413-442 | the INSERT statement reaches the state and result of `Tables.InsertSaleRow` |
| `Database.Epharma.GetStockInItem` | epharma.cpp:908-927 | the stock-in with that id, or NotFound exactly when there is none |
| `Database.Epharma.SearchStockInItems` | epharma.cpp:874-905 | an invalid argument exactly for a column other than invoice_no and batch_no; otherwise exactly the stock-ins whose column contains the query, in id order |
| `Database.Epharma.CreateStockIn` | epharma.cpp:774-821 | with its transaction the method reaches `Ledger.CreateStockIn`, without it `Ledger.ApplyStockIn` (partial state kept on failure) |
| `Database.Epharma.CreateSalesItem` | epharma.cpp:411-456 | the corrected sale, not the code: with its transaction the method reaches `Ledger.CreateSale`, without it `Ledger.ApplySale`. It refuses a sale above the stock and lowers the stock, where the code records the sale and leaves the stock alone |
| `Database.Epharma.DeleteStockInItem` | epharma.cpp:951-970 | the method reaches the state and result of `Ledger.ReverseStockIn` |
| `Database.Epharma.CreateStockInItems` | epharma.cpp:824-839 | the loop, with rollback on the first failure, reaches `Ledger.StockInBatch` |
| `Database.Epharma.CreateSalesItems` | epharma.cpp:458-473 | the corrected batch, not the code: the loop, with rollback on the first failure, reaches `Ledger.SalesBatch`. It returns one id per sale in request order, where the code returns n zeros first and records unchecked sales |

## Left out

- **SQLite plumbing:**
  - Preparing, binding, stepping and finalising statements are left out; the tables are maps.
  - A failed `prepare` is not modelled. Of the modelled operations, `get_inventory_items` (epharma.cpp:336-339) and `search_stock_in_items` (epharma.cpp:887-890) then return an empty list. Every other modelled operation raises an error.
- **Timestamps:**
  - `dateTimeToString` and `dateTimeFromString` are left out, as are `localtime`, `mktime` and `get_time`.
  - Timestamps are an opaque integer the caller supplies.
  - A batch gives all its rows one `now`.
- **Dates:**
  - compute_days_to_expiry takes the number of seconds between two local midnights and divides it by 86400.
  - Both dates go through `dateFromString`, which calls `mktime` on a zero-initialised `std::tm` whose `tm_isdst` is 0 (epharma.cpp:52-56). Both are therefore standard-time midnights, a whole number of days apart.
  - A day could be lost only on a C library that normalises `tm_isdst = 0` differently. `Expiry.DaysToExpiry` uses the exact difference of day numbers.
  - The parser is a strict ten-character `YYYY-MM-DD` reader. `std::get_time` is looser: it accepts fewer digits and trailing text. The model calls such texts invalid, so it gives them -1 days to expiry and counts them as expired, where the library may accept them.
- **`Records.IsExpired`:** the library reads the system clock as the reference day. The model takes that day as a parameter.
- **32-bit integers:** the row fields are C++ `int`, but quantities, ids and their sums are unbounded here. Overflow of `item.quantity += stockin.quantity` is not modelled.
- **Floating point:** prices are `real`, not IEEE doubles.
- **Sales arithmetic:** the `SalesItem` totals, the sales report view and `get_sales_report` are left out. They only do double arithmetic and SQL aggregation.
- **Presentation and other operations:** `operator<<` is left out. So are users and authentication, `get_receipt_total` and `connect`, which have no definition in the source.
- **Getters outside the ledger core:**
  - `get_stock_in_items` and `get_stock_in_items_by_item_id` are left out; they are ordered by created_at.
  - `get_sales_items` and `get_sales_item` are left out.
  - The name searches `search_inventory_items` and `search_sales_items` are left out.
- **`Database.Epharma.SearchStockInItems`:**
  - It reads `LIKE '%q%'` as plain substring containment. SQLite's `%` and `_` wildcards inside the query, and its ASCII case folding, are not modelled.
  - Rows come back in id order, which is SQLite's rowid order for this query; the SQL itself has no ORDER BY.
- **`Database.Epharma.GetInventoryItems`:** it lists rows in id order, which is rowid order for `SELECT *` without ORDER BY.
- **Error kinds:**
  - The catch clauses of create_stock_in and create_sales_item catch only `std::runtime_error`.
  - create_stock_in is the one of them that calls `update_inventory_item` (line 809). A `std::invalid_argument` from that call would escape without a ROLLBACK.
  - That error cannot arise there, because the re-read item's id is positive (`Ledger.ApplyStockInOutcome`).
  - The model therefore treats all error kinds alike.
- **`Database.Epharma.DeleteStockInItem` and the other movement methods:**
  - Writing back the re-read item cannot fail (`Store.UpdateQuantitySucceeds`).
  - The methods prove that success rather than carry a ROLLBACK branch for the write-back.
  - The pure functions keep the branch.
- **Foreign keys:** the tables declare no FOREIGN KEY. The only link is the comment on `item_id` at epharma.hpp:124. So `delete_inventory_item` leaves the item's movements in place, and an INSERT of a movement does not check its item. `Store.DeleteItem` and `Tables.InsertSaleRow` model that.
- **Error messages:** exception texts (such as "Insufficient quantity for item") are represented by error kinds, not strings.

## Findings

| source | as written | input that shows it | evidently intended | confidence | as-written member | corrected member |
|---|---|---|---|---|---|---|
| epharma.cpp:444-445 | create_sales_item re-reads the item but neither checks the stock nor lowers it | an item with quantity 100 and a sale of 200: the sale is recorded and the stock stays 100 | reject a sale above the stock with an "Insufficient quantity for item" error, otherwise lower the stock by the sale, as epharma_test.cpp:231-256 expects and the comment on line 444 announces | not executed | `Ledger.OversellAcceptedAsWritten` | `Ledger.SaleRejectsOversell`, followed by `Database.Epharma.CreateSalesItem` |
| epharma.cpp:459 | create_sales_items builds its id vector with `items.size()` zero elements and then appends each id | a batch of 2 sales returns [0, 0, 1, 2] | return exactly one id per sale, in order, as epharma.hpp:197 says | not executed | `Ledger.SalesBatchAsWrittenLeadingZeros` | `Ledger.SalesBatchSpec`, followed by `Database.Epharma.CreateSalesItems` |

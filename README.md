# Express-Wash billing core in Dafny

Express-Wash bills laundry orders in three services:

- regular clothes, at ₹50 per kilogram;
- blankets and bedsheets, at ₹100 per kilogram;
- white clothes, at ₹40 per piece.

It keeps every order in one MySQL `orders` table. Two front ends share that table:

- a Streamlit web app (`app.py`) with a new-order page, an order history with filters, edit and delete sections, and an analytics page;
- a Tkinter desktop app (`tkinter_app.py`, class `ExpressWashApp`). It gives each saved order a daily sequential receipt number `RW-YYYYMMDD-NNNN`, shows the orders in a tree with a search box, and edits or deletes the selected row.

This project models the billing core of both:

- the bill and the stored totals;
- receipt numbering;
- the table and the SQL statements both front ends issue against it;
- the save, edit and delete flows with their validation;
- the web history filters and the analytics aggregates;
- the desktop window's form, bill summary, order tree and search filter.

Units:

- Weights are integer hundredths of a kilogram, matching the `DECIMAL(5,2)` columns.
- Money is in integer hundredths of a rupee, matching `DECIMAL(10,2)`.
- So every amount is computed exactly.

Modules:

- `Text` and `Dates` hold the Python string and date operations the code relies on.
- `Pricing` holds the price list and the bill.
- `Orders` holds the table, as class `OrdersTable`: a map from primary key to row plus the AUTO_INCREMENT counter.
- `Receipts` holds receipt numbering and the invariant that keeps receipts unique.
- `WebApp` holds the Streamlit flows.
- `Analytics` holds the metrics and charts' values.
- `DesktopApp` holds the Tkinter window, as class `ExpressWashApp`.

Today's date, the clock (`CURRENT_TIMESTAMP`) and the widgets' current values are parameters or fields.

## Model

| member | source | states |
|---|---|---|
| Pricing.CalculateBill | app.py:105-124 | each cost is its quantity times its rate (50, 100, 40 per piece), the total is their sum, and non-negative quantities give non-negative costs and total |
| Pricing.DesktopTotal | tkinter_app.py:368-370 | the desktop's inline total equals the web bill's total for every quantity |
| Pricing.WorkedExample | app.py:111-124 | 2 kg regular, 1 kg blankets and 3 white pieces cost ₹320.00 |
| Pricing.TotalZeroIffNothingOrdered | app.py:111-124 | for non-negative quantities the total is zero exactly when all three quantities are zero |
| Pricing.BillAdditive | app.py:111-124 | the bill of summed quantities is the sum of the bills |
| Pricing.BillMonotone | app.py:111-124 | ordering more of any service never lowers the total |
| Text.ParseInt | tkinter_app.py:324 | `int` succeeds exactly on a non-empty run of digits |
| Text.PaddedRoundTrip | tkinter_app.py:324-328 | parsing a number formatted zero-padded to any width gives the number back |
| Text.LastSegmentAfterSeparator | tkinter_app.py:324 | the last `-` segment of a prefix ending in `-` followed by dash-free text is that text |
| Text.FirstFieldOfDigits | app.py:496 | the first `" - "` field of digits followed by `" - "` is those digits |
| Text.RemoveAllFromDigits | app.py:496 | removing `"ID: "` from a digit string leaves it unchanged |
| Text.StripEmptyIffBlank | tkinter_app.py:359-363 | a stripped text is empty exactly when the text is all whitespace |
| Dates.CompactText | tkinter_app.py:316 | `%Y%m%d` gives eight digits |
| Dates.IsoText | app.py:346 | `%Y-%m-%d` gives ten characters with dashes at positions 4 and 7 |
| Dates.CompactTextInjective | tkinter_app.py:316-317 | different days give different receipt prefixes |
| Dates.IsoTextInjective | app.py:346 | different days give different stored date texts |
| Orders.OrdersTable.constructor | tkinter_app.py:55-66 | the table starts empty with the AUTO_INCREMENT counter at 1 |
| Orders.OrdersTable.Insert | tkinter_app.py:371-378 | a new row goes in under the counter's id with the given receipt, columns and timestamp, and no other row changes; a receipt already present is refused by the UNIQUE constraint and nothing is written; the counter advances either way |
| Orders.OrdersTable.Update | app.py:186-218 | exactly the seven columns of the row with that id are rewritten, while its id, receipt and timestamp and every other row stay; an unknown id changes nothing; it returns True in both cases |
| Orders.OrdersTable.Delete | app.py:220-237 | only the row with that id is removed, and it returns True whether or not a row matched |
| Orders.OrdersTable.GetById | app.py:239-252 | it returns the row with that id, or None exactly when there is none |
| Orders.OrdersTable.LoadOrders | app.py:175-184 | the listing holds every row exactly once and nothing else, ordered by `created_at` from newest to oldest |
| Orders.OrdersTable.LatestReceiptWithPrefix | tkinter_app.py:318-321 | it returns the receipt of the highest-id row whose receipt starts with the prefix, or None when no row's does |
| Orders.InsertionPoint | app.py:179 | a row goes after every row at least as new and before the first older one |
| Orders.SpliceKeepsNewestFirst | app.py:179 | splicing a row in at its insertion point keeps a listing newest-first |
| Orders.WalkStep | app.py:179 | one step of the listing walk keeps it newest-first and listing each visited row once |
| Receipts.Prefix | tkinter_app.py:316-317 | the prefix `RW-YYYYMMDD-` has twelve characters and ends with `-` |
| Receipts.SequenceText | tkinter_app.py:328 | the sequence is a run of at least four digits that parses back to the number, and exactly four digits for numbers below 10000 |
| Receipts.ReceiptRoundTrip | tkinter_app.py:324-328 | a formatted receipt starts with its day's prefix, and splitting it on `-` and parsing the last part gives back the sequence number |
| Receipts.GenerateReceiptNumber | tkinter_app.py:314-328 | the result is today's prefix followed only by digits, at least four of them and exactly four below 10000, which spell the next number; it parses back to 1 when nothing was fetched (or the fetched value is empty) and to the fetched number plus one otherwise; it fails exactly when the fetched receipt's last part is not a number |
| Receipts.FirstReceiptOfDay | tkinter_app.py:325-328 | with no receipt for today the number is `RW-YYYYMMDD-0001` |
| Receipts.ReceiptAfter | tkinter_app.py:322-328 | after a receipt numbered m the next is numbered m + 1 under today's prefix |
| Receipts.FormatReceiptInjective | tkinter_app.py:316-328 | two receipts are equal only for the same day and number |
| Receipts.ReceiptsDistinct | tkinter_app.py:57 | while receipts are in order, no two rows share a receipt number |
| Receipts.ReceiptsOrderedAfterInsert | tkinter_app.py:371-378 | inserting under a larger key a receipt numbered above its day's receipts keeps receipts in order |
| Receipts.LatestHasHighestNumber | tkinter_app.py:320-321 | while receipts are in order, the highest-id row of a day carries the day's highest number |
| Receipts.GeneratedFirstOfDay | tkinter_app.py:320-327 | when no row carries today's prefix the generated number is 1 |
| Receipts.GeneratedNextInDay | tkinter_app.py:320-328 | while receipts are in order, the generated number is one more than the number on the day's highest-id row, which is the day's highest |
| Receipts.GeneratedAboveDay | tkinter_app.py:320-327 | while receipts are in order, generation succeeds and the new number lies above every number of the day |
| Receipts.GeneratedReceiptIsFresh | tkinter_app.py:314-378 | in sequential saves the generated receipt is not yet taken, and inserting it keeps receipts in order, so one day's numbers strictly increase and are pairwise distinct |
| Receipts.ReceiptsOrderedAfterUpdate | tkinter_app.py:522-530 | an update leaves every receipt in place and keeps them in order |
| Receipts.ReceiptsOrderedAfterDelete | tkinter_app.py:572 | a delete keeps receipts in order |
| WebApp.BuildOrderData | app.py:343-351 | the saved record holds the entered values and the date as `YYYY-MM-DD`, and its total is the bill of the very quantities stored beside it |
| WebApp.SaveNewOrder | app.py:320-367 | nothing is offered or written unless some quantity is positive; nothing is written without a name and a date; otherwise exactly one row without receipt is added under the next id, with a consistent total; receipt order is kept; the history page's add section (app.py:646-672) has the same guards and writes the same record |
| WebApp.EditOrder | app.py:496-569 | an unknown id shows nothing and writes nothing; without a name and a date nothing is written; otherwise exactly the seven columns of the selected row are rewritten with a consistent total |
| WebApp.DeleteSelected | app.py:588-612 | an unknown id or an unticked confirmation deletes nothing; otherwise exactly the selected row is removed |
| WebApp.SelectedOrderId | app.py:496 | parsing a selected label yields an id exactly when the field left after removing `"ID: "` is a non-empty run of digits, and the id is the number they spell |
| WebApp.OptionRoundTrip | app.py:488-496 | parsing an option label back gives the id of its row, whatever the customer's name contains |
| WebApp.OrderOptions | app.py:488-490 | one label per loaded row, in row order, each parsing back to its row's id |
| WebApp.Select | app.py:420 | boolean indexing keeps exactly the rows the mask accepts and never adds rows |
| WebApp.SelectAppend | app.py:418-426 | selection distributes over concatenation, so it preserves order |
| WebApp.SelectSelect | app.py:418-426 | two masks in a row act as one mask of their conjunction |
| WebApp.HistoryView | app.py:418-426 | (intended behaviour) the filtered view holds exactly the loaded rows whose name contains the search text case-insensitively, whose date is the chosen date and whose total is at least the minimum, each filter applied only when set |
| WebApp.HistoryViewIsSelection | app.py:418-426 | the three filters in a row are one order-preserving selection by their combined condition |
| WebApp.NoFilterShowsAll | app.py:418-426 | with no filter set the view is every loaded row |
| WebApp.DateMaskAsWritten | app.py:422-423 | as written, the date mask compares a date object with a string and so accepts no row |
| WebApp.HistoryViewAsWritten | app.py:418-426 | as written, choosing any date empties the view whatever the rows hold; without a date it is the intended view |
| WebApp.DateFilterCounterexample | app.py:422-423 | an order dated 2024-01-15, filtered by that date, is shown by the intended filter and hidden by the written one |
| Analytics.ServiceBreakdown | app.py:729-733 | each service's revenue is that service's cost in the bill of the summed column quantities |
| Analytics.ServiceRevenueAddsUp | app.py:729-733 | each service's revenue is its column sum times its rate, and when every stored total obeys the pricing, the three add up to total revenue |
| Analytics.TotalRevenue | app.py:699 | when no order's total is negative, the revenue is non-negative and at least every single order's total |
| Analytics.TotalRevenueAppend | app.py:699 | revenue adds up over a split of the rows |
| Analytics.Names | app.py:707 | the names counted are exactly the orders' customers, and there are no more of them than orders |
| Analytics.UniqueCustomers | app.py:695-707 | there are never more unique customers than orders, and at least one when there is an order |
| Analytics.DistinctNames | app.py:742 | the group keys list each customer exactly once |
| Analytics.DistinctNamesCount | app.py:742 | there are as many groups as unique customers |
| Analytics.InsertByRevenue | app.py:742 | inserting a name keeps the other names and adds it once |
| Analytics.InsertKeepsDescending | app.py:742 | inserting by revenue keeps a list ordered from the highest revenue down |
| Analytics.SortByRevenue | app.py:742 | the descending sort is a permutation of the customers |
| Analytics.SortIsDescending | app.py:742 | the sorted customers have non-increasing revenue |
| Analytics.RankingFacts | app.py:742 | the ranking lists every customer exactly once, in non-increasing order of revenue |
| Analytics.TopCustomers | app.py:742 | the chart holds at most ten bars, each with its customer's summed revenue |
| Analytics.TopIsRankingPrefix | app.py:742 | the chart shows the first entries of the ranking, each with the customer's summed revenue |
| Analytics.TopCustomersCount | app.py:742 | at most ten customers are shown, and all of them when there are ten or fewer |
| Analytics.TopCustomersRanked | app.py:742 | the chart's names are real customers, pairwise distinct, each with its own revenue, in non-increasing order |
| Analytics.TopCustomersLeftOutEarnLess | app.py:742 | no customer left off the chart earns more than one on it |
| Analytics.DailyRevenue | app.py:714 | every order's date is a key of the daily revenue |
| Analytics.DailyRevenueIsPerDaySum | app.py:714 | a date is a key exactly when some order has it, and its value is the sum of that day's totals |
| Analytics.RevenueSplitsByDay | app.py:699-714 | a day's revenue plus the other days' revenue is the total revenue |
| DesktopApp.ConsiderService | tkinter_app.py:343-348 | a service line is appended exactly when its quantity is positive |
| DesktopApp.CloseSummary | tkinter_app.py:349-351 | once all three services are considered, in rank order, the total between two rules completes the summary |
| DesktopApp.AppendService | tkinter_app.py:343-348 | the new lines are the old ones plus this service's line, with its quantity and cost, exactly when its quantity is positive; the lines stay in the order regular, blankets, white, each service at most once |
| DesktopApp.BillLines | tkinter_app.py:330-352 | the summary is the title, then only service lines, one per service with a positive quantity, in the order regular, blankets, white, each with its quantity and cost, then the total of all three between two rules |
| DesktopApp.BillSummaryDetermined | tkinter_app.py:341-352 | the three quantities fix the summary: two line lists that both have its layout are the same list |
| DesktopApp.ItemsOf | tkinter_app.py:406-417 | one tree item per loaded row, in listing order |
| DesktopApp.Keep | tkinter_app.py:426-433 | the intended search keeps exactly the items whose lowered name contains the lowered term, and never more items than it was given |
| DesktopApp.KeepEmptyTerm | tkinter_app.py:424-433 | an empty search keeps every item |
| DesktopApp.KeepIdempotent | tkinter_app.py:424-433 | searching twice with the same term changes nothing |
| DesktopApp.KeepAppend | tkinter_app.py:426-433 | the search keeps items in their order |
| DesktopApp.SearchForB | tkinter_app.py:424-430 | "b" matches "Bob" once lowered and does not match "Ann" |
| DesktopApp.CellValueOf | tkinter_app.py:427 | a cell of digits comes back from the tree as the number they spell, any other text unchanged |
| DesktopApp.KeepAsWritten | tkinter_app.py:426-433 | as written, the loop keeps exactly the items whose name, read back from the tree, contains the lowered term; a name read back as the number 0 reads as "" |
| DesktopApp.CrashPoint | tkinter_app.py:426-428 | the as-written loop gets past every item before the first name read back as a non-zero number, and stops at that one |
| DesktopApp.KeepAsWrittenAgrees | tkinter_app.py:426-433 | while no name is a run of digits, the as-written loop runs to the end and keeps what the intended search keeps |
| DesktopApp.LettersAreText | tkinter_app.py:427-428 | a name that does not start with a digit comes back as text and is lowered |
| DesktopApp.SearchCannotWiden | tkinter_app.py:424-433 | as written, after searching "b" an empty search still hides "Ann", though an empty search over the loaded rows shows both |
| DesktopApp.NumericNameStopsSearch | tkinter_app.py:426-433 | with "Bob", "123" and "Ann" shown, searching "b" as written stops at "123" and leaves all three shown with Bob moved last, where the intended search shows Bob alone |
| DesktopApp.MySqlInt | tkinter_app.py:469 | text without leading digits reads as 0, and a text of digits reads as the number they spell |
| DesktopApp.ReceiptCellsCoerceToZero | tkinter_app.py:408 | the tree's receipt cell, "None" or a generated receipt, has no leading digits, so MySQL reads it as id 0 |
| DesktopApp.FormRecord | tkinter_app.py:359-370 | there is no record exactly when the stripped name or date is empty; otherwise the record holds the stripped texts, the quantities and the inline total |
| DesktopApp.LoadedItemsNameTheirRows | tkinter_app.py:404-417 | each loaded item's row id names the very row it shows |
| DesktopApp.ExpressWashApp.constructor | tkinter_app.py:18-46 | the window opens with an empty form dated today, an empty search and the tree showing the whole table; the table is not changed |
| DesktopApp.ExpressWashApp.ShowBill | tkinter_app.py:330-352 | the bill text becomes the bill summary of the form's quantities, which that layout fixes line by line |
| DesktopApp.ExpressWashApp.ClearForm | tkinter_app.py:387-395 | name and mobile become empty, the date becomes today, the quantities zero and the bill text empty |
| DesktopApp.ExpressWashApp.LoadTree | tkinter_app.py:397-420 | the tree then shows every row once, newest first, with nothing detached |
| DesktopApp.ExpressWashApp.FilterOrdersAsWritten | tkinter_app.py:422-433 | the walk over the attached items raises exactly when some name reads back as a non-zero number; the items before the first such name that match the term move, in their order, behind the items not yet visited, and the other visited items are detached |
| DesktopApp.ExpressWashApp.FilterOrders | tkinter_app.py:422-433 | the attached items become every loaded item whose lowered name contains the lowered term, in load order |
| DesktopApp.ExpressWashApp.ClearAndReload | tkinter_app.py:382-383 | the form is cleared and the tree shows the table; the table is not changed |
| DesktopApp.ExpressWashApp.InsertWithReceipt | tkinter_app.py:371-378 | an unreadable receipt or a refused INSERT writes nothing; a success adds exactly one row under the counter's id, with exactly the receipt `generate_receipt_number` makes from the day's latest receipt; the counter moves by one per INSERT sent; while receipts are in order the save succeeds with a number above the day's numbers, and order is kept |
| DesktopApp.SavedReceiptIsNextInDay | tkinter_app.py:320-328 | while receipts are in order, a saved receipt is numbered 1 when the day had none, and otherwise one more than the day's highest number |
| DesktopApp.OrderedSaveGoesThrough | tkinter_app.py:371-378 | while receipts are in order, the generated receipt is free and inserting it keeps them in order, above the day's numbers |
| DesktopApp.ExpressWashApp.SaveRecord | tkinter_app.py:371-383 | a successful insert stores exactly the generated receipt and is followed by a cleared form and a reloaded tree; a failure changes nothing |
| DesktopApp.ExpressWashApp.SaveOrder | tkinter_app.py:356-385 | a blank stripped name or date writes nothing and generates no receipt; otherwise the stored row is the stripped record with the inline total and the receipt `generate_receipt_number` returns, only that row is added, and the form is cleared and the tree reloaded |
| DesktopApp.ExpressWashApp.UpdateRow | tkinter_app.py:511-537 | the UPDATE rewrites exactly the seven columns of the row with that id, unchecked, with a total equal to the bill; other rows stay; receipt order is kept |
| DesktopApp.ExpressWashApp.DeleteRow | tkinter_app.py:572-577 | the DELETE removes only the row with that id, then the tree is reloaded |
| DesktopApp.ExpressWashApp.EditOrderAsWritten | tkinter_app.py:447-530 | with nothing selected nothing happens; otherwise the UPDATE rewrites the seven columns of the row whose id is the number MySQL reads from the receipt cell, if there is one, and nothing otherwise, so a cell without leading digits changes no row; the tree is reloaded and receipt order is kept |
| DesktopApp.ExpressWashApp.EditOrder | tkinter_app.py:447-530 | with a selection exactly the selected row's seven columns are rewritten, with the inline total |
| DesktopApp.ExpressWashApp.DeleteOrderAsWritten | tkinter_app.py:550-580 | nothing is deleted without a selection or confirmation; otherwise the DELETE removes the row whose id is the number MySQL reads from the receipt cell, so a cell without leading digits deletes no row; the tree is reloaded and receipt order is kept |
| DesktopApp.ExpressWashApp.DeleteOrder | tkinter_app.py:550-580 | a confirmed delete removes exactly the selected row and reloads the tree |

## Left out

- The widget code, CSS, layout, message boxes and `st.rerun` are not modelled. They are presentation only. Widget values arrive as parameters or as fields of `ExpressWashApp`.
- The CSV backup and the CSV/Excel exports are not modelled. They are file I/O (`save_order_to_csv`, `update_csv_backup`, `export_data`).
- Connection setup, credentials, `CREATE TABLE` and `ALTER TABLE` are not modelled. The table starts empty.
- Only one database error is modelled: the refused duplicate receipt. Lost connections, and the `except` branches that report them (`update_order` and `delete_order` returning False, `load_orders` returning an empty frame), are left out.
- Concurrency is left out. Saves are sequential, so the race in which two sessions read the same last receipt is not modelled.
- Floating point is left out. The widgets' `DoubleVar` and `number_input` values are exact hundredths.
- `DECIMAL(5,2)` overflow and MySQL's checking of the `DATE` column are not modelled. The date is stored as the text the front end sends.
- The tree cells' display formatting (`:.1f`, `:.2f`, `strftime('%Y-%m-%d %H:%M')`) is not modelled. The tree item keeps the receipt cell and the row's raw values.
- The history table's display formatting and the `mean` metric (a float division used only for display) are left out.
- The Plotly charts are left out. Only the values that feed them are modelled.
- The order of the `groupby` keys is not modelled. `DailyRevenue` is a map.
- `DistinctNames` lists names by first appearance, and the top-customers sort is stable insertion by revenue. Ties between equal revenues may come out in a different order than pandas gives them.
- Text.Lower: only ASCII letters are lowered.
- Text.ParseInt: `int` is modelled on plain ASCII digit strings. Signs, surrounding spaces and underscores are read as failures.
- `str.contains` treats the search text as a regular expression. The model takes it literally.
- Orders.OrdersTable.LatestReceiptWithPrefix: the prefix is matched case-sensitively, while MySQL's `LIKE` under the default collation ignores case. Generated receipts hold no lower-case letters, so no save behaves differently.
- DesktopApp.MySqlInt models MySQL's conversion of text to an integer by its leading digits only. Signs, spaces and decimal points are not modelled.
- MySQL is taken to run without strict SQL mode, where a non-numeric id is read as a number with a warning. Under strict mode the UPDATE and DELETE of the as-written desktop paths may instead fail with error 1292; the source then shows an error and skips `load_orders`. The table is unchanged either way, but the model always reloads the tree.
- DesktopApp.CellValueOf: ttk's `int()` conversion is modelled on plain digit runs. Names with a sign, surrounding spaces or underscores that `int()` also accepts are read as text.
- DesktopApp.ExpressWashApp.ShowBill: `DoubleVar.get()` and `IntVar.get()` raise `TclError` when an entry holds empty or non-numeric text, and the source then shows an error and changes nothing. The quantities are integer fields here, so this path is not expressed.
- DesktopApp.ExpressWashApp.SaveOrder: the same `TclError` on a non-numeric quantity shows an error and writes nothing. The model's integer quantities cannot express it.
- DesktopApp.ExpressWashApp.UpdateRow: the same `TclError` in the edit window shows an error and sends no UPDATE. The model takes the edited quantities as integers.
- `ExpressWashApp` keeps each tree item's row id as the item id, and the corrected edit and delete paths read it. The source's values tuple does not carry the id.
- `ExpressWashApp.LoadTree` deletes only the attached items, as the source does. Items detached by a search remain in the tree and are forgotten. The model does not keep those orphaned items across reloads.
- `on_select` (button enabling) and the edit window's prefilled widgets are left out. The edit paths take the edited values directly.
- WebApp.SaveNewOrder: the insert cannot fail in the model, because a NULL receipt never clashes.
- The web pages' save paths and the desktop save both store the row's `created_at` as the parameter `now`.

## Findings

| source | as written | input that shows it | evidently intended | confidence | as-written member | corrected member |
|---|---|---|---|---|---|---|
| tkinter_app.py:469 | edit sends `values[0]`, the receipt cell, as the id in `WHERE id = %s`; without strict SQL mode MySQL reads `RW-...` or `None` as 0, with it the statement fails; no row changes either way | any selected row, e.g. receipt `RW-20240115-0001` | update the selected row by its primary key | not executed | DesktopApp.ExpressWashApp.EditOrderAsWritten | DesktopApp.ExpressWashApp.EditOrder |
| tkinter_app.py:566 | delete sends `values[0]`, the receipt cell, as the id; without strict SQL mode it reads as 0, which no row has, and with it the statement fails; no row is deleted either way | any selected row, confirmed | delete the selected row by its primary key | not executed | DesktopApp.ExpressWashApp.DeleteOrderAsWritten | DesktopApp.ExpressWashApp.DeleteOrder |
| app.py:422-423 | the date filter compares the `order_date` column, which holds date objects, with a string; they are never equal | an order dated 2024-01-15 filtered by 2024-01-15 | keep the orders of the chosen date | not executed | WebApp.DateFilterCounterexample | WebApp.HistoryViewIsSelection |
| tkinter_app.py:426 | the search walks only the attached items, so a detached item never comes back | names "Bob" and "Ann"; search "b", then clear the search | an emptied search shows every loaded order again | not executed | DesktopApp.SearchCannotWiden | DesktopApp.ExpressWashApp.FilterOrders |
| tkinter_app.py:428 | ttk hands a name made of digits back as an `int`, whose missing `.lower()` raises and stops the search part-way | names "Bob", "123", "Ann"; search "b" | filter every name as text | not executed | DesktopApp.NumericNameStopsSearch | DesktopApp.ExpressWashApp.FilterOrders |

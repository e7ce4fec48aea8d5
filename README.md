# Warehouse client: a verified model of its data core

The client is a Tkinter desktop application for a PostgreSQL warehouse
database. It runs on a master and a read replica. It keeps items, categories,
warehouses and employees, and it drives shipments through PENDING, then
PREPARED, then COMPLETED. This project models the part of the client that
decides what reaches the database and in what order. That part has three
pieces:

- **The database gateway** (`PostgreSQLManager`), in `gateway.dfy`:
  - It picks the endpoint for each call and shapes the result as rows or a
    rowcount.
  - It re-raises errors unchanged.
  - It splits a script into statements and runs them one by one, stopping
    at the first failure.
  - Its health probe never raises.
- **The shipment workflow**:
  - `shipments.dfy` holds the tables the workflow touches and the shipment
    screen:
    - preparation reserves stock line by line with a conditional decrement;
    - the status of the selected shipment decides which actions are enabled;
    - completion assigns a courier.
  - `shipment_form.dfy` holds the creation form:
    - the warehouse labels and how an id is read back from them;
    - the items offered for the chosen warehouse;
    - the selected items;
    - the inserts that `save` performs.
- **The generic table editor** (`BaseView`), in `crud.dfy`:
  - it builds the INSERT, UPDATE and DELETE statements and looks up records;
  - it lists and preselects foreign-key options;
  - `save` merges field values with foreign-key choices.

`text.dfy` holds the Python string built-ins these pieces rely on: `strip`,
`split`, `join`, `count`, and `str`/`int` on integers. `wrappers.dfy` holds
`Option` and `Result`.

The database is an abstract store. `Gateway.Database` maps each set of
connection settings to a server, which is online or not and holds a state.
A statement-semantics function says what one statement does to that state.
Each `execute_query` call is one atomic step: connect, execute, shape,
commit, and change nothing if anything fails. The shipment workflow models
its tables concretely in `Shipments.Store`:

- items with a non-negative quantity;
- shipments with a status, a courier and a completion time;
- the shipment lines;
- the shipment id sequence;
- the warehouse and employee rows that it only reads.

Methods change state where the source changes state:

- `Manager.ExecuteScript` runs its statements in a loop.
- `BaseView.LoadData` fills the tree row by row.
- `ShipmentView.PrepareShipment` decrements stock line by line.
- `ShipmentForm.LoadItems` rebuilds the item rows.
- `ShipmentForm.Save` inserts the lines one by one.

Each such method is proved against a specification function (`RunScript`,
`Tabulate`, `Reserve`, `Unchecked`, `Create`). The lemmas are stated about
those functions. The `rows` that `ShipmentForm.LoadItems` and
`ShipmentForm.SelectWarehouse` take are the replica's scan of the items
table, an input not tied to `db.items`; `ShipmentForms.OfferedFromTable`
states which items are offered when that scan is the table itself.

Points where the code behaves differently than a reader might expect:

- Endpoint routing depends only on the `use_replica` flag
  (client/sql_manager.py:28). The statement text is never inspected, so a
  SELECT sent without the flag goes to the master.
- `prepare_shipment` does not check the shipment's status
  (client/views/shipment_view.py:83-112). Only the enabled buttons gate it.
  `Shipments.PrepareIgnoresStatus` and `Shipments.PrepareTwiceReservesTwice`
  state the consequence: preparing a shipment again reserves its stock again.
  `Shipments.PrepareReopensCompleted` states that it can take a COMPLETED
  shipment back to PREPARED.
- The courier list is every courier attached to any warehouse
  (client/views/shipment_view.py:157-162). It is not limited to the
  shipment's warehouse.
- A checked item's quantity is whatever its spinbox holds
  (client/views/shipment_form.py:95, 140-144). It starts at 0 and is not
  checked at save time. A line of quantity 0 reserves whenever its item row
  exists, because `quantity >= 0` holds for every item; only a missing item
  row (`WHERE id = %s` matches nothing) makes it fall short. A negative
  quantity raises the stock.

## Model

| member | source | states |
|---|---|---|
| Gateway.Route | client/sql_manager.py:28 | The replica settings exactly when `use_replica` is set, the master settings otherwise; nothing else is an input. |
| Gateway.Exec | client/sql_manager.py:33-43 | One call is one atomic step on the chosen endpoint; no server is added or removed. |
| Gateway.ExecOutcome | client/sql_manager.py:33-43 | An offline or unknown endpoint is a connection error. A failure leaves every server unchanged and is returned as is, with no retry and no other endpoint. A success found the endpoint online and the statement accepted. It is rows exactly when fetching, and then every row of the statement's result set; otherwise it is the statement's rowcount. It leaves the endpoint in the state the statement produced. A rejected statement comes back as `StatementFailed` carrying the server's own message, and fetching from a statement without a result set is `NoResultSet`. |
| Gateway.ExecTouchesOnlyItsServer | client/sql_manager.py:33-43 | A call changes only the endpoint it is sent to; every other server keeps its state. |
| Gateway.Manager.ExecuteQuery | client/sql_manager.py:12-43 | The result and the new servers are those of one `Exec` on `Route(use_replica)`. |
| Gateway.KeepNonEmpty | client/sql_manager.py:49 | A comprehension with a filter keeps at most as many elements as it reads. |
| Gateway.KeepNonEmptyAppend | client/sql_manager.py:49 | The comprehension works element by element, so it distributes over concatenation. |
| Gateway.KeepNonEmptyAll | client/sql_manager.py:49 | Every kept element is non-empty, and it has any property that every image has. |
| Gateway.Clean | client/sql_manager.py:49 | There are at most as many statements as fragments. |
| Gateway.CleanWellFormed | client/sql_manager.py:49 | Every statement is non-empty and stripped. |
| Gateway.CleanFreeOf | client/sql_manager.py:49 | A character that no fragment contains is in no statement either. |
| Gateway.CleanAppend | client/sql_manager.py:49 | Cleaning works fragment by fragment, so fragment order is kept. |
| Gateway.ScriptStatementsWellFormed | client/sql_manager.py:49 | Every statement of a script is trimmed, non-empty and free of `;`. There are at most (number of `;`) + 1 statements. The split pieces joined with `;` give back the script. |
| Gateway.ScriptStatements | client/sql_manager.py:49 | The statements of a script: the `;`-separated pieces, stripped, empty ones dropped; at most (number of `;`) + 1 of them. |
| Gateway.RunScript | client/sql_manager.py:51-57 | Running the statements in order on one endpoint keeps the set of servers, and a run that stops does so at one of the statements. |
| Gateway.Manager.ExecuteScript | client/sql_manager.py:45-57 | The servers end as `RunScript` over the script's statements on `Route(use_replica)` leaves them. The result is success when every statement ran, and the first failure's error otherwise. |
| Gateway.Manager.ExecuteStatements | client/sql_manager.py:51-57 | The same, for the loop over already cleaned statements. |
| Gateway.Manager.ExecuteNext | client/sql_manager.py:52-53 | After a completed run of the earlier statements, one more statement extends the run: a failure stops it at that statement with its error, and a success continues it. |
| Gateway.RunScriptSnoc | client/sql_manager.py:51-57 | A completed run followed by one statement is that statement's `Exec` on the servers the run left. |
| Gateway.RunScriptStoppedPrefix | client/sql_manager.py:51-57 | Once a statement has failed, the statements after it change nothing. |
| Gateway.ScriptStopsAtFirstFailure | client/sql_manager.py:51-57 | When a run stops at statement k, the statements before k all ran and stayed committed, statement k failed on that state with the reported error, and k is within the script. |
| Gateway.ScriptRanEveryPrefix | client/sql_manager.py:51-52 | A run that completed completed every prefix of the script. |
| Gateway.ScriptStaysOnOneEndpoint | client/sql_manager.py:52 | Every statement of a script goes to the one endpoint; every other server is unchanged. |
| Gateway.Probe | client/sql_manager.py:59-71 | The probe is `(True, latency)` exactly when a fetching `SELECT 1` succeeds on the endpoint, and `(False, None)` otherwise; it never fails. |
| Gateway.Manager.CheckConnection | client/sql_manager.py:59-71 | The answer is `Probe` on `Route(use_replica)` with the measured time; the servers are as the probe leaves them. |
| Text.Strip | client/sql_manager.py:49 | `str.strip()` is never longer than its input. |
| Text.StripWellFormed | client/sql_manager.py:49 | The stripped text has no white space at either end, and it is empty exactly when the input is all white space. |
| Text.StripAddsNothing | client/sql_manager.py:49 | A character absent from the input is absent from its stripped form. |
| Text.StripPadded | client/sql_manager.py:49 | Stripping gives back exactly the trimmed text between any white-space padding. |
| Text.StripIdempotent | client/sql_manager.py:49 | Stripping twice is stripping once. |
| Text.Split | client/sql_manager.py:49 | `str.split(sep)` gives one more piece than the separators, and no piece contains the separator. |
| Text.JoinSplit | client/sql_manager.py:49 | Joining the pieces of a split with the separator restores the text. |
| Text.SplitJoin | client/sql_manager.py:49 | Splitting a join of separator-free pieces gives the pieces back. |
| Text.SplitCommaList | client/views/base_view.py:157 | A `", "`-joined list of non-empty, trimmed, comma-free names, split at the commas and stripped piece by piece, gives the names back in order. |
| Text.Join | client/views/base_view.py:157-163 | `sep.join(parts)` puts a separator only between parts: no parts join to the empty text and a single part to itself. `SplitJoin` and `JoinSplit` state that `split` undoes it, and `JoinFree` that it adds no character beyond the parts and the separator. |
| Text.ParseInt | client/views/shipment_form.py:138 | `int(s)` fails on the empty text; a value it returns comes from an optional `-` followed by digits only, it is negative only with the `-`, and without it every character is a digit; `IntRoundTrip` states that it inverts `str`. |
| Text.FirstWord | client/views/shipment_form.py:54 | `s.split(' ')[0]` is a blank-free prefix of `s`. |
| Text.FirstWordOf | client/views/shipment_form.py:54 | The first word of `w + ' ' + rest` is `w` for a blank-free `w`. |
| Text.IntToString | client/views/shipment_form.py:28 | `str(int)` is non-empty and contains no blank. |
| Text.IntRoundTrip | client/views/shipment_form.py:28 | `int(str(i)) == i` for every integer. |
| Crud.Lookup | client/views/base_view.py:132 | A key has a value in the dict exactly when it is one of its keys. |
| Crud.InsertRequest | client/views/base_view.py:156-160 | The INSERT's parameters are the values in key order; it goes to the master and fetches nothing. |
| Crud.InsertPlaceholdersMatchParams | client/views/base_view.py:156-160 | With `%`-free table and column names, the INSERT has exactly one `%s` per value, and as many as it has parameters. |
| Crud.UpdateRequest | client/views/base_view.py:162-166 | The UPDATE's parameters are the values in key order followed by the record id; it goes to the master. |
| Crud.UpdatePlaceholdersMatchParams | client/views/base_view.py:162-166 | With `%`-free names, the UPDATE has `len(values) + 1` placeholders, as many as its parameters, and the last parameter is the record id. |
| Crud.InsertColumnsMatchParams | client/views/base_view.py:156-160 | Reading the column list back out of the INSERT (up to the first `)`, split at commas, stripped) gives the keys in order, and column k is paired with parameter k: together they are the k-th entry of the values. |
| Crud.UpdateAssignmentsMatchParams | client/views/base_view.py:162-166 | Between `SET` and `WHERE id = %s`, the k-th comma-separated assignment is `key = %s` for the k-th key, and parameter k is that key's value; the id follows the values. |
| Crud.LoadRequest | client/views/base_view.py:51-52 | `load_data` reads the whole table from the replica with rows fetched and no parameters. |
| Crud.RecordRequest | client/views/base_view.py:147-148 | `get_record` reads from the replica with rows fetched; the record id is its only parameter. |
| Crud.OptionsRequest | client/views/base_view.py:152-153 | `get_fk_values` reads from the replica with rows fetched and no parameters. |
| Crud.RecordOf | client/views/base_view.py:146-149 | The first row when there is one, and the empty record otherwise. |
| Crud.BaseView.GetRecord | client/views/base_view.py:146-149 | Reads the record with that id from the replica and returns `RecordOf` of the rows; a database error is passed on. |
| Crud.FkOptions | client/views/base_view.py:151-154 | One `(id, display)` pair per row, in row order. |
| Crud.BaseView.GetFkValues | client/views/base_view.py:151-154 | Reads `id` and the display column from the replica and returns `FkOptions` of the rows; a row without those columns is an error, as is a database error. |
| Crud.Preselect | client/views/base_view.py:113-117 | The index of the first option whose id is the current id; none when no option has it. |
| Crud.InitialChoice | client/views/base_view.py:110-119 | The combobox starts on the preselected option when editing a record that has the field, and on nothing (`-1`) exactly when the record is empty, lacks the field or no option matches. |
| Crud.FkIdAsWritten | client/views/base_view.py:127-130 | Python indexing as written: any index from `-len` to `len - 1` yields an id. |
| Crud.UnchosenSavesLastOption | client/views/base_view.py:128 | With nothing chosen (`current() == -1`) the code as written saves the id of the last option. |
| Crud.FkId | client/views/base_view.py:127-130 | The intended lookup: the chosen option's id for an index in range, and a "no choice" error otherwise. |
| Crud.FkIdAgreesOnChoices | client/views/base_view.py:128 | The intended lookup and the code as written agree on every real choice. |
| Crud.FkValues | client/views/base_view.py:127-130 | One entry per foreign key, in order, each the chosen option's id; an error exactly when some combobox has no choice. |
| Crud.Merge | client/views/base_view.py:132 | `{**values, **fk_values}` keeps the plain fields' keys in place and appends the foreign keys the plain fields do not have. |
| Crud.MergeLookup | client/views/base_view.py:132 | In the merged dict a key has its foreign-key value when there is one, and its plain value otherwise. |
| Crud.Truthy | client/views/base_view.py:133 | An id is false exactly when it is `None`, `False`, `0` or the empty string; any other id means an existing record. |
| Crud.EntryValues | client/views/base_view.py:126 | One entry per form field, in field order, whose value is the text its entry holds. |
| Crud.SaveRequest | client/views/base_view.py:124-136 | `save` builds an UPDATE of the merged values when the record id is truthy and an INSERT otherwise; nothing when a foreign key has no choice. |
| Crud.BaseView.Save | client/views/base_view.py:124-140 | Without a valid foreign-key choice nothing is sent and nothing changes. Otherwise the built statement goes to the master; its error is passed on without a reload. After a success the tree is reloaded from the servers the write left, and the screen and result are those `LoadData` states (`BaseView.Shows`). |
| Crud.DeleteRequest | client/views/base_view.py:168-176 | A DELETE exactly when a row is selected and the user confirms; its only parameter is the row's id. |
| Crud.BaseView.DeleteRecord | client/views/base_view.py:168-177 | Without a selection or confirmation nothing is sent and nothing changes. Otherwise the DELETE goes to the master; its error is passed on without a reload. After a success the tree is reloaded from the servers the DELETE left, with the screen and result `LoadData` states. |
| Crud.ShowablePrefix | client/views/base_view.py:53-54 | The records before the first one that lacks a shown column or its id. |
| Crud.TreeRowOf | client/views/base_view.py:54 | A tree row carries the record's values for the shown columns, in column order, and is tagged with its id. |
| Crud.Tabulate | client/views/base_view.py:53-54 | One tree row per record, in record order. |
| Crud.ShowablePrefixAt | client/views/base_view.py:53-54 | The showable prefix ends exactly at the first record that cannot be shown, or at the end. |
| Crud.BaseView.LoadData | client/views/base_view.py:47-54 | The tree is cleared, then holds one row per record read from the replica, in order, up to the first record missing a column, where loading stops with a missing-column error; otherwise the result is success. A database error is passed on and leaves the tree empty. |
| Shipments.Actions | client/views/shipment_view.py:80-81 | Prepare is enabled exactly for PENDING, complete exactly for PREPARED, and never both. |
| Shipments.ShipmentView.constructor | client/views/shipment_view.py:43-47 | The screen starts with no remembered shipment and both action buttons enabled. |
| Shipments.ShipmentView.OnSelect | client/views/shipment_view.py:68-81 | An empty selection changes nothing. Otherwise the shipment is remembered and the buttons follow `Actions` of its status. A shipment with no row is an error after it was remembered. |
| Shipments.Decrement | client/views/shipment_view.py:94-102 | The conditional UPDATE hits one row exactly when the item exists and has at least the line quantity. It then lowers that item by exactly that quantity, so stock never goes negative. Every other item is unchanged, and a miss changes nothing. |
| Shipments.Store.DecrementStock | client/views/shipment_view.py:94-102 | The row count and the new item table are those of `Decrement`; the tables stay consistent. |
| Shipments.LinesOf | client/views/shipment_view.py:88-89 | The shipment's lines: every line of that shipment and only those. |
| Shipments.LinesOfAppend | client/views/shipment_view.py:88-89 | The lines of a shipment keep table order. |
| Shipments.Reserve | client/views/shipment_view.py:93-105 | The item table keeps its keys; a shortfall is at one of the lines. |
| Shipments.ReserveShortPrefix | client/views/shipment_view.py:104-105 | After a line falls short, the later lines change nothing. |
| Shipments.ReserveStopsAtFirstShortLine | client/views/shipment_view.py:93-105 | A failed reservation stops at its first failing line. Every line before it was decremented, and their decrements stay. That line's item was missing or had too little stock. No later line ran. |
| Shipments.ReservedTotals | client/views/shipment_view.py:93-102 | A full reservation lowers each item by exactly the total its lines ask and leaves its other columns alone. It needs every line's item to exist. |
| Shipments.SetStatus | client/views/shipment_view.py:108-109 | The status UPDATE changes only that shipment's status and is a no-op when the id has no row. |
| Shipments.Store.UpdateStatus | client/views/shipment_view.py:108-109 | The shipments table becomes `SetStatus` of it; the tables stay consistent. |
| Shipments.Prepare | client/views/shipment_view.py:83-112 | Preparation succeeds exactly when every line of the shipment was reserved; the stock is what the reservation left. On a shortfall the shipments are unchanged. On success only the status becomes PREPARED. The lines are never touched. |
| Shipments.PreparedOnlyIfAllReserved | client/views/shipment_view.py:93-109 | A shipment that ends up PREPARED had every one of its lines reserved, and each item is lower by exactly what those lines ask. |
| Shipments.PrepareIgnoresStatus | client/views/shipment_view.py:83-112 | The outcome does not depend on the shipment's status: no status check guards preparation. |
| Shipments.PrepareTwiceReservesTwice | client/views/shipment_view.py:83-112 | Preparing the same shipment twice reserves its lines twice. |
| Shipments.PreparedEnablesCompletion | client/views/shipment_view.py:80-81 | After a successful preparation the shipment offers completion and no longer offers preparation. |
| Shipments.PrepareReopensCompleted | client/views/shipment_view.py:83-112 | Preparing a COMPLETED shipment whose lines can all be reserved sets it back to PREPARED; its courier and completion time stay. |
| Shipments.ShipmentView.PrepareShipment | client/views/shipment_view.py:83-112 | With no remembered shipment nothing changes. Otherwise the tables become those of `Prepare`, and a shortfall reports the first line's item. The tables stay consistent. |
| Shipments.Complete | client/views/shipment_view.py:179-184 | Completion gives that shipment alone its courier, status COMPLETED and completion time; the warehouse is kept; an unknown id changes nothing. |
| Shipments.Store.CompleteShipment | client/views/shipment_view.py:179-184 | The shipments table becomes `Complete` of it; the tables stay consistent. |
| Shipments.Couriers | client/views/shipment_view.py:157-163 | The courier list holds exactly the couriers attached to an existing warehouse, whatever the shipment's warehouse. |
| Shipments.WarehouseIds | client/views/shipment_view.py:160 | The ids of the warehouse rows and only those. |
| Shipments.ShipmentView.CompleteShipment | client/views/shipment_view.py:114-189 | The chosen id can only be one the courier window lists. No change without a remembered shipment, without a courier to offer, or without a truthy chosen courier id. Otherwise only the shipment's courier, status and completion time change, and the courier is one of the listed couriers of any warehouse, not necessarily the shipment's. The tables stay consistent. |
| Shipments.Store.InsertShipment | client/views/shipment_form.py:151-155 | A new PENDING shipment for the warehouse under the next id; the sequence moves on and the tables stay consistent. |
| Shipments.Store.InsertLine | client/views/shipment_form.py:159-163 | One line, for an existing shipment, appended; the tables stay consistent. |
| ShipmentForms.LabelRoundTrip | client/views/shipment_form.py:138 | Reading a label `"<id> - <name>"` back with `int(label.split(' ')[0])` gives the id, whatever the name. |
| ShipmentForms.Label | client/views/shipment_form.py:28 | The first blank-separated word of an option `"<id> - <name>"` is the id's decimal text, whatever the name. |
| ShipmentForms.ParseLabel | client/views/shipment_form.py:54 | `int(label.split(' ')[0])` fails (raises) when the label has no text before its first blank. |
| ShipmentForms.WarehouseOf | client/views/shipment_form.py:138 | The id read back from the chosen option is the id of a warehouse row whose option it is. |
| ShipmentForms.Labels | client/views/shipment_form.py:28 | One option per warehouse row. |
| ShipmentForms.OptionParsesToItsWarehouse | client/views/shipment_form.py:28 | Every offered option parses to the id of the warehouse it was made from. |
| ShipmentForms.SelectedItems | client/views/shipment_form.py:140-144 | At most one pair per item row. |
| ShipmentForms.NothingSelectedIffNoneChecked | client/views/shipment_form.py:140-148 | No pair is selected exactly when no box is checked, which is when `save` reports that no item was chosen. |
| ShipmentForms.SelectedItemsAppend | client/views/shipment_form.py:140-144 | Selection keeps row order. |
| ShipmentForms.SelectedItemsExactlyChecked | client/views/shipment_form.py:140-144 | A pair `(item_id, qty)` is selected exactly when some checked row carries it. |
| ShipmentForms.InWarehouse | client/views/shipment_form.py:124-126 | The rows kept are exactly those of the warehouse with quantity > 0. |
| ShipmentForms.LexLeTotal | client/views/shipment_form.py:127 | Any two names are ordered one way or the other. |
| ShipmentForms.InsertByName | client/views/shipment_form.py:127 | Inserting keeps the rows and adds the new one: the result is the old rows plus it, as a multiset. |
| ShipmentForms.InsertByNameSorted | client/views/shipment_form.py:127 | Inserting into a list sorted by name keeps it sorted, and the new head is the inserted row or the old head. |
| ShipmentForms.SortByName | client/views/shipment_form.py:127 | The result is a permutation of the input. |
| ShipmentForms.SortByNameSorted | client/views/shipment_form.py:127 | The result is sorted by name. |
| ShipmentForms.OfferedItems | client/views/shipment_form.py:122-130 | The items offered for a warehouse are no more than the rows scanned. |
| ShipmentForms.OfferedItemsSpec | client/views/shipment_form.py:122-130 | The offered items are sorted by name. They are exactly the scanned rows of the chosen warehouse with stock left, each as often as the scan has it. |
| ShipmentForms.OfferedFromTable | client/views/shipment_form.py:122-130 | On a scan of the items table, an id is offered exactly when that item belongs to the warehouse and has quantity > 0. |
| ShipmentForms.ShipmentForm.constructor | client/views/shipment_form.py:18-41 | One option per warehouse row, nothing chosen, no item rows, save disabled. |
| ShipmentForms.Unchecked | client/views/shipment_form.py:88-95 | One row per offered item, in offer order, carrying that item's id, unchecked, with quantity 0. |
| ShipmentForms.ShipmentForm.LoadItems | client/views/shipment_form.py:47-120 | With items on offer there is one unchecked row of quantity 0 per offered item, in offer order, and save is enabled. With none, save is disabled and the previous rows stay. |
| ShipmentForms.ShipmentForm.SelectWarehouse | client/views/shipment_form.py:47-57 | Choosing an option selects that warehouse's id and loads its items. |
| ShipmentForms.ShipmentForm.SetChecked | client/views/shipment_form.py:94-106 | Ticking row k changes only its box; with a ticked box the selection is not empty. |
| ShipmentForms.ShipmentForm.SetQuantity | client/views/shipment_form.py:95-118 | Typing a number into the enabled spinbox of a ticked row changes only its quantity, and that item is then selected with that quantity. |
| ShipmentForms.NewLines | client/views/shipment_form.py:158-163 | One line per selected pair, in selection order, all for the new shipment; line k carries the k-th selected item and its quantity. |
| ShipmentForms.Create | client/views/shipment_form.py:151-163 | After `save`, stock is untouched, the id sequence has moved on by one, and the old lines are followed by exactly one new line per selected pair. |
| ShipmentForms.CreateAddsOneShipment | client/views/shipment_form.py:151-163 | A successful save adds exactly one shipment, PENDING, for the chosen warehouse, under an id no shipment had. Stock and the other shipments are untouched, and the id sequence stays ahead of every shipment and line. |
| ShipmentForms.CreateLinesOf | client/views/shipment_form.py:157-163 | The new shipment's lines are the selected pairs in order, each with its quantity; every other shipment keeps its lines. |
| ShipmentForms.PrepareNewShipment | client/views/shipment_form.py:151-163 | Preparing a freshly created shipment succeeds exactly when the selected pairs can all be reserved from the stock as it was, and then lowers each item by the total selected of it. |
| ShipmentForms.ShipmentForm.Save | client/views/shipment_form.py:132-163 | Without a chosen warehouse it is an error that inserts nothing, and likewise without a checked item. Otherwise the tables become `Create`'s: one PENDING shipment and its lines, inserted in order. Its id is returned. The tables stay consistent. |
| ShipmentForms.ShipmentForm.InsertShipment | client/views/shipment_form.py:150-163 | The shipment row, then its lines in order, leave the tables as `Create` describes and return the new id. |

## Left out

- psycopg2 connections, cursors, `DictCursor` and commits are not modelled as code. Each call is one atomic step on the abstract store.
- Log messages written with `print` and the message boxes are not modelled. They are output only.
- Gateway.Manager.CheckConnection: the latency is a parameter (`elapsedMs`). The wall-clock reading and the rounding to two decimals are not modelled.
- Gateway.Manager.ExecuteScript: takes the script's text. Opening and reading the file is not modelled. A file that cannot be read is not one of its outcomes.
- Replica lag is not modelled. Every read sees the current state of the endpoint it is sent to.
- Database constraints, triggers, `created_at` defaults and SQL evaluation beyond the statements the workflow issues are not modelled. The gateway treats statement meaning as a parameter.
- Tkinter widgets, windows, the status bar timer, configuration loading, the command-line entry points and the data-seeding script are not part of this model.
- User edits other than the item checkboxes and spinboxes (which `SetChecked` and `SetQuantity` model) are inputs, not modelled events: the entry texts, the combobox indices, the confirmation answer and the chosen courier.
- The shipment list screen's own `load_data` (the status filter, the joins, `ORDER BY created_at DESC`) is not modelled. Neither is the reload after prepare and complete. Only the data decisions are modelled.
- Shipments.ShipmentView.CompleteShipment: a failing UPDATE on the master is not modelled. The workflow's tables are a store without connection failures.
- Shipments.ShipmentView.PrepareShipment: the lines are read in table order. PostgreSQL gives no order without `ORDER BY`, so the model fixes one.
- ShipmentForms.SortByName: names compare by code point. The database's collation is not modelled, and ties keep scan order.
- Text.ParseInt: accepts only an optional `-` followed by decimal digits. Python's `int()` also accepts surrounding white space, `+`, `_` separators and non-ASCII digits. Labels never contain them.
- Crud.BaseView.constructor: does not load the tree. Loading is `LoadData`.
- Foreign-key comboboxes: the current index is an input. Tk's `current()` looks the index up by the displayed text, so when two options show the same text it reports the first of them (client/views/base_view.py:104, 128). The model takes the index as given.
- ShipmentForms.ShipmentForm.SetQuantity: takes the whole number that `spin_var.get()` reads. `spin_var` is a `tk.IntVar` (client/views/shipment_form.py:95), whose `get()` truncates decimal text toward zero (`2.5` reads as 2). Text that is not a number at all makes it raise `TclError` in `save` (client/views/shipment_form.py:141), which is not modelled.
- The spinbox range (1 to the stock left) binds only its arrows, not typed text, so `SetQuantity` accepts any whole number.
- `Shipments.Store` keeps the id sequence ahead of every shipment and line as its invariant (`Valid`). `InsertLine` asks for an existing shipment, which stands for the reference from `shipment_items` to `shipments`. The schema itself is not part of this model.
- The per-entity views (items, employees, warehouses, categories) are not part of this model. They only pass configuration to `BaseView`.

## Findings

| source | as written | input that shows it | evidently intended | confidence | as-written member | corrected member |
|---|---|---|---|---|---|---|
| client/views/base_view.py:128 | `combo.values[combo.current()][0]`; an unchosen combobox reports `current() == -1`, and Python's index `-1` is the last option | Add a record whose foreign-key combobox was left empty, with options `[(1, 'a'), (2, 'b')]`: the record is saved with id 2 | Saving without a choice should not invent one; report that the field has no choice | not executed | Crud.FkIdAsWritten (shown by Crud.UnchosenSavesLastOption) | Crud.FkId (used by Crud.FkValues and Crud.SaveRequest; Crud.FkIdAgreesOnChoices) |

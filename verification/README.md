# Auto-repair shop database, in Dafny

A model of the desktop application `autoservice_app.py`, which runs an auto-repair shop.
The model covers the shop's in-memory database: four tables and one id counter per table.

- **Clients**: name, phone, e-mail.
- **Cars**: VIN, brand, model, owner.
- **Parts**: name, price, quantity in stock.
- **Repair orders**: date, client, car, work items, part lines, status, total.

It also covers the draft of the order being put together on the "new order" tab: its part
lines and the total shown beside them.

The domain rules live in the bodies of the dialogs' save handlers and in the delete handlers.
The model has them as methods of the class `Shop.Autoservice`:

- every id is drawn from its table's counter and never handed out twice;
- a client with cars, a car with orders and a part used by an order cannot be deleted;
- a VIN is stored stripped and upper-cased, and no two cars share it, ignoring case;
- a draft line may take no more of a part than its stock minus what the draft already holds,
  and a second line for the same part is merged into the first;
- creating an order takes every line's quantity out of stock, and deleting an order puts it back;
- every refused operation leaves the database exactly as it was.

Files, one module each:

- `text.dfy` (`Text`): the string operations the forms apply to what the user typed. These are
  Python's `strip`, `upper` and `split('\n')`.
- `records.dfy` (`Records`): rows with an integer id; lookup and removal by id; distinct ids
  below the table's counter.
- `stock.dfy` (`Stock`):
  - parts and order lines;
  - the drafted quantity of a part and the merge of a line into the draft;
  - the stock updates of order creation and deletion, and the warehouse check before creation.
- `tables.dfy` (`Tables`):
  - clients, cars and orders; the error cases; the order total;
  - the list of parts offered to the draft;
  - the database invariant `Consistent`, and the lemmas showing that each change keeps it.
- `shop.dfy` (`Shop`): the application object. Its fields are the tables, the counters, the
  draft and the shown total.
  - Each operation that changes the database (AddClient through SaveNewOrderAsWritten) keeps
    the invariant `Valid()` and states its whole new state through the ghost function `State()`.
  - The queries IsPartUsed and AvailableParts change nothing; their results are given by
    `PartUsed` and `Offers`.
  - The helpers NextId, CalculateTotal, SetDraft and Commit state only their own change. They
    do not promise `Valid()`: the operations call them only after the checks that keep it.

Ids picked in the tables and combo boxes of the user interface are plain arguments, and every
confirmation prompt counts as confirmed. Saving the data file after a change is not part of
the model.

## Model

| member | source | states |
|---|---|---|
| Text.TrimEnd | autoservice_app.py:148-156 | the result is a prefix of the input; what it drops is whitespace; it does not end in whitespace |
| Text.Strip | autoservice_app.py:148-156 | the result neither starts nor ends with whitespace; it is empty exactly when the input is all whitespace |
| Text.StripSlice | autoservice_app.py:154-156 | what strip keeps is one contiguous slice of the input, with only whitespace before and after it |
| Text.StripIdempotent | autoservice_app.py:199-205 | stripping a stored, already stripped value again changes nothing |
| Text.Upper | autoservice_app.py:365 | upper-casing keeps the length and maps each character through the per-character upper case |
| Text.UpperIdempotent | autoservice_app.py:380 | an upper-cased VIN is its own upper case, so comparing stored VINs with `.upper()` compares them as stored |
| Text.SplitLines | autoservice_app.py:1112 | splitting on newlines gives at least one piece and no piece holds a newline; the empty text gives one empty piece |
| Text.SplitOneLine | autoservice_app.py:1112 | a text without a newline splits into itself alone |
| Text.JoinSplitLines | autoservice_app.py:1112 | joining the pieces with newlines gives back the text: splitting loses no character |
| Records.IndexOfId | autoservice_app.py:1050 | the lookup finds the first record with the id, or reports that no record has it |
| Records.WithoutId | autoservice_app.py:238 | removal never grows the table and no kept record has the removed id |
| Records.WithoutMembers | autoservice_app.py:238 | the kept records are records of the table, and every record with another id is kept |
| Records.WithoutAbsentId | autoservice_app.py:238 | removing an id that no record has leaves the table unchanged |
| Records.WithoutPresentId | autoservice_app.py:685 | removing an id held by one record removes exactly that record and keeps the others in order |
| Records.WithoutConcat | autoservice_app.py:238 | removal works piecewise: on a concatenation it is the concatenation of the removals |
| Records.WithoutKeepsDistinct | autoservice_app.py:238 | removal keeps the ids distinct |
| Records.WithoutKeepsFresh | autoservice_app.py:238 | removal keeps every id positive, distinct and below the counter, which removal leaves alone |
| Records.AppendKeepsFresh | autoservice_app.py:70-74 | appending a record with the counter's value and advancing the counter keeps the ids fresh |
| Records.ReplaceKeepsFresh | autoservice_app.py:203-205 | an in-place edit that keeps the id keeps the ids fresh |
| Stock.WithQuantity | autoservice_app.py:1174 | a stock update changes the quantity and keeps the part's id, name and price |
| Stock.LineIndex | autoservice_app.py:1065-1067 | the draft scan finds the first line of the part, or reports that there is none |
| Stock.DraftedAbsent | autoservice_app.py:1056 | a part with no draft line has nothing drafted |
| Stock.DraftedOfLine | autoservice_app.py:1056 | with one line per part, the drafted sum of a part is its line's quantity |
| Stock.DraftedNonNegative | autoservice_app.py:1056 | positive lines never draft a negative amount |
| Stock.DraftedAfterGrow | autoservice_app.py:1067-1068 | growing a line adds the growth to its part's drafted sum and to no other part's |
| Stock.DraftedAfterAppend | autoservice_app.py:1070-1075 | appending a line adds its quantity to its part's drafted sum and to no other part's |
| Stock.MergeLine | autoservice_app.py:1065-1075 | the merge loop grows the part's first line if there is one and otherwise appends the line |
| Stock.MergeDrafted | autoservice_app.py:1065-1075 | a merge adds the line's quantity to its part's drafted sum and leaves every other part's sum alone |
| Stock.MergeKeepsLines | autoservice_app.py:1065-1075 | a merge keeps one positive line per part; the draft grows by one line exactly when the part had none |
| Stock.Shift | autoservice_app.py:678-683 | a stock update of one part changes no id, name or price |
| Stock.ShiftAll | autoservice_app.py:677-683 | applying all of an order's lines changes no id, name or price |
| Stock.ApplyLines | autoservice_app.py:1172-1175 | the stock loop yields the stock with every line applied in turn, taken out or put back |
| Stock.ShiftAllAt | autoservice_app.py:677-683 | after the loop, each part's stock has moved by exactly its drafted sum |
| Stock.ReturnAfterTake | autoservice_app.py:677-683 | putting back the lines that were taken out restores every part's stock |
| Stock.Shortfall | autoservice_app.py:1147-1152 | a reported line is a line of the draft that the warehouse does not cover |
| Stock.ShortfallNone | autoservice_app.py:1147-1152 | the check passes exactly when the warehouse covers every line; a failure names the first uncovered line |
| Stock.TakeKeepsStock | autoservice_app.py:1172-1175 | taking out a covered draft with one line per part leaves no stock negative |
| Stock.CoveredAt | autoservice_app.py:1148-1149 | with distinct part ids, a covered line is covered by the one part carrying its id |
| Stock.TakeKeepsPart | autoservice_app.py:1172-1175 | a part whose stock covers each of its lines keeps a non-negative stock after the take |
| Stock.ReturnKeepsStock | autoservice_app.py:677-683 | putting back positive lines leaves no stock negative |
| Stock.Drafted | autoservice_app.py:1056 | the drafted quantity of a part is the sum of the quantities of the draft lines for it (DraftedAbsent, DraftedOfLine and MergeDrafted state its properties) |
| Stock.Available | autoservice_app.py:1056-1057 | the free quantity of a part is its stock minus its drafted quantity (DraftStaysWithinStock relies on it) |
| Stock.Covered | autoservice_app.py:1148-1149 | a line is covered when its part exists and has at least the line's quantity in stock (ShortfallNone and CoveredAt state its use) |
| Tables.PartUsed | autoservice_app.py:869-876 | some line of some order refers to the part (IsPartUsed computes it with the nested loop) |
| Tables.VinTaken | autoservice_app.py:452 | some car other than the excepted one has the VIN, ignoring case; with no exception it is the check at 380 (NewVinKeepsCarsOk and EditedVinKeepsCarsOk state its use) |
| Tables.NonBlank | autoservice_app.py:1139 | the stripped pieces that are not blank, in order (NonBlankPieces and NonBlankEmpty state its properties) |
| Tables.Works | autoservice_app.py:1138-1139 | the work items are the non-blank lines of the text, stripped |
| Tables.LinesCost | autoservice_app.py:1111 | the parts cost is the sum of price times quantity over the lines |
| Tables.Total | autoservice_app.py:1111-1115 | the total is the parts cost plus 1000 per work item (TotalExample gives a worked instance) |
| Tables.Counters.Bump | autoservice_app.py:70-74 | drawing an id advances that table's counter by one and no other counter |
| Tables.CarsOf | autoservice_app.py:225 | the client's cars are exactly the cars whose owner is the client |
| Tables.OrdersOf | autoservice_app.py:478 | the car's orders are exactly the orders placed for the car |
| Tables.NonBlankPieces | autoservice_app.py:1139 | there are no more work items than lines, and each is non-empty with no whitespace at either end |
| Tables.NonBlankEmpty | autoservice_app.py:1142 | there are no work items exactly when every line of the text is blank |
| Tables.OneWork | autoservice_app.py:1138-1139 | the text "oil" is one work item |
| Tables.TotalExample | autoservice_app.py:1109-1116 | one work item plus two parts at 500 rubles gives a total of 2000 |
| Tables.Offers | autoservice_app.py:1013-1024 | the offered parts are exactly those with free stock, each with its free quantity |
| Tables.Initial | autoservice_app.py:36-47 | the initial state is consistent, with empty tables and an empty draft |
| Tables.LinesNotNamed | autoservice_app.py:1090 | removal by name keeps exactly the draft lines with another name |
| Tables.NotNamedKeepsDraftOk | autoservice_app.py:1090 | removal by name keeps one positive line per part |
| Tables.DistinctVins | autoservice_app.py:380 | no two stored VINs are equal ignoring case |
| Tables.NewVinKeepsCarsOk | autoservice_app.py:380-391 | a car whose VIN matches no stored VIN keeps the VINs distinct and upper-cased |
| Tables.EditedVinKeepsCarsOk | autoservice_app.py:452-458 | an edit whose VIN matches no other car's keeps the VINs distinct and upper-cased |
| Tables.WithoutKeepsClientsOk | autoservice_app.py:238 | deleting a client keeps every client named |
| Tables.WithoutKeepsCarsOk | autoservice_app.py:491 | deleting a car keeps the VIN rules |
| Tables.WithoutKeepsPartsOk | autoservice_app.py:889 | deleting a part keeps names, prices and non-negative stock |
| Tables.WithoutKeepsOrdersOk | autoservice_app.py:685 | deleting an order keeps every order's lines positive |
| Tables.ShiftKeepsParts | autoservice_app.py:1172-1175 | either stock loop keeps the part table valid: putting back always, taking out after the warehouse check |
| Tables.DraftKeepsConsistent | autoservice_app.py:1065-1080 | a new valid draft and any shown total keep the database consistent |
| Tables.AddCarKeepsConsistent | autoservice_app.py:380-391 | adding a car with a fresh id and an unused VIN keeps the database consistent |
| Tables.DeleteOrderKeepsConsistent | autoservice_app.py:676-685 | putting back an order's lines and removing the order keeps the database consistent |
| Tables.SaveOrderKeepsConsistent | autoservice_app.py:1155-1185 | taking out a covered draft, appending the order and clearing the draft keeps the database consistent |
| Tables.SaveThenDeleteRestores | autoservice_app.py:676-685 | deleting the order just created restores the stock of every part and the order table |
| Tables.DraftStaysWithinStock | autoservice_app.py:1056-1075 | a line within the free quantity keeps the part's drafted sum within its stock, and keeps every part within stock |
| Shop.Autoservice.constructor | autoservice_app.py:36-47 | a shop without a data file starts consistent, with empty tables and every counter at 1 |
| Shop.Autoservice.NextId | autoservice_app.py:70-74 | hands out the table's counter and advances it by exactly one |
| Shop.Autoservice.AddClient | autoservice_app.py:147-163 | refused, with nothing changed, exactly when the name is blank; otherwise appends the stripped client with a fresh id |
| Shop.Autoservice.EditClient | autoservice_app.py:168-213 | refused, with nothing changed, for an unknown client or a blank name; otherwise replaces only that client's fields |
| Shop.Autoservice.DeleteClient | autoservice_app.py:225-241 | refused, with nothing changed and the car count reported, while the client has cars; otherwise removes only that client |
| Shop.Autoservice.AddCar | autoservice_app.py:316-399 | checks the owner, a blank VIN, brand or model, and a VIN taken ignoring case, in that order; otherwise appends the car with the upper-cased VIN. The owner check is made on save here, where the dialog makes it when it opens (316-336) |
| Shop.Autoservice.EditCar | autoservice_app.py:401-466 | the same checks, with the edited car excluded from the VIN check; otherwise replaces only that car's VIN, brand and model |
| Shop.Autoservice.DeleteCar | autoservice_app.py:478-494 | refused, with nothing changed and the order count reported, while orders are placed for the car; otherwise removes only that car |
| Shop.Autoservice.AddPart | autoservice_app.py:765-791 | checks a blank name, a price of zero or less and a negative quantity, in that order; otherwise appends the part with a fresh id |
| Shop.Autoservice.EditPart | autoservice_app.py:799-857 | refused for an unknown part or a failed check; otherwise replaces only that part's name, price and quantity |
| Shop.Autoservice.IsPartUsed | autoservice_app.py:868-876 | the nested search answers true exactly when some line of some order refers to the part |
| Shop.Autoservice.DeletePart | autoservice_app.py:868-892 | refused, with nothing changed, while an order uses the part; otherwise removes only that part |
| Shop.Autoservice.DeleteOrder | autoservice_app.py:661-689 | an unknown order changes nothing; otherwise puts every line back into stock and removes only that order |
| Shop.Autoservice.ChangeOrderStatus | autoservice_app.py:629-659 | an unknown order changes nothing; otherwise only that order's status changes |
| Shop.Autoservice.CalculateTotal | autoservice_app.py:1109-1116 | the shown total becomes the draft's parts cost plus the flat price per work item |
| Shop.Autoservice.AvailableParts | autoservice_app.py:1013-1024 | the part list offered to the draft is the list of parts with free stock |
| Shop.Autoservice.AddPartToOrder | autoservice_app.py:1032-1080 | checks a quantity of zero or less, an unknown part and more than is free, in that order; otherwise merges the line and shows the new total |
| Shop.Autoservice.RemoveSelectedPart | autoservice_app.py:1082-1094 | drops every draft line with the given name and shows the new total |
| Shop.Autoservice.SetDraft | autoservice_app.py:1089-1094 | replaces the draft and shows its total; nothing else changes |
| Shop.Autoservice.SaveOrder | autoservice_app.py:1140-1185 | refused, with nothing changed, when there is nothing to order or the warehouse lacks a line's part; otherwise stock goes down, the order is appended and the draft is cleared |
| Shop.Autoservice.Commit | autoservice_app.py:1155-1185 | takes the draft out of stock, appends the order "in work" with the draft's lines, and clears the draft and the shown total |
| Shop.Autoservice.SaveNewOrder | autoservice_app.py:1118-1199 | order creation that stores the total of the saved lines and work items |
| Shop.Autoservice.SaveNewOrderAsWritten | autoservice_app.py:1168 | order creation as written: the stored total is the total last shown |
| Shop.StaleTotalExample | autoservice_app.py:1168 | on a fresh form with one work item and no part, the stored total is 0 but the order costs 1000 |

## Left out

- The user interface is not modelled:
  - tkinter windows, tables, combo boxes and message boxes;
  - the warnings shown when nothing is selected;
  - parsing of the "id - name" combo box entries.
- The data file is not modelled. Loading it in `init_data` and writing it in `save_data` are
  I/O. The model starts from the state of a shop without a data file, and saving is a no-op.
- The order date from `datetime.now()` is a parameter of the order-creation methods.
- Prices are whole rubles (`int`); the source reads them as floats.
  - Parsing the numbers typed into the part forms is not modelled, nor the ValueError when
    they are not numbers.
  - The source reads the stored total back from the text shown on the form. With float prices
    that text reads like "1500.0" and `int(...)` rejects it. The order's id has already been
    drawn by then. This failure is not modelled.
- The Save button of the add-client dialog runs the save handler twice. Only one run is modelled.
- Text.Upper: upper-cases ASCII and the basic Cyrillic alphabet only. Other scripts, and
  characters whose upper case is longer than one character, are not covered.
- Shop.Autoservice.AddCar: the owner check is made when the car is saved. The source makes it
  when the dialog opens (autoservice_app.py:316-336), and the dialog does not block the main
  window. A client deleted while the dialog is open still gets the car in the source. The model
  refuses that save with `ClientNotFound`, so a car whose owner is gone is not modelled.
- Drafted quantities are kept within stock only step by step (Tables.DraftStaysWithinStock), not
  as part of the invariant: EditPart, like the source (autoservice_app.py:845-847), may lower a
  part's stock below what the draft already holds. The warehouse check of order creation
  (Stock.Shortfall) then refuses the order.
- Shop.Autoservice.SaveNewOrder: like the source, it does not check that the client and the car
  exist.
- `view_order` and the table refresh functions only display data and are not part of this model.

## Findings

| source | as written | input that shows it | evidently intended | confidence | as-written member | corrected member |
|---|---|---|---|---|---|---|
| autoservice_app.py:1168 | the order's total is parsed from the total shown on the form. That total is recomputed only when a draft line is added or removed (1080, 1094), not when the works text changes | a fresh form, works text "oil", no part lines: the order is saved with total 0 | the total of the saved lines and work items, computed as in `calculate_total` (1109-1116): 1000 here | not executed | Shop.Autoservice.SaveNewOrderAsWritten | Shop.Autoservice.SaveNewOrder |

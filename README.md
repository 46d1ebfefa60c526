# Order lifecycle with inventory bookkeeping

This project models the `orders` app of a Django shop backend. An order is
`pending`, `paid`, `refunded` or `cancelled` and holds line items. Each item
names a product, a quantity and the unit price captured when the row was
written. A product row carries two counters, `stock` and `sold_count`
(`sold` here). They must stay consistent with the orders that hold items:

- Creating an order reserves stock: `stock -= q`, `sold += q`.
- Replacing an order's items through the API gives the old stock back
  first, then reserves the new items.
- Cancelling or refunding an order gives its stock back.
- Reopening an order reserves its stock again, all or nothing.
- Editing items in the admin inline applies signed differences.
- Deleting orders in the admin gives their stock back.

The admin site and the serializer floor `sold` at zero when they give stock
back (`Greatest(sold - q, 0)`); the API views do not.

Files, one Dafny module each:

- `models.dfy` (`Models`): statuses, products, orders, items, totals, errors.
- `ledger.dfy` (`Ledger`): the row updates that reserve and release stock,
  the folds over an order's items, and the two-pass reservation (check
  every item, then commit). It also proves their effect per product: conservation,
  round trips, no oversell.
- `text.dfy` (`Text`): Python's string order and the sorted list of a set of
  strings, for `sorted(...)` of the transition table.
- `store.dfy` (`Store`): the class `Database` with the product and order
  tables and the key counters. Its methods are the per-order loops the
  admin site and the views share.
- `serializers.dfy` (`Serializers`): the transition table, quantity
  validation, and order creation and update.
- `admin.dfy` (`Admin`): the bulk actions, the item inline's permission and
  formset save, and deletion of orders.
- `views.dfy` (`Views`): the object lookup and permissions, and the
  `pay` / `cancel` / `refund` / `reopen` endpoints.

The row updates and the per-order loops are methods of `Database`. The
serializer, admin and view operations are module-level methods that take the
`Database` they work on. Each method is proved equal to a specification
function over plain values, or, for the simple row updates, gives its new
state as an explicit map expression; the lemmas state the properties of
those functions. Money is in integer cents. A transaction is
modelled as a snapshot restored on failure.

Where the code is inconsistent with itself, the model follows the code as
written:

- The views define `reopen` twice. Python keeps the second definition,
  which accepts both `cancelled` and `refunded`.
- The views' `cancel` guard lists a `draft` status that no order can have.
- The views' own transition table is never read.
- The serializer's `update` checks no status.
- The inline's formset save applies its stock differences without any
  stock check.
- A deleted inline row gives back the quantity its form carries, which
  is the edited value when the row was also edited; stock plus held units
  then changes (`Admin.EditedThenDeletedInflates`).
- Deleting orders in the admin gives their stock back whatever their
  status, so a cancelled or refunded order is restocked a second time
  (`Admin.CancelThenDeleteRestocksTwice`).

## Model

| member | source | states |
|---|---|---|
| Models.StatusName | orders/models.py:5-19 | every status is stored as one of the four declared choice strings |
| Models.StatusNameInjective | orders/models.py:5-16 | two statuses share a stored string only if they are the same status |
| Models.NewOrder | orders/models.py:18-21 | a new order row is pending, has no items and a total of zero, and keeps its owner and note |
| Models.Subtotal | orders/models.py:44-46 | a line's amount is zero for no units and not negative at a non-negative unit price |
| Models.Total | orders/serializers.py:59-63 | the sum of the line amounts, not negative when no captured unit price is |
| Ledger.Reserve | orders/admin.py:29-33 | selling q units keeps the product's name, price and `stock + sold`, and an unclamped release of q units restores the row |
| Ledger.Release | orders/admin.py:14-18 | giving q units back keeps name and price; unclamped it keeps `stock + sold`, clamped `sold` is never left negative |
| Ledger.ReserveAt | orders/serializers.py:72-75 | the reserving update filtered on one product key changes only that row, and no row for a missing key |
| Ledger.ReleaseAt | orders/views.py:47-51 | the releasing update filtered on one key changes only that row, none for a missing key; clamped, that row's `sold` is not negative |
| Ledger.DiffAt | orders/admin.py:37-49 | a signed adjustment is a no-op at 0, a reservation when positive, a clamped release when negative; no product row appears or disappears |
| Ledger.DiffAtEffect | orders/admin.py:37-49 | the three cases of a signed adjustment on the counters of its product, and that no other product changes |
| Ledger.DiffIsReleaseThenReserve | orders/admin.py:155-162 | while the clamp does not bite, applying `after - before` equals releasing `before` and reserving `after` |
| Ledger.ReserveItems | orders/views.py:41-44 | the commit pass adds or removes no product row, keeps names and prices, and keeps each product's `stock + sold` |
| Ledger.ReleaseItems | orders/admin.py:12-18 | the release pass adds or removes no product row and keeps names and prices; unclamped it keeps `stock + sold`, clamped no `sold` that was not negative becomes negative |
| Ledger.ReserveItemsAppend | orders/admin.py:29-33 | reserving two item lists one after the other equals reserving their concatenation |
| Ledger.CheckStock | orders/admin.py:24-27 | a reported shortage asks for more units than its product has |
| Ledger.ReserveItemsEffect | orders/admin.py:29-33 | reserving an order's items lowers each product's stock and raises its sold count by the units the items hold of it |
| Ledger.ReleaseItemsEffect | orders/admin.py:12-18 | releasing raises stock by the units held; `sold` drops by them, floored at 0 with the clamp, and products not named keep their `sold` |
| Ledger.ReleaseItemsAppend | orders/admin.py:174-178 | releasing two item lists one after the other equals releasing their concatenation |
| Ledger.QtyOfAppend | orders/admin.py:14-18 | the units of a product in two item lists add up |
| Ledger.QtyOfDistinct | orders/models.py:39-42 | with one item per product, the units an order holds of an item's product are that item's quantity |
| Ledger.ClampedReleaseSoldNonNegative | orders/admin.py:14-18 | a clamped release never leaves a product it names, or one that started non-negative, with negative `sold` |
| Ledger.ReleaseUndoesReserve | orders/admin.py:12-34 | releasing the items just reserved (clamped) restores every product, when no `sold` was negative |
| Ledger.UnclampedReleaseUndoesReserve | orders/views.py:36-51 | without the clamp, releasing the items just reserved restores every product exactly |
| Ledger.StockPlusSoldKept | orders/views.py:41-51 | reserving and unclamped releasing keep `stock + sold` of every product |
| Ledger.CheckStockNone | orders/admin.py:24-27 | the check pass succeeds exactly when no item asks for more than its product's stock |
| Ledger.CheckStockFirst | orders/admin.py:24-27 | a failing check reports the first short item: the product's name, its stock and the quantity asked for |
| Ledger.ReserveNoOversell | orders/admin.py:21-34 | a reservation that passed its check leaves none of the order's products with negative stock |
| Text.LessIrreflexive | orders/serializers.py:42 | no string sorts before itself |
| Text.LessTransitive | orders/serializers.py:42 | the string order is transitive |
| Text.LessTotal | orders/serializers.py:42 | any two different strings are ordered one way or the other |
| Text.LeastExists | orders/serializers.py:42 | a non-empty set of strings has a least element |
| Text.SortedList | orders/serializers.py:42 | the sorted list of a set has its elements, each once, in strictly ascending order |
| Store.Database.Valid | orders/models.py:30-42 | in valid tables every item of every stored order names an existing product |
| Store.Database.constructor | orders/models.py:5-46 | an empty order table over a given product table is valid |
| Store.Database.ReserveAtRow | orders/admin.py:30-33 | one reserving row update, and none for a missing product key |
| Store.Database.ReleaseAtRow | orders/admin.py:15-18 | one releasing row update (optionally floored), and none for a missing product key |
| Store.Database.ReserveOrder | orders/admin.py:21-34 | the check loop stops at the first short item and reports it, changing nothing; otherwise the commit loop reserves every item |
| Store.Database.ReleaseOrder | orders/admin.py:12-18 | the release loop releases every item of the order and keeps the tables valid |
| Store.Database.SetStatus | orders/admin.py:56-57 | saving only the status column changes nothing but that order's status |
| Store.Database.SetNote | orders/serializers.py:110-112 | saving the note changes nothing but that order's note |
| Store.Database.RemoveOrders | orders/admin.py:171 | deleting orders removes exactly their rows, items included |
| Store.Database.DeleteProduct | orders/models.py:32 | a product any order's item names is protected and stays; otherwise exactly its row goes; a missing key is reported |
| Serializers.AllowedTransitions | orders/serializers.py:9-42 | the reported list is strictly sorted and holds exactly the table's targets for the status, none for an unknown one |
| Serializers.AllowedTransitionsFromPending | orders/serializers.py:9-42 | a pending order reports `["cancelled", "paid"]` |
| Serializers.AllowedTransitionsFromOthers | orders/serializers.py:11-42 | paid reports `["refunded"]`; refunded and cancelled report `["pending"]` |
| Serializers.AllowedTransitionsUnknown | orders/serializers.py:41-42 | a status string outside the choices reports the empty list |
| Serializers.Qty | orders/serializers.py:53-57 | a missing quantity means 1; a quantity that is not positive is refused with its value; otherwise it is kept |
| Serializers.ReserveInput | orders/serializers.py:91-94 | one requested item is reserved exactly when its product exists, its quantity is valid and in stock; it is then one reserving row update that leaves that stock non-negative; an unknown product is reported as such |
| Serializers.ReserveInputs | orders/serializers.py:91-94 | a successful reserving loop yields one validated line per requested item, in order, for existing products |
| Serializers.AddRows | orders/serializers.py:96-101 | the row loop appends one row per line after the existing rows, and can only fail on a repeated product |
| Serializers.CreateItems | orders/serializers.py:85-101 | creation writes one row per requested item and adds or removes no product row; a refusal is an unknown product, a bad quantity, a shortage or a repeated product |
| Serializers.UpdateItems | orders/serializers.py:114-128 | replacement succeeds exactly when the new items name distinct products and each names a known product with a valid quantity that the stock, after the old items were given back, covers; a success has one row per requested item and keeps the product keys |
| Serializers.AddRowsOk | orders/serializers.py:96-101 | the row loop writes one row per line in order, with consecutive fresh keys and the product's price, one row per product |
| Serializers.AddRowsSucceeds | orders/serializers.py:96-101 | the row loop succeeds when the lines name distinct products not already in the order |
| Serializers.ReserveInputsIsReserveItems | orders/serializers.py:66-94 | the catalog after the reserving loop is the ledger's commit pass over the written rows |
| Serializers.ReserveInputsKeepsNonNegative | orders/serializers.py:66-75 | the reserving loop never takes a product with non-negative stock below zero |
| Serializers.ReserveInputsNoOversell | orders/serializers.py:66-75 | after a successful reserving loop no requested product has negative stock |
| Serializers.CreateItemsOk | orders/serializers.py:85-104 | a successful creation writes one row per requested item, with its validated quantity, fresh keys and the price, one per product; stock reflects exactly those rows and is not negative |
| Serializers.ReserveInputsSucceeds | orders/serializers.py:91-94 | the reserving loop succeeds when the items name distinct existing products, with valid quantities, in stock |
| Serializers.CreateItemsOkIff | orders/serializers.py:85-104 | creation succeeds exactly when every item names an existing product with a valid quantity in stock and no product is repeated |
| Serializers.UpdateItemsNet | orders/serializers.py:114-128 | a successful item replacement moves each product's stock by the old units it held minus the new ones |
| Serializers.ReserveStock | orders/serializers.py:65-75 | a product short of `q` is reported with its name and stock and nothing changes; otherwise `q` units are reserved |
| Serializers.ReleaseStock | orders/serializers.py:77-82 | `q` units go back, `sold` floored at zero |
| Serializers.ReleaseEach | orders/serializers.py:115-116 | the release loop gives back every old item, clamped |
| Serializers.RecalcTotal | orders/serializers.py:59-63 | the stored total becomes the sum of the item subtotals; nothing else changes |
| Serializers.ReserveEach | orders/serializers.py:91-94 | the reserving loop reports the first unknown product, invalid quantity or shortage, or reserves every item |
| Serializers.BuildRows | orders/serializers.py:96-101 | the row loop writes the rows of the lines, stopping at a repeated product |
| Serializers.ReserveAndBuildRows | orders/serializers.py:91-101 | both loops together succeed or fail exactly as creation from the current stock |
| Serializers.NewRowsValid | orders/models.py:30-42 | the rows a creation writes satisfy the schema: existing products, one per product, fresh distinct keys, and the stored total |
| Serializers.Create | orders/serializers.py:85-104 | a new pending order owned by the requester with the created rows and their total, or on any failure no change to products or orders |
| Serializers.Noted | orders/serializers.py:110-111 | only the note is set, and only when given |
| Serializers.UpdateFields | orders/serializers.py:106-131 | an update without items sets the note if given, keeps items and total consistent, and touches no stock |
| Serializers.ReplaceItems | orders/serializers.py:114-130 | release every old item, drop the rows, create the new ones; on failure nothing changes |
| Serializers.UpdateWithItems | orders/serializers.py:106-131 | the note and the replaced items together, or nothing on failure |
| Serializers.Update | orders/serializers.py:106-131 | the update in both shapes: no status check, stock moves only when items are given, failure changes nothing |
| Admin.Selected | orders/admin.py:53-76 | the filtered queryset keeps exactly the selected orders in the filtered status, each once when the selection lists each once |
| Admin.MoveOne | orders/admin.py:60-67 | one order of a bulk action: others are untouched, its items stay, an order not in the source status is left as it was, and a non-releasing action moves no stock |
| Admin.Move | orders/admin.py:53-76 | a bulk action adds or removes no order row and no product row |
| Admin.MoveUntouched | orders/admin.py:53-76 | a bulk action leaves orders outside the selection as they were |
| Admin.MoveSelected | orders/admin.py:53-76 | a selected order moves to the target status exactly when it was in the source status; nothing else about it changes |
| Admin.MoveKeepsStock | orders/admin.py:53-57 | marking paid changes no product |
| Admin.MoveStock | orders/admin.py:60-76 | cancel and refund release exactly the items of the selected orders in the source status, in selection order |
| Admin.MoveReleaseEffect | orders/admin.py:60-76 | each product gets back the units the moved orders held; `sold` does not go negative on products they name |
| Admin.MoveOrders | orders/admin.py:53-76 | the loop of the status actions computes the bulk action and keeps the tables valid |
| Admin.MarkPaid | orders/admin.py:53-57 | pending selected orders become paid; no stock moves |
| Admin.Cancel | orders/admin.py:60-67 | pending selected orders give their stock back and become cancelled |
| Admin.Refund | orders/admin.py:70-76 | paid selected orders give their stock back and become refunded |
| Admin.ReopenOne | orders/admin.py:82-90 | a cancelled or refunded order is reserved and made pending, or reported short and left as it was; no row appears or disappears |
| Admin.Reopening | orders/admin.py:79-90 | the reopen action over the selection in order, with the skipped orders |
| Admin.ReopenedIds | orders/admin.py:79-90 | the orders the reopen action reopened are among the selected ones |
| Admin.ReopenStock | orders/admin.py:79-90 | the reopen action's catalog is the commit pass over the items of the orders it reopened, in order |
| Admin.ReopenedIdsExactly | orders/admin.py:79-90 | with each order selected once, the reopened orders are exactly the selected cancelled or refunded ones not reported as skipped |
| Admin.ReopenUntouched | orders/admin.py:79-90 | an unselected order is unchanged and never reported as skipped |
| Admin.ReopenSelected | orders/admin.py:79-90 | a selected order is unchanged or, if cancelled or refunded, pending; it is reported exactly when it was reopenable and stayed unchanged |
| Admin.ReopenOneNoOversell | orders/admin.py:83-88 | reopening one order keeps every stock non-negative |
| Admin.ReopenNoOversell | orders/admin.py:79-90 | the whole reopen action never takes a stock below zero |
| Admin.ReopenOrder | orders/admin.py:82-90 | one reopen step on the database equals its specification |
| Admin.Reopen | orders/admin.py:79-90 | the reopen loop equals the reopen action and reports the skipped orders |
| Admin.DeleteModel | orders/admin.py:167-171 | deleting one order first gives all its stock back, clamped |
| Admin.DeleteQueryset | orders/admin.py:173-178 | deleting the selection gives back every selected order's items, then removes exactly those orders |
| Admin.DeleteRestocks | orders/admin.py:173-178 | deletion raises each product's stock by the units the deleted orders held and keeps `sold` non-negative |
| Admin.CancelThenDeleteRestocksTwice | orders/admin.py:62-67 | an order cancelled in the admin (stock 10 to 12) gives its 2 units back again when deleted (stock 14), because deletion checks no status |
| Admin.ItemEditAllowed | orders/admin.py:101-108 | the inline never allows more than the framework's permission, and on a new order allows exactly that |
| Admin.ItemEditOnlyPending | orders/admin.py:101-108 | on an existing order, items can be added, changed or deleted exactly when the base permission holds and the order is pending |
| Admin.IndexOf | orders/admin.py:145 | the lookup by key finds a row with that key, or there is none |
| Admin.DeleteForm | orders/admin.py:137-139 | a deleted form adds no row, and with distinct keys leaves no row with the deleted key; no product row appears or disappears |
| Admin.DeleteForms | orders/admin.py:137-139 | the delete pass keeps only rows that were there, and adds or removes no product row |
| Admin.SaveForm | orders/admin.py:142-159 | a saved form adds one row when new and none when edited; a refusal is a repeated product or a missing row |
| Admin.SaveForms | orders/admin.py:141-159 | the save pass adds or removes no product row, only grows the key counter, and fails only on a repeated product or a missing row |
| Admin.Formset | orders/admin.py:137-159 | deletions then saves: no product row appears or disappears, the key counter only grows, a refusal is a repeated product or a missing row |
| Admin.FormsetValid | orders/admin.py:136-160 | after a successful save the order still has existing products, one row per product and distinct allocated keys |
| Admin.DeleteFormKeeps | orders/admin.py:136-138 | a deleted row gives back exactly the units it held |
| Admin.SaveFormKeeps | orders/admin.py:140-160 | a new or edited row moves exactly its units between stock and the order |
| Admin.FormsetKeepsUnits | orders/admin.py:132-165 | when every deleted instance carries exactly its stored row's values, each listed once, stock plus the units the order holds is the same for every product before and after the save |
| Admin.SaveFormMayOversell | orders/admin.py:152-153 | a new row is saved with no stock check and lowers stock by its full quantity, possibly below zero |
| Admin.EditedThenDeletedInflates | orders/admin.py:137-139 | a row stored with 2 units, edited to 5 and ticked for deletion gives back 5 units, raising stock plus held units from 12 to 15 |
| Admin.ApplyStockDiff | orders/admin.py:37-49 | the signed adjustment as one row update |
| Admin.DeleteRows | orders/admin.py:136-138 | the delete pass equals the specification of deleted forms |
| Admin.SaveRow | orders/admin.py:140-160 | one form: a new row with the next key and a reservation; an edit found by key with a release of the old product and a reservation of the new one, or the quantity difference; a duplicate product or missing row is refused and changes nothing |
| Admin.SaveRows | orders/admin.py:139-160 | the save pass stops at the first refused write |
| Admin.SaveFormset | orders/admin.py:132-165 | deletes, saves and the recomputed total as one transaction: on success the specification's rows and stock, on failure no change to products or orders |
| Views.HasObjectPermission | orders/views.py:20-22 | staff always pass; anyone else passes exactly on an order they own |
| Views.Queryset | orders/views.py:31-33 | staff see every order, anyone else only their own, and the object permission holds on every order in it |
| Views.GetObject | orders/views.py:20-33 | a found order is the stored one and the user has the object permission on it; any refusal is "not found" |
| Views.GetObjectOk | orders/views.py:20-33 | the lookup succeeds exactly for an existing order the user is staff for or owns; an order of someone else is not found, so the object permission never refuses |
| Views.ViewAccepts | orders/views.py:54-110 | no guard accepts an order already in the action's target status, and cancel accepts exactly pending orders since "draft" never occurs |
| Views.ViewGuardsAgree | orders/views.py:54-110 | each action's status guard accepts exactly the moves the serializer's transition table lists |
| Views.Act | orders/views.py:54-110 | a refused action changes nothing; an accepted one writes the order with its target status and adds or removes no product row |
| Views.ActEffect | orders/views.py:54-110 | an action succeeds exactly when the user may address the order, its status is accepted and, for reopen, the user is staff and nothing is short; it then sets the target status and moves each product's units between `stock` and `sold` by the order's units, with no floor on `sold`; a refusal changes nothing |
| Views.ReopenNoOversell | orders/views.py:94-110 | a reopen through the API never takes a product of the order below zero stock |
| Views.ReopenThenCancelRestores | orders/views.py:62-110 | reopening and then cancelling an order through the API restores every product exactly |
| Views.PayOrder | orders/views.py:54-60 | the pay endpoint equals its specification: pending to paid, no stock change |
| Views.CancelOrder | orders/views.py:62-70 | the cancel endpoint equals its specification: unclamped release, then cancelled |
| Views.RefundOrder | orders/views.py:72-80 | the refund endpoint equals its specification: paid to refunded with unclamped release |
| Views.ReopenOrder | orders/views.py:94-110 | the reopen endpoint equals its specification: staff only, cancelled or refunded, all-or-nothing reservation |

## Left out

- Row locking (`select_for_update`) and concurrency: each method is one
  sequential step over the tables.
- HTTP responses, status codes and message texts. A refusal is an `Error`
  value, and a shortage keeps the product name, stock and quantity that the
  message quotes.
- `message_user` in the admin reopen action. It becomes the returned list
  of skipped orders.
- `items_summary`, the admin list columns, searching, ordering and
  filtering of the list views.
- Serialization of responses and parsing of the request with `int()`. A
  quantity arrives as an optional integer.
- `_prod` also accepts a product instance. Here a product is always given
  by key.
- The first `reopen` in `orders/views.py`, which the second definition
  replaces.
- The views' `ALLOWED_TRANSITIONS`, which nothing reads.
- Anonymous requests: every user is authenticated.
- The key counters are not rolled back with a failed transaction, which
  matches a database sequence.
- `products`, `users` and `common` are not part of this model. Their
  `Product` model is reduced to the fields the orders code reads and writes.
- Admin.SaveFormset: the edited rows are written in one final update of the
  order row rather than row by row.
- Admin.SaveFormset: which rows the framework reports as deleted, and the
  field values those instances carry, are inputs of the model.
- Admin.SaveFormset: `orders/admin.py:137` reads `formset.deleted_objects`
  before `formset.save(commit=False)` at line 141. Django only sets that
  attribute inside `save()`, so the code as written would fail at line 137.
  The model follows the evident intent and takes the deleted rows as given.
  This rests on Django's documented formset behaviour, which is not part of
  this model.
- Admin.SaveFormset: a saved form is assumed to name an existing product,
  which the form's choice field ensures.
- Text.SortedList: a ghost function. The sorted transition list is
  specified rather than computed.

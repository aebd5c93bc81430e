# Billiard POS: table sessions, billing and list rules in Dafny

This project models the core of a billiard-hall point-of-sale web app and
proves properties of that model. The modelled behaviour is:

- **The table session.** The cashier selects a table. The cart is filled
  from the table's pending order. Products are added, removed and
  re-counted, and every change is saved back to the order. A session
  starts by turning an available table into an occupied one with a new
  pending order. Checkout completes the order, awards loyalty points to
  the linked customer and frees the table.
- **The bill.** The cart panel computes the table fee in one of two
  modes: hourly, with at least one whole hour charged, or fixed blocks of
  minutes, with at least one block charged. It adds the product total to
  give the grand total, and the payment dialog computes the change due.
  The order settings dialog splits and recombines the hour/minute
  override, applies coupons and clamps its preview total at 0. The POS
  page edits the session notes.
- **The services.** Order and table records are mapped to the remote
  tables' snake_case rows and back. A partial update sends only the
  defined fields, and every store error is passed back instead of a
  value.
- **The settings store.** It holds the billing defaults, the shop
  details, the receipt header layout and the print style, with its
  setters and merges.
- **The lists.** These are the order filter and the daily statistics,
  the table grid joined with order start times and its running timer,
  the product, customer and table searches, and the save and delete
  buttons of the management pages.
- **Access.** These are the role-based menus of the sidebar and the
  header, the route guard with its admin-only pages, and the page title
  for a path.

The session store and the settings store update their state step by step,
so each is a class. Their methods state the new state as a function of the
old one. The three keyed local tables (billiard tables, orders and
customers) are maps inside the session store. Every awaited step runs to
completion before the next. The remote order and table services are
classes over a map of rows.

The list pages, the fee rule, the dialogs' arithmetic and the menus are
plain expressions in the app, so here they are functions. The lemmas about
them carry the properties.

Some JavaScript semantics are modelled explicitly:

- Truthiness of an optional number is `Truthy` (defined and non-zero).
- `x || null` is `OrNull`.
- `Math.ceil`/`Math.floor` on a quotient are `CeilDiv`/`FloorDiv`.
- `%` truncates toward zero; this is `JsRem`, used by the table timer.
- `parseInt` reads leading digits after white space.
- `toLowerCase`/`toUpperCase` change ASCII letters only (see "Left out").

Money in the cart (price, quantity, line total, `total()`) is an `int`.
The table fee, grand total, discounts, order totals and the checkout
amount are `real`, because a block's price `pricePerHour * (block / 60)`
is fractional in general.

The table fee follows the code. The rate is the active table's own
`pricePerHour` (0 when unset). There is no grace period: the setting
exists, but the fee never reads it. There is no rounding of the fee, and
there is no cancel path.

## Model

| member | source | states |
|---|---|---|
| CartStore.AddedToCart | src/stores/cartStore.ts:37-50 | a product already in the cart raises only its own lines' quantity by 1 (same length, order and other lines); a new product is appended with quantity 1 |
| CartStore.AddedToCartTotal | src/stores/cartStore.ts:37-50 | adding keeps ids distinct; a product already in the cart raises `total()` by the price stored on its existing line, a new product by its own price |
| CartStore.RemovedFromCart | src/stores/cartStore.ts:55-60 | every line with that id is dropped, all others kept in their relative order, and the total falls by exactly the dropped lines' total |
| CartStore.WithQuantity | src/stores/cartStore.ts:62-69 | same length; matching lines get the new quantity (even ≤ 0, never removed), other lines are unchanged |
| CartStore.TotalAppend | src/stores/cartStore.ts:76-78 | `total()` of a concatenation is the sum of the totals |
| CartStore.TotalFilterSplit | src/stores/cartStore.ts:76-78 | the total splits exactly between the kept and the dropped lines of any filter |
| CartStore.ToOrderLines | src/stores/cartStore.ts:124-129 | one order line per cart line with its product id, quantity, price and name |
| CartStore.ToCartItems | src/stores/cartStore.ts:92-101 | one cart line per order line with id, name, price and quantity kept and blank barcode, cost, stock and category |
| CartStore.CartOrderRoundTrip | src/stores/cartStore.ts:92-101 | saving the cart and loading it back gives the same lines (id, name, price, quantity) and the same total |
| CartStore.OrderCartRoundTrip | src/stores/cartStore.ts:92-101 | loading a saved order into the cart and saving it again gives the same order lines |
| CartStore.TotalSameLines | src/stores/cartStore.ts:76-78 | carts with the same lines have the same total |
| CartStore.LinkedOrderId | src/stores/cartStore.ts:115-119 | the order a save or checkout writes: defined exactly when the active table exists and links (truthily) to an order |
| CartStore.PendingOrderOf | src/stores/cartStore.ts:85-90 | the order selecting a table loads: defined exactly when the table exists and links to a stored pending order |
| CartStore.StartableTable | src/stores/cartStore.ts:135-139 | a session can start exactly when the active table exists and is not occupied |
| CartStore.Saved | src/stores/cartStore.ts:121-131 | a save keeps the order's date, status, table and id, and writes the cart total, the cart lines and the customer (`|| undefined`) |
| CartStore.NewOrder | src/stores/cartStore.ts:141-153 | the new order is pending, dated now, on the active table, holding the cart's lines, total and customer, with no method, discount or override |
| CartStore.CompletedOrder | src/stores/cartStore.ts:172-183 | checkout marks the order completed with total = amount, cash payment, the cart's lines and customer; date, table and id are kept |
| CartStore.PointsEarned | src/stores/cartStore.ts:187 | the points are `floor(amount / 1000)` |
| CartStore.AwardPoints | src/stores/cartStore.ts:186-194 | only the linked existing customer gains `floor(amount/1000)` points; with no linked customer no record changes; the keys never change |
| CartStore.AwardPointsMonotone | src/stores/cartStore.ts:186-194 | for a non-negative amount no customer loses points |
| CartStore.StartKeepsLink | src/stores/cartStore.ts:155-159 | starting a session keeps the link invariant (a table holds a pending order through `currentOrderId`, no two tables share one) |
| CartStore.CheckoutKeepsLink | src/stores/cartStore.ts:171-200 | completing the order and freeing its table keeps the link invariant |
| CartStore.SelectedOccupiedIffPending | src/stores/cartStore.ts:85-108 | under the link invariant, a selected table holds a pending order exactly when it is occupied |
| CartStore.Store.constructor | src/stores/cartStore.ts:26-30 | the initial session is empty: no items, no table, not occupied, no customer |
| CartStore.Store.SaveCurrentOrder | src/stores/cartStore.ts:114-132 | without an active linked table nothing changes; otherwise only that order is rewritten as `Saved`, and the link invariant is kept |
| CartStore.Store.SetCustomer | src/stores/cartStore.ts:32-35 | sets the customer, then saves the order as `saveCurrentOrder` does |
| CartStore.Store.SetNotes | src/features/pos/POSPage.tsx:22 | replaces the notes and nothing else |
| CartStore.Store.AddToCart | src/stores/cartStore.ts:37-53 | the cart becomes `AddedToCart` of the old cart, then the order is saved; the session fields and the other tables are unchanged |
| CartStore.Store.RemoveFromCart | src/stores/cartStore.ts:55-60 | the cart becomes `RemovedFromCart`, then the order is saved |
| CartStore.Store.UpdateQuantity | src/stores/cartStore.ts:62-69 | the cart becomes `WithQuantity`, then the order is saved |
| CartStore.Store.ClearCart | src/stores/cartStore.ts:71-74 | the cart is empty and totals 0, then the order is saved |
| CartStore.Store.SetActiveTable | src/stores/cartStore.ts:80-112 | null gives an empty, unoccupied cart with no customer; a table linked to a pending order loads its lines and customer and is occupied; otherwise the cart is empty and occupancy is the table's status; the stored tables are unchanged |
| CartStore.Store.StartSession | src/stores/cartStore.ts:134-162 | no-op without an active table, for a missing table or an occupied one; otherwise exactly one new pending order under a fresh id, and the table occupied and linked to it; link invariant kept |
| CartStore.Store.OpenOrder | src/stores/cartStore.ts:141-161 | the writes of a start: the order under the next id, the table occupied with that id, the occupied flag set |
| CartStore.Store.Checkout | src/stores/cartStore.ts:164-204 | without a linked active table nothing changes; otherwise the order is completed for `amount` in cash, points are awarded, the table is available with no order, items/table/customer are cleared and `isTableOccupied` is left as it was |
| CartStore.Store.CompleteOrder | src/stores/cartStore.ts:172-183 | only the linked order changes, to `CompletedOrder`; a missing order is left absent |
| CartStore.Store.AwardCustomerPoints | src/stores/cartStore.ts:185-194 | the customer table becomes `AwardPoints` of the old one; nothing else changes |
| CartStore.Store.ReleaseTable | src/stores/cartStore.ts:196-203 | the table becomes available with no order; the cart, the active table and the customer are cleared |
| CartStore.ReselectRestoresCart | src/stores/cartStore.ts:80-131 | saving and then re-selecting the active table restores the same cart lines and customer, occupied |
| CartView.SessionStart | src/features/pos/Cart.tsx:16-22 | the start date is the date of the order the active table links to, whatever its status, and absent otherwise |
| CartView.SessionMinutes | src/features/pos/Cart.tsx:25-42 | 0 with no linked order date; for any order date the whole minutes since it: `floor((now - date) / 60000)` |
| CartView.RateOf | src/features/pos/Cart.tsx:59 | the active table's `pricePerHour`, or 0 when it is missing, unset or 0 |
| CartView.BlocksUsed | src/features/pos/Cart.tsx:66 | `max(1, ceil(elapsed / block))`: at least one block, and the blocks cover the elapsed time |
| CartView.BlocksUsedLeast | src/features/pos/Cart.tsx:66 | no smaller positive number of blocks covers the elapsed time |
| CartView.BlocksUsedMonotone | src/features/pos/Cart.tsx:66 | more elapsed minutes never give fewer blocks |
| CartView.BlockChargeMonotone | src/features/pos/Cart.tsx:67-68 | at non-negative rates more blocks never cost less |
| CartView.TableFee | src/features/pos/Cart.tsx:59-77 | the fee is 0 when the table is not occupied |
| CartView.FeeNonNegative | src/features/pos/Cart.tsx:59-77 | at a non-negative rate the fee is never negative |
| CartView.MinimumCharge | src/features/pos/Cart.tsx:63-76 | an occupied table pays at least one hour (hourly mode) or one block (block mode), and exactly that for a session no longer than it |
| CartView.FeeMonotone | src/features/pos/Cart.tsx:63-77 | in both modes the fee is non-decreasing in the elapsed minutes |
| CartView.BlockFeeMonotone | src/features/pos/Cart.tsx:64-69 | block mode: the fee is non-decreasing in the elapsed minutes |
| CartView.HourlyFeeMonotone | src/features/pos/Cart.tsx:70-76 | hourly mode: the fee is non-decreasing in the elapsed minutes |
| CartView.HourBlocksMatchHourly | src/features/pos/Cart.tsx:64-76 | block mode with 60-minute blocks charges exactly what hourly mode charges |
| CartView.BlockFeeBounds | src/features/pos/Cart.tsx:66-68 | for a session of at least a minute, the block fee lies between the pro-rata charge and that charge plus one block |
| CartView.FiveMinuteBlocksExample | src/features/settings/SettingsPage.tsx:255-257 | at 60000/h in 5-minute blocks, 0–5 minutes cost 5000 and 6–10 minutes cost 10000 |
| CartView.GrandTotal | src/features/pos/Cart.tsx:79-80 | the grand total is the store total plus the table fee, so never below the products for a non-negative fee |
| CartView.TotalUpdateAt | src/stores/cartStore.ts:76-78 | changing one line moves the total by that line's difference |
| CartView.OnlyLineChanges | src/stores/cartStore.ts:62-69 | with distinct ids, setting a line's quantity changes that line only |
| CartView.MinusDecrements | src/features/pos/Cart.tsx:128 | minus on a line with quantity > 1 lowers the total by one unit price |
| CartView.MinusRemoves | src/features/pos/Cart.tsx:129 | minus on a line with quantity 1 removes it and lowers the total by its price |
| CartView.MinusLowersTotal | src/features/pos/Cart.tsx:127-130 | the minus button always lowers the total by exactly one unit price |
| CartView.PlusIsAddAgain | src/features/pos/Cart.tsx:139 | the plus button has the same effect as adding the product again |
| CartView.PlusChangesOneLine | src/features/pos/Cart.tsx:139 | plus changes only that line, raising its quantity by one |
| CartView.PlusRaisesTotal | src/features/pos/Cart.tsx:139 | the plus button raises the total by exactly one unit price |
| CartView.MinusButton | src/features/pos/Cart.tsx:127-130 | the store's cart becomes the minus rule's result (decrement above 1, else remove); the linked order is saved with the new cart and customer; every other store field is unchanged |
| CartView.PlusButton | src/features/pos/Cart.tsx:139 | the store's cart becomes the line's quantity + 1; the linked order is saved with the new cart and customer; every other store field is unchanged |
| Clock.ElapsedMinutes | src/features/pos/POSPage.tsx:70-87 | 0 without a start date; for any start date (a `Date` object is truthy, even at the epoch) the floor of the milliseconds since the start over 60000 |
| Clock.EpochStartCounts | src/features/pos/POSPage.tsx:71-80 | a session started at timestamp 0 shows 2 minutes two minutes later |
| Clock.ElapsedMonotone | src/features/pos/POSPage.tsx:76-81 | a later clock never shows fewer elapsed minutes |
| Clock.ClockParts | src/features/pos/POSPage.tsx:89-93 | `formatTime(m)` shows `floor(m/60)` hours and `m % 60` minutes; for m ≥ 0 the minutes are below 60 and recombine to m; JavaScript's sign rule for negative m |
| Clock.TimerAgreesWithMinutes | src/features/pos/TableGrid.tsx:89-92 | for a start in the past, the tile timer's hours and minutes equal `formatTime` of the elapsed minutes, minutes < 60 |
| OrderSettings.SplitRecombine | src/features/pos/OrderSettingsDialog.tsx:67-71 | splitting a non-negative duration into h and m and recombining `h*60+m` gives it back |
| OrderSettings.SplitRecombineNegative | src/features/pos/OrderSettingsDialog.tsx:67-71 | a negative duration that is not whole hours recombines one hour lower |
| OrderSettings.SubmittedDuration | src/features/pos/OrderSettingsDialog.tsx:117 | the duration is sent when it is > 0, and null otherwise |
| OrderSettings.DurationSurvivesSubmit | src/features/pos/OrderSettingsDialog.tsx:67-71 | through the split and a submit, a positive duration survives and any other becomes null |
| OrderSettings.MinuteOf | src/features/pos/OrderSettingsDialog.tsx:57-61 | the start the form shows is on a minute boundary, at most a minute before the date |
| OrderSettings.MinuteOfIdempotent | src/features/pos/OrderSettingsDialog.tsx:57-61 | a start already on a minute boundary is shown unchanged |
| OrderSettings.InitialForm | src/features/pos/OrderSettingsDialog.tsx:54-75 | start = the order date cut to the minute; price = order rate, else the default; discount = order discount or 0; the duration split from the override or the default; table fee = the override when defined, else the computed fee |
| OrderSettings.Submit | src/features/pos/OrderSettingsDialog.tsx:107-120 | the recombined duration is null when ≤ 0; a table fee of 0 becomes null; `customItemsTotal` comes unchanged from the current order |
| OrderSettings.SaveUnchanged | src/features/pos/OrderSettingsDialog.tsx:54-120 | opening the dialog and saving at once keeps the order's overrides (a positive duration, a non-zero fee, the items total), but the saved date is the start of its minute, equal to the old date exactly when that had no seconds |
| OrderSettings.SaveTwiceKeepsStart | src/features/pos/OrderSettingsDialog.tsx:57-110 | a second save without an edit keeps the start the first save wrote |
| OrderSettings.LookUp | src/features/pos/OrderSettingsDialog.tsx:80-86 | the coupon is looked up by the upper-cased code; only a request that throws is a failure; an error answer, whose `data` is null, is no row, the same as a missing code |
| OrderSettings.CouponValue | src/features/pos/OrderSettingsDialog.tsx:89-95 | a fixed coupon grants its value; a percent coupon of 0–100 grants between 0 and the product subtotal |
| OrderSettings.PercentBounds | src/features/pos/OrderSettingsDialog.tsx:92 | `subtotal * value / 100` lies between 0 and the subtotal for 0 ≤ value ≤ 100 |
| OrderSettings.EnterCoupon | src/features/pos/OrderSettingsDialog.tsx:77-105 | only an active coupon replaces the discount, with its value; a missing or inactive code (including an error answer) gives the invalid-code message and a thrown request the check-failed message, both keeping the discount |
| OrderSettings.ErrorAnswerIsInvalidCode | src/features/pos/OrderSettingsDialog.tsx:82-99 | a request answered with an error shows the invalid-code message and keeps the discount |
| OrderSettings.PreviewTotal | src/features/pos/OrderSettingsDialog.tsx:130-133 | `max(0, fee + products - discount)`: never negative, equal to the sum when that is non-negative |
| OrderSettings.PercentCouponNoClamp | src/features/pos/OrderSettingsDialog.tsx:130-133 | a percent coupon of at most 100% on non-negative prices never reaches the clamp |
| OrderSettings.DisplayDuration | src/features/pos/OrderSettingsDialog.tsx:136-143 | the manual duration when non-zero; otherwise `max(0, floor((now - start)/60000))`: the whole minutes for a past start, 0 for a future one, and 0 without a start |
| OrderSettings.DisplayDurationNonNegative | src/features/pos/OrderSettingsDialog.tsx:136-143 | with non-negative fields the shown duration is never negative |
| OrderSettings.SettingsForm.Open | src/features/pos/OrderSettingsDialog.tsx:54-75 | opening the dialog fills the form with `InitialForm` |
| OrderSettings.SettingsForm.CouponEnter | src/features/pos/OrderSettingsDialog.tsx:77-105 | pressing Enter sets the discount as `EnterCoupon` decides and keeps every other field |
| PosPage.NotesList | src/features/pos/POSPage.tsx:26 | the notes shown are `[""]` when there are none, and the notes otherwise |
| PosPage.RemovedNote | src/features/pos/POSPage.tsx:42-51 | with at most one note shown the result is `[]`; otherwise exactly index i is removed and order is kept |
| PosPage.RemovedNoteKeepsOrder | src/features/pos/POSPage.tsx:42-51 | removing a note leaves a subsequence of the notes |
| PosPage.ItemCount | src/features/pos/POSPage.tsx:113 | the badge sums the quantities, so with positive quantities it is at least the number of lines |
| PosPage.HandleUpdateNote | src/features/pos/POSPage.tsx:28-35 | the shown list with element i set to v; same length, every other element unchanged; every other store field unchanged |
| PosPage.HandleAddNoteField | src/features/pos/POSPage.tsx:37-40 | one empty note appended to the shown list, so the length is `max(|notes|, 1) + 1`; every other store field unchanged |
| PosPage.HandleRemoveNote | src/features/pos/POSPage.tsx:42-51 | the notes become `RemovedNote` of the old notes; every other store field is unchanged and the store stays valid |
| PosPage.ItemCountUpdateAt | src/features/pos/POSPage.tsx:113 | changing one line moves the cart badge by that line's quantity difference |
| PosPage.ItemCountAppend | src/features/pos/POSPage.tsx:113 | the badge of a concatenation is the sum of the badges |
| PosPage.AddRaisesItemCount | src/features/pos/POSPage.tsx:113 | adding a product raises the cart badge by exactly one |
| PosPage.NoteBadge | src/features/pos/POSPage.tsx:195-197 | the badge shows exactly when some note is not blank after trimming, and then shows the number of such notes (`FilledCount`), between 1 and the number of notes |
| PosPage.NoteBadgeAppend | src/features/pos/POSPage.tsx:195-197 | adding a filled note raises the badge by one; adding a blank note leaves it as it was |
| Payment.DigitPrefix | src/features/pos/PaymentDialog.tsx:22 | the longest run of leading digits `parseInt` reads |
| Payment.ParseInt | src/features/pos/PaymentDialog.tsx:22 | `parseInt` is NaN exactly when no digit follows the leading white space and sign |
| Payment.ParseIntOfText | src/features/pos/PaymentDialog.tsx:10 | the decimal text of an integer parses back to it |
| Payment.Change | src/features/pos/PaymentDialog.tsx:22 | an empty field counts as "0"; text that `parseInt` reads as NaN gives NaN; otherwise the change is `max(0, received - total)`, never negative |
| Payment.InitialChangeIsZero | src/features/pos/PaymentDialog.tsx:10-22 | when the dialog is first mounted the field holds `total.toString()`; `parseInt` reads its whole part, so for any non-negative total, fractional or not, the change at mount is 0 |
| Payment.StaleFieldChange | src/features/pos/PaymentDialog.tsx:10-22 | the field keeps the total it was mounted with: after the bill moves, the change is `max(0, trunc(mounted total) - current total)`, positive when the bill fell |
| Payment.EmptyFieldNoChange | src/features/pos/PaymentDialog.tsx:22 | an empty field gives no change for a non-negative total |
| Payment.PayEnabledForProducts | src/features/pos/PaymentDialog.tsx:27 | a bill with a positive product total and a non-negative fee enables the pay button |
| Payment.PayEnabledEmptyCart | src/features/pos/PaymentDialog.tsx:27 | with an empty cart the pay button is enabled exactly when the table fee is not 0 |
| Payment.PayGrandTotal | src/features/pos/PaymentDialog.tsx:14-19 | paying checks out with the bill's grand total (not the received amount): without a linked order nothing changes; otherwise the order is completed with that total in cash, the customer earns points on it, the table is freed and the cart, active table and customer are cleared; the link invariant is kept |
| Rows.IntRoundTrip | src/services/orderService.ts:111-128 | a number written to a column reads back as itself |
| Rows.ReadNumMerge | src/services/orderService.ts:89-97 | after an update, a numeric column reads from the update where it is sent, else from the old row |
| Rows.ReadIntMerge | src/services/orderService.ts:89-97 | the same for an integer column |
| Rows.StatusNameRoundTrip | src/types.ts:26 | an order status's text reads back as that status |
| Rows.MethodNameRoundTrip | src/types.ts:25 | a payment method's text reads back as that method |
| Rows.TableStatusNameRoundTrip | src/types.ts:15 | a table status's text reads back as that status |
| OrderService.StoredNote | src/services/orderService.ts:53 | a note list is stored joined with `'\n'`, a text note unchanged |
| OrderService.CreateRow | src/services/orderService.ts:44-62 | the inserted row never carries an id |
| OrderService.CreateRowColumns | src/services/orderService.ts:44-62 | the date, total, items and status columns are always written, and each other snake_case column exactly when its camelCase field is defined |
| OrderService.CreateRowAt | src/services/orderService.ts:44-62 | column by column, the inserted row holds exactly what `create` maps to it |
| OrderService.CreateRowAll | src/services/orderService.ts:44-62 | every column of the inserted row is as `create` maps it |
| OrderService.MapResponse | src/services/orderService.ts:111-128 | the record reads each field from its snake_case column; a note always reads back as text |
| OrderService.CreateReadsBack | src/services/orderService.ts:37-72 | a created order reads back with every field but the note as sent, and its new id |
| OrderService.CreateReadsFixed | src/services/orderService.ts:44-62 | the inserted row is well formed and its id, date, total, items, status, method and note read back |
| OrderService.CreateReadsOptional | src/services/orderService.ts:50-61 | the table, customer, discount and override columns read back as sent |
| OrderService.CreateRoundTrip | src/services/orderService.ts:37-72 | an order with an absent or text note comes back from `create` exactly as sent, with its new id |
| OrderService.CreateNoteList | src/services/orderService.ts:53 | a note list comes back as its joined text, which splits back into the same notes |
| OrderService.UpdateRow | src/services/orderService.ts:74-87 | the update row never carries the id |
| OrderService.UpdateRowColumns | src/services/orderService.ts:74-87 | `update` never writes id, `date` or `price_per_hour`, and writes each other column exactly when the field is defined |
| OrderService.UpdateRowAt | src/services/orderService.ts:75-86 | column by column, the update row holds exactly what `update` sends |
| OrderService.Patched | src/services/orderService.ts:74-98 | an update never changes the id, the date or the rate |
| OrderService.UpdateKeepsOrderRow | src/services/orderService.ts:89-97 | the updated row stays well formed; the total, items and status read back as patched |
| OrderService.UpdateReadsIds | src/services/orderService.ts:78-83 | the method, table, customer and note read back as patched, or as before where undefined |
| OrderService.UpdateReadsAmounts | src/services/orderService.ts:82-86 | the discount and the three overrides read back as patched, or as before where undefined |
| OrderService.UpdateReadsBack | src/services/orderService.ts:74-98 | the updated row reads back as the old record with the defined fields replaced |
| OrderService.OrderTable.constructor | src/services/orderService.ts:4 | the remote table starts empty |
| OrderService.OrderTable.MapRows | src/services/orderService.ts:12 | `data.map(mapResponse)` over the rows in the server's order |
| OrderService.OrderTable.GetAll | src/services/orderService.ts:5-13 | an error is passed back; otherwise every row mapped, newest date first |
| OrderService.OrderTable.GetActiveOrders | src/services/orderService.ts:15-23 | an error is passed back; otherwise exactly the pending orders, mapped |
| OrderService.OrderTable.GetById | src/services/orderService.ts:25-35 | an error or a missing row is an error; otherwise the mapped row |
| OrderService.OrderTable.Create | src/services/orderService.ts:37-72 | an error changes nothing; otherwise the row is stored under a fresh id and returned mapped |
| OrderService.OrderTable.Update | src/services/orderService.ts:74-98 | an error or a missing row changes nothing; otherwise the row is merged with the update row and returned as `Patched` |
| OrderService.OrderTable.Delete | src/services/orderService.ts:100-108 | an error changes nothing; otherwise the row is gone and the answer is true |
| TableService.LinkValue | src/services/tableService.ts:35 | `currentOrderId \|\| null`: a missing link and 0 are both stored as null |
| TableService.CreateRow | src/services/tableService.ts:51-56 | name, status and link (falsy as null) are always written, the rate when defined, never an id |
| TableService.MapResponse | src/services/tableService.ts:79-87 | the record reads each field from its column; null reads back as absent |
| TableService.CreateReadsBack | src/services/tableService.ts:50-66 | a created table reads back with its new id, its link surviving unless it was 0 |
| TableService.CreateRoundTrip | src/services/tableService.ts:50-66 | a table whose link is absent or non-zero comes back exactly as sent |
| TableService.UpdateRow | src/services/tableService.ts:26-36 | name, status and rate are written only when defined; the link only when not undefined, a falsy one as null |
| TableService.Patched | src/services/tableService.ts:26-47 | an update never changes the id, and an undefined link is kept |
| TableService.UpdateReadsBack | src/services/tableService.ts:26-47 | the updated row reads back as the old record with the defined fields replaced |
| TableService.UndefinedLinkKept | src/services/tableService.ts:33-36 | passing no link does not clear it |
| TableService.ZeroLinkClears | src/services/tableService.ts:33-36 | passing the link 0 clears it |
| TableService.TableStore.constructor | src/services/tableService.ts:4 | the remote table starts empty |
| TableService.TableStore.MapRows | src/services/tableService.ts:12 | `data.map(mapResponse)` over the rows in the server's order |
| TableService.TableStore.GetAll | src/services/tableService.ts:5-13 | an error is passed back; otherwise every row once, mapped, in ascending id order |
| TableService.TableStore.MapRowsCovers | src/services/tableService.ts:5-13 | a listing of the keys in ascending order maps every row, with ascending ids |
| TableService.TableStore.GetById | src/services/tableService.ts:15-24 | an error or a missing row is an error; otherwise the mapped row with its id |
| TableService.TableStore.Update | src/services/tableService.ts:26-47 | an error or a missing row changes nothing; otherwise the row is merged with the update row and returned as `Patched` |
| TableService.TableStore.Create | src/services/tableService.ts:50-66 | an error changes nothing; otherwise the row is stored under a fresh id and returned mapped |
| TableService.TableStore.Delete | src/services/tableService.ts:68-76 | an error changes nothing; otherwise the row is gone and the answer is true |
| SettingsStore.MergeStyle | src/stores/settingsStore.ts:53 | each print-style key is the patch's where given, the old one otherwise |
| SettingsStore.MergeEmpty | src/stores/settingsStore.ts:53 | an empty patch changes nothing |
| SettingsStore.MergeIdempotent | src/stores/settingsStore.ts:53 | applying a patch twice equals applying it once |
| SettingsStore.MergeFull | src/stores/settingsStore.ts:53 | a full patch replaces the style |
| SettingsStore.Settings.constructor | src/stores/settingsStore.ts:31-49 | defaults: 60-minute blocks, block billing off, grace 5, the demo shop, header `[shopName, shopAddress, shopPhone]`, print 80 mm/base/sans/center |
| SettingsStore.Settings.SetBillingBlockDuration | src/stores/settingsStore.ts:33 | changes only the block duration |
| SettingsStore.Settings.SetEnableBlockBilling | src/stores/settingsStore.ts:34 | changes only the billing mode |
| SettingsStore.Settings.SetGracePeriod | src/stores/settingsStore.ts:36 | changes only the grace period |
| SettingsStore.Settings.SetShopSettings | src/stores/settingsStore.ts:51 | overwrites only the given shop fields |
| SettingsStore.Settings.SetHeaderLayout | src/stores/settingsStore.ts:52 | changes only the header layout |
| SettingsStore.Settings.SetPrintStyle | src/stores/settingsStore.ts:53 | the print style becomes `MergeStyle` of the old one; nothing else changes |
| OrdersPage.FindTable | src/features/orders/OrdersPage.tsx:62 | `tables?.find(t => t.id === id)`: a found table has that id, and one is found whenever it exists |
| OrdersPage.FilteredOrders | src/features/orders/OrdersPage.tsx:51-84 | empty without orders; otherwise an order-preserving subsequence holding exactly the orders that pass the status, search and date tests; with a status filter every result has it |
| OrdersPage.NoFilterShowsAll | src/features/orders/OrdersPage.tsx:51-84 | with no filter every order is shown |
| OrdersPage.DateBoundsInclusive | src/features/orders/OrdersPage.tsx:67-80 | the first millisecond of `dateFrom` and the last of `dateTo` are kept |
| OrdersPage.DateBoundsTight | src/features/orders/OrdersPage.tsx:67-80 | one millisecond outside either bound is dropped |
| OrdersPage.SearchByOwnId | src/features/orders/OrdersPage.tsx:59-64 | searching an order's own id finds it |
| OrdersPage.TableName | src/features/orders/OrdersPage.tsx:97-101 | "Không có bàn" for a missing or zero id, the found table's name when non-empty, else "Bàn {id}" |
| OrdersPage.TodayOrders | src/features/orders/OrdersPage.tsx:119 | exactly the orders dated from the start of today, in order |
| OrdersPage.WithStatus | src/features/orders/OrdersPage.tsx:123-126 | exactly the orders with that status |
| OrdersPage.TodayStats | src/features/orders/OrdersPage.tsx:113-129 | zeros without orders; otherwise the count of today's orders, of today's pending and of today's completed orders, and revenue = the sum of totals of today's completed orders |
| OrdersPage.StatsCountsBounded | src/features/orders/OrdersPage.tsx:121-124 | pending + completed ≤ total today |
| OrdersPage.SumTotalsNonNegative | src/features/orders/OrdersPage.tsx:125-127 | a sum of non-negative totals is non-negative |
| OrdersPage.RevenueNonNegative | src/features/orders/OrdersPage.tsx:125-127 | with non-negative totals the revenue is non-negative |
| TableGrid.LinkedOrders | src/features/pos/TableGrid.tsx:108-112 | exactly the stored orders some table links to (truthily) |
| TableGrid.Tiles | src/features/pos/TableGrid.tsx:114-120 | one tile per table, in the tables' order, each table kept whole |
| TableGrid.StartTimeOfLinkedOrder | src/features/pos/TableGrid.tsx:108-118 | a tile has a start time exactly when its table links to a stored order, and it is that order's date |
| TableGrid.TileTimer | src/features/pos/TableGrid.tsx:89-92 | hours = `floor(diff/3600000)`, minutes = `floor((diff % 3600000)/60000)`; for diff ≥ 0 minutes < 60 and equal to `formatTime` |
| TableGrid.NoLinkNoTimer | src/features/pos/TableGrid.tsx:167-171 | a table without a link never shows a timer, even when occupied |
| Catalog.VisibleProducts | src/features/pos/ProductGrid.tsx:15-29 | an order-preserving subsequence holding exactly the products in the chosen category that match name (case-insensitive) or barcode; with a category every result has it |
| Catalog.NoFilterShowsAll | src/features/pos/ProductGrid.tsx:17-26 | with no category and no search all products are shown |
| Catalog.SelectCategory | src/features/products/ProductsPage.tsx:102 | "Tất cả" clears the category (null), any other button chooses it |
| Catalog.ClickHighlights | src/features/pos/ProductGrid.tsx:55-57 | after a click the clicked button is highlighted, and "Tất cả" shows the unfiltered search |
| Catalog.ClickAdd | src/features/pos/ProductGrid.tsx:89-92 | the plus button adds that product to the cart once; the linked order is saved with the new cart and customer; every other store field is unchanged |
| Catalog.ProductsPage.constructor | src/features/products/ProductsPage.tsx:28 | nothing is pending deletion at first |
| Catalog.ProductsPage.AskDelete | src/features/products/ProductsPage.tsx:130 | the trash button marks the product pending and changes no row |
| Catalog.ProductsPage.HandleSave | src/features/products/ProductsPage.tsx:63-69 | a product with an id overwrites its row (a missing row is left alone); one without is added under a fresh key |
| Catalog.ProductsPage.HandleDelete | src/features/products/ProductsPage.tsx:56-61 | only a pending product with an id is deleted, and then nothing is pending |
| CustomersPage.Matching | src/features/customers/CustomersPage.tsx:40-46 | an order-preserving subsequence; an empty term keeps all, otherwise exactly the customers whose lower-cased name contains the term or whose phone contains it |
| CustomersPage.VisibleCustomers | src/features/customers/CustomersPage.tsx:35-50 | the matches reversed (newest first), holding exactly the matching customers |
| CustomersPage.EmptySearchShowsAllReversed | src/features/customers/CustomersPage.tsx:37-47 | an empty search shows every customer in reverse order |
| CustomersPage.CustomersPage.constructor | src/features/customers/CustomersPage.tsx:33 | nothing is pending deletion at first |
| CustomersPage.CustomersPage.AskDelete | src/features/customers/CustomersPage.tsx:145 | the trash button marks the customer pending and changes no row |
| CustomersPage.CustomersPage.HandleSave | src/features/customers/CustomersPage.tsx:74-80 | a customer with an id overwrites its row (a missing row is left alone); one without is added under a fresh key |
| CustomersPage.CustomersPage.HandleDelete | src/features/customers/CustomersPage.tsx:62-72 | only a pending customer with an id is deleted; on an error nothing changes and it stays pending |
| TablesPage.VisibleTables | src/features/management/TablesPage.tsx:71-78 | `[]` before loading; all tables for a blank query; otherwise exactly the tables whose lower-cased name contains the lower-cased query, in order |
| TablesPage.SpacesShowAll | src/features/management/TablesPage.tsx:73 | a whitespace query shows every table |
| TablesPage.SavePatch | src/features/management/TablesPage.tsx:96-98 | a save sends the name and status, and the rate and link as they are |
| TablesPage.HandleSave | src/features/management/TablesPage.tsx:96-102 | a table with an id is updated through the service and the patched table is returned, one without is created; service errors change nothing |
| TablesPage.TablesPage.constructor | src/features/management/TablesPage.tsx:37 | nothing is pending deletion at first |
| TablesPage.TablesPage.HandleDelete | src/features/management/TablesPage.tsx:47-55 | only a pending table with an id is deleted; on success nothing is pending, on an error it stays pending |
| Navigation.FilteredNav | src/components/common/Sidebar.tsx:25-33 | an order-preserving subsequence of the menu holding exactly the visible items; no user gives no items |
| Navigation.SidebarAdmin | src/components/common/Sidebar.tsx:6-14 | an admin sees every sidebar item in declared order |
| Navigation.SidebarStaff | src/components/common/Sidebar.tsx:29-31 | staff see exactly /pos, /products, /orders |
| Navigation.SidebarOtherRole | src/components/common/Sidebar.tsx:25-33 | any other role sees nothing |
| Navigation.HeaderAdmin | src/components/common/Header.tsx:16-23 | an admin sees all six header items |
| Navigation.HeaderStaff | src/components/common/Header.tsx:42-44 | staff see exactly /pos, /products, /orders |
| Navigation.Guard | src/App.tsx:16-27 | unauthenticated goes to /login; a role outside `allowedRoles` goes to /dashboard for admin and /pos otherwise; otherwise the route renders |
| Navigation.Access | src/App.tsx:39-63 | the root redirects to /dashboard; dashboard, tables, customers and settings pass the admin-only guard; products, orders and pos need only authentication |
| Navigation.StaffAndAdminAccess | src/App.tsx:47-61 | staff are sent to /pos from the admin-only pages; an admin may open every page |
| Navigation.AdminPagesHiddenInSidebar | src/components/common/Sidebar.tsx:30 | every admin-only page is in the sidebar's staff-hidden list |
| Navigation.AdminPagesHiddenInHeader | src/components/common/Header.tsx:43 | every admin-only page but tables is in the header's staff-hidden list |
| Navigation.SidebarMatchesRoutes | src/components/common/Sidebar.tsx:25-33 | every sidebar entry a user sees leads to a page the router lets that user open |
| Navigation.HeaderHasNoTables | src/components/common/Header.tsx:16-23 | the header has no /tables entry |
| Navigation.HeaderMatchesRoutes | src/components/common/Header.tsx:38-46 | every header entry a user sees leads to a page the router lets that user open |
| Navigation.Title | src/layouts/MainLayout.tsx:5-13 | the title is always one of the fixed page titles |
| Navigation.UnmatchedIsOverview | src/layouts/MainLayout.tsx:6-12 | a path matching no prefix gets "Tổng quan", the same as /dashboard |
| Navigation.PrefixMatch | src/layouts/MainLayout.tsx:7 | matching is by raw prefix, so "/tablesX" gets "Quản lý bàn" |
| Text.Lower | src/features/orders/OrdersPage.tsx:60 | `toLowerCase` keeps the length and lowers each ASCII capital |
| Text.Upper | src/features/pos/OrderSettingsDialog.tsx:80 | `toUpperCase` keeps the length and raises each ASCII small letter |
| Text.UpperIdempotent | src/features/pos/OrderSettingsDialog.tsx:80 | upper-casing twice equals upper-casing once |
| Text.Trim | src/features/management/TablesPage.tsx:73 | `trim()` is empty exactly for a blank text |
| Text.IntToString | src/features/orders/OrdersPage.tsx:61 | `toString()` of an integer is non-empty and starts with '-' exactly for a negative one |
| Text.ParseNatToString | src/features/orders/OrdersPage.tsx:61 | the digits of a natural number read back as it |
| Text.JoinLines | src/services/orderService.ts:53 | `join('\n')` of no notes is empty, of one note is that note |
| Text.SplitJoinLines | src/services/orderService.ts:53 | notes without newlines split back from their joined text |
| Common.FloorDiv | src/stores/cartStore.ts:187 | `Math.floor(a / b)`: `q*b <= a < q*b + b` |
| Common.CeilDiv | src/features/pos/Cart.tsx:66 | `Math.ceil(a / b)`: `q*b - b < a <= q*b` |
| Common.JsRem | src/features/pos/TableGrid.tsx:92 | JavaScript `%`: the remainder takes the dividend's sign |
| Common.Filter | src/features/orders/OrdersPage.tsx:54 | `Array.filter`: an order-preserving subsequence holding exactly the elements that pass, each as many times as in the input (multiset equality on passing elements, zero on the rest) |
| Common.FilterDisjointCount | src/features/orders/OrdersPage.tsx:123-124 | two filters with disjoint tests together keep at most all elements |
| Common.Reverse | src/features/customers/CustomersPage.tsx:47 | `reverse()`: element i is the old element n-1-i |
| Common.ReverseTwice | src/features/customers/CustomersPage.tsx:47 | reversing twice gives back the original order |

## Left out

- I/O and reactivity are not modelled. This covers Dexie and Supabase, `useLiveQuery`, `setInterval`, toasts, query invalidation, dialogs and all rendering. The clock is a `now` parameter. A remote error is a `failure` parameter. The order in which the server answers a list query is a `listing` parameter: `order('date', {ascending: false})` and `order('id')` become preconditions on it.
- Asynchronous actions in the session store run to completion one after the other. The fire-and-forget saves (e.g. `setCustomer` calling `saveCurrentOrder` without awaiting it) and their races are not modelled.
- JavaScript `null` and `undefined` are both `None` in the records. A store update that sends a key explicitly set to `undefined` is treated as not sending the key.
- Numbers are unbounded integers or exact reals. Floating-point rounding and Infinity are not modelled; NaN is modelled only where `parseInt` produces it in the payment dialog. Form fields are numbers already, so `Number(x) || 0` is 0 only for 0.
- `toLowerCase`/`toUpperCase` change ASCII letters only. Vietnamese capitals with diacritics are left as they are.
- Time strings (`${h}h ${m}p`, `toLocaleString`, the timezone-offset ISO trick) are rendered as an (hours, minutes) pair or a timestamp.
- The day bounds of the order filter and of the daily stats are taken as given. The start of `dateFrom`, the end of `dateTo` (start + 86399999 ms) and the start of today are parameters, not computed from local dates.
- CartView.TableFee: the block mode requires `blockDuration > 0`, because `Math.ceil(e / 0)` is NaN or Infinity in JavaScript; a negative block length (which the settings page stores unchecked, since `min={1}` is only a hint) is also excluded, and `billingBlockDuration` is an integer, so a fractional length typed into that field is not modelled either. TableFee's own contract states only the unoccupied zero; the fee's value is stated by lemmas: MinimumCharge (at least, and up to that length exactly, one hour or one block), FeeMonotone (non-decreasing in time), HourBlocksMatchHourly (60-minute blocks equal hourly billing), BlockFeeBounds (block fee within one block above the pro-rata charge) and FiveMinuteBlocksExample (concrete values).
- Catalog.ClickAdd does not restate the cart total. The raise by one price is `CartStore.AddedToCartTotal`.
- The payment dialog is mounted once per occupied session and its received field is set only at mount; the model does not track when the dialog mounts, and states the effect of a stale field through `Payment.StaleFieldChange`.
- The minus and plus buttons take the line (with its product id) as the code does; a line without an id (`item.id!`) is excluded.
- Dexie's `add` with an explicit id of 0, and `update` on a missing key, are modelled as the library does: a new key from the counter, and no change.
- `isLoading` in the order settings dialog and the `onSelectTable` callback of the table grid only drive the UI.
- The order settings dialog has no caller in this snapshot. Its save handler is modelled by the value `onSubmit` hands to `onSave`.
- The user's role is compared as text (`"admin"`, `"staff"`); a role outside these two is a third constructor.
- OrderSettings.InitialForm: the start is cut to the minute in UTC milliseconds, which is the same as cutting local time only when the time-zone offset is a whole number of minutes; other offsets are not modelled.
- The dashboard, login, seeding, the settings page editor, the product/customer/auth services and the form components are not part of this model.

/**
 * The table-session store: the active table, its cart lines and linked
 * customer, over three keyed tables (billiard tables, orders, customers)
 * held in memory. Every asynchronous step of an action runs to completion
 * before the next, in the order the action awaits them.
 */
module CartStore {
  import opened Common
  import opened Entities

  /** A cart line: the product as it was added, with a quantity. */
  datatype CartItem = CartItem(product: Product, quantity: int)

  function LineTotal(item: CartItem): int {
    item.product.price * item.quantity
  }

  /** The store's `total()`: price × quantity summed over the lines. */
  function Total(items: seq<CartItem>): int
    decreases |items|
  {
    if items == [] then 0 else LineTotal(items[0]) + Total(items[1..])
  }

  lemma {:induction false} TotalAppend(a: seq<CartItem>, b: seq<CartItem>)
    ensures Total(a + b) == Total(a) + Total(b)
    decreases |a|
  {
    if a == [] {
      assert a + b == b;
    } else {
      assert (a + b)[1..] == a[1..] + b;
      TotalAppend(a[1..], b);
    }
  }

  /** Filtering the lines splits the total between the kept and the dropped lines. */
  lemma {:induction false} TotalFilterSplit(items: seq<CartItem>, p: CartItem -> bool)
    ensures Total(items) == Total(Filter(items, p)) + Total(Filter(items, x => !p(x)))
    decreases |items|
  {
    if items != [] {
      TotalFilterSplit(items[1..], p);
      if p(items[0]) {
        TotalAppend([items[0]], Filter(items[1..], p));
      } else {
        TotalAppend([items[0]], Filter(items[1..], x => !p(x)));
      }
    }
  }

  /** No two lines carry the same product id (what `addToCart` keeps true). */
  ghost predicate DistinctIds(items: seq<CartItem>) {
    forall i, j :: 0 <= i < j < |items| ==> items[i].product.id != items[j].product.id
  }

  predicate HasProduct(items: seq<CartItem>, id: Option<int>) {
    exists i | 0 <= i < |items| :: items[i].product.id == id
  }

  /** The lines after `addToCart(p)`. */
  function AddedToCart(items: seq<CartItem>, p: Product): (r: seq<CartItem>)
    ensures HasProduct(items, p.id) ==>
              |r| == |items|
              && forall i :: 0 <= i < |items| ==>
                   r[i].product == items[i].product
                   && r[i].quantity == (if items[i].product.id == p.id then items[i].quantity + 1 else items[i].quantity)
    ensures !HasProduct(items, p.id) ==> r == items + [CartItem(p, 1)]
  {
    if HasProduct(items, p.id) then
      seq(|items|, i requires 0 <= i < |items| =>
        if items[i].product.id == p.id then items[i].(quantity := items[i].quantity + 1) else items[i])
    else
      items + [CartItem(p, 1)]
  }

  /** Adding keeps product ids distinct and raises the total by exactly one unit price. */
  lemma AddedToCartTotal(items: seq<CartItem>, p: Product)
    requires DistinctIds(items)
    ensures DistinctIds(AddedToCart(items, p))
    ensures HasProduct(items, p.id) ==>
              exists k :: 0 <= k < |items| && items[k].product.id == p.id
                          && Total(AddedToCart(items, p)) == Total(items) + items[k].product.price
    ensures !HasProduct(items, p.id) ==> Total(AddedToCart(items, p)) == Total(items) + p.price
  {
    var r := AddedToCart(items, p);
    if HasProduct(items, p.id) {
      var k :| 0 <= k < |items| && items[k].product.id == p.id;
      TotalBump(items, r, k);
    } else {
      TotalAppend(items, [CartItem(p, 1)]);
    }
  }

  /** Raising the quantity of line k by one, and nothing else, adds that line's price. */
  lemma {:induction false} TotalBump(items: seq<CartItem>, r: seq<CartItem>, k: int)
    requires 0 <= k < |items| == |r|
    requires forall i :: 0 <= i < |items| && i != k ==> r[i] == items[i]
    requires r[k].product == items[k].product && r[k].quantity == items[k].quantity + 1
    ensures Total(r) == Total(items) + items[k].product.price
    decreases |items|
  {
    if k > 0 {
      TotalBump(items[1..], r[1..], k - 1);
    } else {
      assert r[1..] == items[1..];
    }
  }

  /** The lines that hold product `productId`. */
  function LinesOf(items: seq<CartItem>, productId: int): (r: seq<CartItem>)
    ensures forall i :: 0 <= i < |r| ==> r[i].product.id == Some(productId) && r[i] in items
  {
    Filter(items, (x: CartItem) => x.product.id == Some(productId))
  }

  /** The lines after `removeFromCart(productId)`. */
  function RemovedFromCart(items: seq<CartItem>, productId: int): (r: seq<CartItem>)
    ensures Subsequence(r, items)
    ensures forall i :: 0 <= i < |r| ==> r[i].product.id != Some(productId) && r[i] in items
    ensures forall i :: 0 <= i < |items| && items[i].product.id != Some(productId) ==> items[i] in r
    ensures Total(r) == Total(items) - Total(LinesOf(items, productId))
  {
    var keep := (x: CartItem) => x.product.id != Some(productId);
    TotalFilterSplit(items, keep);
    FilterSame(items, x => !keep(x), (x: CartItem) => x.product.id == Some(productId));
    Filter(items, keep)
  }

  lemma {:induction false} FilterSame<T(!new)>(s: seq<T>, p: T -> bool, q: T -> bool)
    requires forall x :: p(x) == q(x)
    ensures Filter(s, p) == Filter(s, q)
    decreases |s|
  {
    if s != [] {
      FilterSame(s[1..], p, q);
    }
  }

  /** The lines after `updateQuantity(productId, quantity)`; nothing is removed, whatever the quantity. */
  function WithQuantity(items: seq<CartItem>, productId: int, quantity: int): (r: seq<CartItem>)
    ensures |r| == |items|
    ensures forall i :: 0 <= i < |items| ==>
              r[i].product == items[i].product
              && r[i].quantity == (if items[i].product.id == Some(productId) then quantity else items[i].quantity)
  {
    seq(|items|, i requires 0 <= i < |items| =>
      if items[i].product.id == Some(productId) then items[i].(quantity := quantity) else items[i])
  }

  /** Cart lines as an order stores them (`productId`, `quantity`, `price`, `name`). */
  function ToOrderLines(items: seq<CartItem>): (r: seq<OrderLine>)
    ensures |r| == |items|
    ensures forall i :: 0 <= i < |items| ==>
              r[i] == OrderLine(items[i].product.id, items[i].quantity, items[i].product.price, None, items[i].product.name)
  {
    seq(|items|, i requires 0 <= i < |items| =>
      OrderLine(items[i].product.id, items[i].quantity, items[i].product.price, None, items[i].product.name))
  }

  /** Order lines loaded back into the cart; the fields an order does not keep get blanks. */
  function ToCartItems(lines: seq<OrderLine>): (r: seq<CartItem>)
    ensures |r| == |lines|
    ensures forall i :: 0 <= i < |lines| ==>
              r[i] == CartItem(Product(lines[i].productId, lines[i].name, "", lines[i].price, 0, 0, "", None), lines[i].quantity)
  {
    seq(|lines|, i requires 0 <= i < |lines| =>
      CartItem(Product(lines[i].productId, lines[i].name, "", lines[i].price, 0, 0, "", None), lines[i].quantity))
  }

  /** What survives a save and a reload: id, name, price and quantity of every line, in order. */
  ghost predicate SameLines(a: seq<CartItem>, b: seq<CartItem>) {
    |a| == |b|
    && forall i :: 0 <= i < |a| ==>
         a[i].product.id == b[i].product.id && a[i].product.name == b[i].product.name
         && a[i].product.price == b[i].product.price && a[i].quantity == b[i].quantity
  }

  lemma {:induction false} TotalSameLines(a: seq<CartItem>, b: seq<CartItem>)
    requires SameLines(a, b)
    ensures Total(a) == Total(b)
    decreases |a|
  {
    if a != [] {
      TotalSameLines(a[1..], b[1..]);
    }
  }

  /** Saving the cart into an order and loading it back keeps every line and the total. */
  lemma CartOrderRoundTrip(items: seq<CartItem>)
    ensures SameLines(ToCartItems(ToOrderLines(items)), items)
    ensures Total(ToCartItems(ToOrderLines(items))) == Total(items)
  {
    TotalSameLines(ToCartItems(ToOrderLines(items)), items);
  }

  /** Loading an order's lines and saving them again writes back exactly the same lines. */
  lemma OrderCartRoundTrip(lines: seq<OrderLine>)
    requires forall i :: 0 <= i < |lines| ==> lines[i].originalPrice.None?
    ensures ToOrderLines(ToCartItems(lines)) == lines
  {
  }

  // ---------------------------------------------------------------------
  // The persistent side: what each action writes to the keyed tables.

  /** The order id a table row refers to, when it is truthy and names a pending order. */
  ghost predicate HoldsPendingOrder(t: BilliardTable, orders: map<int, Order>) {
    Truthy(t.currentOrderId) && t.currentOrderId.value in orders
    && orders[t.currentOrderId.value].status == Pending
  }

  /**
   * The table/order link: a table is occupied exactly when it refers to a
   * pending order, and no two tables refer to the same pending order.
   */
  ghost predicate Consistent(tables: map<int, BilliardTable>, orders: map<int, Order>) {
    (forall k :: k in tables ==> (tables[k].status == Occupied <==> HoldsPendingOrder(tables[k], orders)))
    && (forall k1, k2 ::
          k1 in tables && k2 in tables && k1 != k2
          && HoldsPendingOrder(tables[k1], orders) && HoldsPendingOrder(tables[k2], orders)
          ==> tables[k1].currentOrderId != tables[k2].currentOrderId)
  }

  /**
   * The order that `saveCurrentOrder` and `checkout` write to: the truthy
   * `currentOrderId` of the active table, when the id is truthy and the row exists.
   */
  function LinkedOrderId(active: Option<int>, tables: map<int, BilliardTable>): (r: Option<int>)
    ensures r.Some? <==> Truthy(active) && active.value in tables && Truthy(tables[active.value].currentOrderId)
    ensures r.Some? ==> r == tables[active.value].currentOrderId
  {
    if Truthy(active) && active.value in tables && Truthy(tables[active.value].currentOrderId) then
      tables[active.value].currentOrderId
    else None
  }

  /** The pending order `setActiveTable` loads for a table, if there is one. */
  function PendingOrderOf(tableId: Option<int>, tables: map<int, BilliardTable>, orders: map<int, Order>): (r: Option<int>)
    ensures r.Some? <==> Truthy(tableId) && tableId.value in tables && HoldsPendingOrder(tables[tableId.value], orders)
    ensures r.Some? ==> r == tables[tableId.value].currentOrderId && r.value in orders
  {
    var o := LinkedOrderId(tableId, tables);
    if o.Some? && o.value in orders && orders[o.value].status == Pending then o else None
  }

  /** The table `startSession` may open: the active one, when it exists and is not occupied. */
  function StartableTable(active: Option<int>, tables: map<int, BilliardTable>): (r: Option<int>)
    ensures r.Some? <==> Truthy(active) && active.value in tables && tables[active.value].status != Occupied
    ensures r.Some? ==> r == active
  {
    if Truthy(active) && active.value in tables && tables[active.value].status != Occupied then active else None
  }

  /** An order after `saveCurrentOrder`: new lines, total and customer; everything else kept. */
  function Saved(o: Order, items: seq<CartItem>, customerId: Option<int>): (r: Order)
    ensures r.date == o.date && r.status == o.status && r.tableId == o.tableId && r.id == o.id
    ensures r.total == Total(items) as real && r.customerId == OrNull(customerId)
    ensures SameLines(ToCartItems(r.items), items)
  {
    CartOrderRoundTrip(items);
    o.(total := Total(items) as real, items := ToOrderLines(items), customerId := OrNull(customerId))
  }

  /** The pending order `startSession` creates from the current cart. */
  function NewOrder(id: int, now: int, tableId: int, items: seq<CartItem>, customerId: Option<int>): (r: Order)
    ensures r.status == Pending && r.date == now && r.tableId == Some(tableId) && r.id == Some(id)
    ensures r.total == Total(items) as real && r.customerId == OrNull(customerId)
    ensures SameLines(ToCartItems(r.items), items)
    ensures r.paymentMethod.None? && r.discount.None? && r.customDuration.None?
  {
    CartOrderRoundTrip(items);
    Order(Some(id), now, Total(items) as real, ToOrderLines(items), None, Pending, Some(tableId),
          OrNull(customerId), None, None, None, None, None, None)
  }

  /** An order after `checkout(amount)`. */
  function CompletedOrder(o: Order, amount: real, items: seq<CartItem>, customerId: Option<int>): (r: Order)
    ensures r.status == Completed && r.total == amount && r.paymentMethod == Some(Cash)
    ensures r.customerId == OrNull(customerId) && r.date == o.date && r.tableId == o.tableId && r.id == o.id
    ensures SameLines(ToCartItems(r.items), items)
  {
    CartOrderRoundTrip(items);
    o.(status := Completed, total := amount, items := ToOrderLines(items), paymentMethod := Some(Cash),
       customerId := OrNull(customerId))
  }

  /** Loyalty points one checkout earns: one point per 1000 paid. */
  function PointsEarned(amount: real): (p: int)
    ensures p as real * 1000.0 <= amount < (p as real + 1.0) * 1000.0
  {
    Floor(amount / 1000.0)
  }

  /** The customers after `checkout(amount)`: only the linked, existing customer gains points. */
  function AwardPoints(customers: map<int, Customer>, customerId: Option<int>, amount: real): (r: map<int, Customer>)
    ensures r.Keys == customers.Keys
    ensures forall k :: k in customers && Some(k) != customerId ==> r[k] == customers[k]
    ensures !Truthy(customerId) ==> r == customers
    ensures Truthy(customerId) && customerId.value in customers ==>
              r[customerId.value] == customers[customerId.value].(points := customers[customerId.value].points + PointsEarned(amount))
  {
    if Truthy(customerId) && customerId.value in customers then
      var c := customers[customerId.value];
      customers[customerId.value := c.(points := c.points + PointsEarned(amount))]
    else customers
  }

  /** Paying a non-negative amount never lowers anyone's points. */
  lemma AwardPointsMonotone(customers: map<int, Customer>, customerId: Option<int>, amount: real)
    requires amount >= 0.0
    ensures forall k :: k in customers ==> AwardPoints(customers, customerId, amount)[k].points >= customers[k].points
  {
  }

  /** Opening a session on an available table keeps the table/order link. */
  lemma StartKeepsLink(tables: map<int, BilliardTable>, orders: map<int, Order>, tid: int, id: int, o: Order)
    requires Consistent(tables, orders)
    requires tid in tables && tables[tid].status != Occupied
    requires id != 0 && id !in orders && o.status == Pending
    requires forall k :: k in tables && tables[k].currentOrderId.Some? ==> tables[k].currentOrderId.value != id
    ensures Consistent(tables[tid := tables[tid].(currentOrderId := Some(id), status := Occupied)], orders[id := o])
  {
    var tables' := tables[tid := tables[tid].(currentOrderId := Some(id), status := Occupied)];
    var orders' := orders[id := o];
    forall k | k in tables && k != tid
      ensures HoldsPendingOrder(tables'[k], orders') == HoldsPendingOrder(tables[k], orders)
    {
    }
  }

  /** Completing the linked order and freeing its table keeps the table/order link. */
  lemma CheckoutKeepsLink(tables: map<int, BilliardTable>, orders: map<int, Order>, orders': map<int, Order>, tid: int, oid: int)
    requires Consistent(tables, orders)
    requires tid in tables && tables[tid].currentOrderId == Some(oid) && oid != 0
    requires orders'.Keys == orders.Keys
    requires forall k :: k in orders && k != oid ==> orders'[k] == orders[k]
    requires oid in orders' ==> orders'[oid].status == Completed
    ensures Consistent(tables[tid := tables[tid].(status := Available, currentOrderId := None)], orders')
  {
    var tables' := tables[tid := tables[tid].(status := Available, currentOrderId := None)];
    forall k | k in tables && k != tid
      ensures HoldsPendingOrder(tables'[k], orders') == HoldsPendingOrder(tables[k], orders)
    {
      assert HoldsPendingOrder(tables[k], orders) ==> tables[k].currentOrderId != Some(oid) by {
        assert tables[tid].currentOrderId == Some(oid);
      }
    }
  }

  /** Selecting a table reports it occupied exactly when it holds a pending order, once the link holds. */
  lemma SelectedOccupiedIffPending(tableId: Option<int>, tables: map<int, BilliardTable>, orders: map<int, Order>)
    requires Consistent(tables, orders)
    ensures (PendingOrderOf(tableId, tables, orders).Some? || TableOccupied(tableId, tables))
            <==> PendingOrderOf(tableId, tables, orders).Some?
  {
  }

  /** `table?.status === 'occupied'` for the looked-up table. */
  predicate TableOccupied(tableId: Option<int>, tables: map<int, BilliardTable>) {
    Truthy(tableId) && tableId.value in tables && tables[tableId.value].status == Occupied
  }

  class Store {
    // Session state.
    var items: seq<CartItem>
    var activeTableId: Option<int>
    var isTableOccupied: bool
    var customerId: Option<int>
    var notes: seq<string>
    // The keyed tables, and the next key the order table hands out.
    var tables: map<int, BilliardTable>
    var orders: map<int, Order>
    var customers: map<int, Customer>
    var nextOrderId: int

    /** What the keyed tables guarantee: order keys are positive and below the next key, no table
        refers to a key not yet handed out, and a customer row carries its own key as id. */
    ghost predicate Valid()
      reads this
    {
      nextOrderId > 0
      && (forall k :: k in orders ==> 0 < k < nextOrderId)
      && (forall k :: k in tables && tables[k].currentOrderId.Some? ==> tables[k].currentOrderId.value < nextOrderId)
      && (forall k :: k in customers ==> customers[k].id == Some(k))
    }

    /** The database is opened with existing rows and an empty session. */
    constructor (tables0: map<int, BilliardTable>, orders0: map<int, Order>, customers0: map<int, Customer>, nextId: int)
      requires nextId > 0 && (forall k :: k in orders0 ==> 0 < k < nextId)
      requires forall k :: k in tables0 && tables0[k].currentOrderId.Some? ==> tables0[k].currentOrderId.value < nextId
      requires forall k :: k in customers0 ==> customers0[k].id == Some(k)
      ensures Valid()
      ensures items == [] && activeTableId == None && !isTableOccupied && customerId == None && notes == []
      ensures tables == tables0 && orders == orders0 && customers == customers0 && nextOrderId == nextId
    {
      items, activeTableId, isTableOccupied, customerId, notes := [], None, false, None, [];
      tables, orders, customers, nextOrderId := tables0, orders0, customers0, nextId;
    }

    /** `saveCurrentOrder`: write the lines, total and customer into the active table's order. */
    method SaveCurrentOrder()
      requires Valid()
      modifies this
      ensures Valid()
      ensures var t := old(LinkedOrderId(activeTableId, tables));
              orders == if t.Some? && t.value in old(orders) then old(orders)[t.value := Saved(old(orders)[t.value], items, customerId)]
                        else old(orders)
      ensures items == old(items) && activeTableId == old(activeTableId) && isTableOccupied == old(isTableOccupied)
      ensures customerId == old(customerId) && notes == old(notes)
      ensures tables == old(tables) && customers == old(customers) && nextOrderId == old(nextOrderId)
      ensures old(Consistent(tables, orders)) ==> Consistent(tables, orders)
    {
      if !Truthy(activeTableId) {
        return;
      }
      var tid := activeTableId.value;
      if tid !in tables {
        return;
      }
      var table := tables[tid];
      if !Truthy(table.currentOrderId) {
        return;
      }
      var oid := table.currentOrderId.value;
      if oid in orders {
        orders := orders[oid := Saved(orders[oid], items, customerId)];
        forall k | k in tables
          ensures HoldsPendingOrder(tables[k], orders) == HoldsPendingOrder(tables[k], old(orders))
        {
        }
      }
    }

    /** `setCustomer`: link a customer, then save. */
    method SetCustomer(c: Option<int>)
      requires Valid()
      modifies this
      ensures Valid() && customerId == c
      ensures var t := old(LinkedOrderId(activeTableId, tables));
              orders == if t.Some? && t.value in old(orders) then old(orders)[t.value := Saved(old(orders)[t.value], items, c)]
                        else old(orders)
      ensures items == old(items) && activeTableId == old(activeTableId) && isTableOccupied == old(isTableOccupied)
      ensures notes == old(notes) && tables == old(tables) && customers == old(customers) && nextOrderId == old(nextOrderId)
    {
      customerId := c;
      SaveCurrentOrder();
    }

    /** `setNotes`: replace the note list; nothing is persisted. */
    method SetNotes(ns: seq<string>)
      modifies this
      ensures notes == ns
      ensures items == old(items) && activeTableId == old(activeTableId) && isTableOccupied == old(isTableOccupied)
      ensures customerId == old(customerId) && tables == old(tables) && orders == old(orders)
      ensures customers == old(customers) && nextOrderId == old(nextOrderId)
    {
      notes := ns;
    }

    /** `addToCart`: bump the product's line or append a new one, then save. */
    method AddToCart(p: Product)
      requires Valid()
      modifies this
      ensures Valid() && items == AddedToCart(old(items), p)
      ensures var t := old(LinkedOrderId(activeTableId, tables));
              orders == if t.Some? && t.value in old(orders) then old(orders)[t.value := Saved(old(orders)[t.value], items, customerId)]
                        else old(orders)
      ensures activeTableId == old(activeTableId) && isTableOccupied == old(isTableOccupied) && customerId == old(customerId)
      ensures notes == old(notes) && tables == old(tables) && customers == old(customers) && nextOrderId == old(nextOrderId)
    {
      items := AddedToCart(items, p);
      SaveCurrentOrder();
    }

    /** `removeFromCart`: drop every line of the product, then save. */
    method RemoveFromCart(productId: int)
      requires Valid()
      modifies this
      ensures Valid() && items == RemovedFromCart(old(items), productId)
      ensures var t := old(LinkedOrderId(activeTableId, tables));
              orders == if t.Some? && t.value in old(orders) then old(orders)[t.value := Saved(old(orders)[t.value], items, customerId)]
                        else old(orders)
      ensures activeTableId == old(activeTableId) && isTableOccupied == old(isTableOccupied) && customerId == old(customerId)
      ensures notes == old(notes) && tables == old(tables) && customers == old(customers) && nextOrderId == old(nextOrderId)
    {
      items := RemovedFromCart(items, productId);
      SaveCurrentOrder();
    }

    /** `updateQuantity`: set the quantity of the product's lines, then save. */
    method UpdateQuantity(productId: int, quantity: int)
      requires Valid()
      modifies this
      ensures Valid() && items == WithQuantity(old(items), productId, quantity)
      ensures var t := old(LinkedOrderId(activeTableId, tables));
              orders == if t.Some? && t.value in old(orders) then old(orders)[t.value := Saved(old(orders)[t.value], items, customerId)]
                        else old(orders)
      ensures activeTableId == old(activeTableId) && isTableOccupied == old(isTableOccupied) && customerId == old(customerId)
      ensures notes == old(notes) && tables == old(tables) && customers == old(customers) && nextOrderId == old(nextOrderId)
    {
      items := WithQuantity(items, productId, quantity);
      SaveCurrentOrder();
    }

    /** `clearCart`: empty the lines, then save. */
    method ClearCart()
      requires Valid()
      modifies this
      ensures Valid() && items == [] && Total(items) == 0
      ensures var t := old(LinkedOrderId(activeTableId, tables));
              orders == if t.Some? && t.value in old(orders) then old(orders)[t.value := Saved(old(orders)[t.value], [], customerId)]
                        else old(orders)
      ensures activeTableId == old(activeTableId) && isTableOccupied == old(isTableOccupied) && customerId == old(customerId)
      ensures notes == old(notes) && tables == old(tables) && customers == old(customers) && nextOrderId == old(nextOrderId)
    {
      items := [];
      SaveCurrentOrder();
    }

    /** `setActiveTable`: make a table active and load its pending order into the cart, if it has one. */
    method SetActiveTable(tableId: Option<int>)
      requires Valid()
      modifies this
      ensures Valid() && activeTableId == tableId
      ensures var p := PendingOrderOf(tableId, tables, orders);
              if p.Some? then
                items == ToCartItems(orders[p.value].items) && isTableOccupied
                && customerId == OrNull(orders[p.value].customerId)
              else
                items == [] && customerId == None && isTableOccupied == TableOccupied(tableId, tables)
      ensures notes == old(notes) && tables == old(tables) && orders == old(orders)
      ensures customers == old(customers) && nextOrderId == old(nextOrderId)
    {
      activeTableId := tableId;
      if Truthy(tableId) {
        var tid := tableId.value;
        if tid in tables && Truthy(tables[tid].currentOrderId) {
          var oid := tables[tid].currentOrderId.value;
          if oid in orders && orders[oid].status == Pending {
            var order := orders[oid];
            items, isTableOccupied, customerId := ToCartItems(order.items), true, OrNull(order.customerId);
            return;
          }
        }
        items, isTableOccupied, customerId := [], tid in tables && tables[tid].status == Occupied, None;
      } else {
        items, isTableOccupied, customerId := [], false, None;
      }
    }

    /** `startSession`: on an available active table, create a pending order from the cart and occupy the table. */
    method StartSession(now: int)
      requires Valid()
      modifies this
      ensures Valid()
      ensures var t := old(StartableTable(activeTableId, tables));
              if t.None? then
                orders == old(orders) && tables == old(tables) && nextOrderId == old(nextOrderId)
                && isTableOccupied == old(isTableOccupied)
              else
                var id := old(nextOrderId);
                && id !in old(orders) && id != 0
                && orders == old(orders)[id := NewOrder(id, now, t.value, items, customerId)]
                && tables == old(tables)[t.value := old(tables)[t.value].(currentOrderId := Some(id), status := Occupied)]
                && nextOrderId == id + 1 && isTableOccupied
      ensures items == old(items) && activeTableId == old(activeTableId) && customerId == old(customerId)
      ensures notes == old(notes) && customers == old(customers)
      ensures old(Consistent(tables, orders)) ==> Consistent(tables, orders)
    {
      if !Truthy(activeTableId) {
        return;
      }
      var tid := activeTableId.value;
      if tid !in tables || tables[tid].status == Occupied {
        return;
      }
      if Consistent(tables, orders) {
        StartKeepsLink(tables, orders, tid, nextOrderId, NewOrder(nextOrderId, now, tid, items, customerId));
      }
      OpenOrder(tid, now);
    }

    /** The writes of `startSession`: the new order under the next key, and the table occupied and linked to it. */
    method OpenOrder(tid: int, now: int)
      requires Valid() && tid in tables
      modifies this
      ensures Valid()
      ensures var id := old(nextOrderId);
              id !in old(orders) && id != 0
              && orders == old(orders)[id := NewOrder(id, now, tid, items, customerId)]
              && tables == old(tables)[tid := old(tables)[tid].(currentOrderId := Some(id), status := Occupied)]
              && nextOrderId == id + 1 && isTableOccupied
      ensures items == old(items) && activeTableId == old(activeTableId) && customerId == old(customerId)
      ensures notes == old(notes) && customers == old(customers)
    {
      var orderId := nextOrderId;
      orders := orders[orderId := NewOrder(orderId, now, tid, items, customerId)];
      nextOrderId := nextOrderId + 1;
      tables := tables[tid := tables[tid].(currentOrderId := Some(orderId), status := Occupied)];
      isTableOccupied := true;
    }

    /** The loyalty step of `checkout`: the linked customer, when it exists, gains the points. */
    method AwardCustomerPoints(amount: real)
      requires Valid()
      modifies this
      ensures Valid() && customers == AwardPoints(old(customers), customerId, amount)
      ensures items == old(items) && activeTableId == old(activeTableId) && isTableOccupied == old(isTableOccupied)
      ensures customerId == old(customerId) && notes == old(notes) && tables == old(tables)
      ensures orders == old(orders) && nextOrderId == old(nextOrderId)
    {
      if Truthy(customerId) {
        var pointsEarned := PointsEarned(amount);
        if customerId.value in customers {
          var customer := customers[customerId.value];
          if Truthy(customer.id) {
            customers := customers[customer.id.value := customer.(points := customer.points + pointsEarned)];
          }
        }
      }
    }

    /** `checkout(amount)`: complete the active table's order, award points, free the table and clear the session. */
    method Checkout(amount: real)
      requires Valid()
      modifies this
      ensures Valid()
      ensures var t := old(LinkedOrderId(activeTableId, tables));
              if t.None? then
                orders == old(orders) && tables == old(tables) && customers == old(customers)
                && items == old(items) && activeTableId == old(activeTableId) && customerId == old(customerId)
              else
                var tid := old(activeTableId).value;
                && orders == (if t.value in old(orders)
                              then old(orders)[t.value := CompletedOrder(old(orders)[t.value], amount, old(items), old(customerId))]
                              else old(orders))
                && customers == AwardPoints(old(customers), old(customerId), amount)
                && tables == old(tables)[tid := old(tables)[tid].(status := Available, currentOrderId := None)]
                && items == [] && activeTableId == None && customerId == None
      ensures isTableOccupied == old(isTableOccupied) && notes == old(notes) && nextOrderId == old(nextOrderId)
      ensures old(Consistent(tables, orders)) ==> Consistent(tables, orders)
    {
      if !Truthy(activeTableId) {
        return;
      }
      var tid := activeTableId.value;
      if tid !in tables || !Truthy(tables[tid].currentOrderId) {
        return;
      }
      var oid := tables[tid].currentOrderId.value;
      ghost var orders0, tables0 := orders, tables;
      CompleteOrder(oid, amount);
      if Consistent(tables0, orders0) {
        CheckoutKeepsLink(tables0, orders0, orders, tid, oid);
      }
      AwardCustomerPoints(amount);
      ReleaseTable(tid);
    }

    /** The order update of `checkout`: the order row, when present, is completed with the cart and the amount paid. */
    method CompleteOrder(oid: int, amount: real)
      requires Valid()
      modifies this
      ensures Valid()
      ensures orders == if oid in old(orders) then old(orders)[oid := CompletedOrder(old(orders)[oid], amount, items, customerId)]
                        else old(orders)
      ensures items == old(items) && activeTableId == old(activeTableId) && isTableOccupied == old(isTableOccupied)
      ensures customerId == old(customerId) && notes == old(notes) && tables == old(tables)
      ensures customers == old(customers) && nextOrderId == old(nextOrderId)
    {
      if oid in orders {
        orders := orders[oid := CompletedOrder(orders[oid], amount, items, customerId)];
      }
    }

    /** The last steps of `checkout`: the table is freed and unlinked, and the session is cleared. */
    method ReleaseTable(tid: int)
      requires Valid() && tid in tables
      modifies this
      ensures Valid()
      ensures tables == old(tables)[tid := old(tables)[tid].(status := Available, currentOrderId := None)]
      ensures items == [] && activeTableId == None && customerId == None
      ensures isTableOccupied == old(isTableOccupied) && notes == old(notes) && orders == old(orders)
      ensures customers == old(customers) && nextOrderId == old(nextOrderId)
    {
      tables := tables[tid := tables[tid].(status := Available, currentOrderId := None)];
      items, activeTableId, customerId := [], None, None;
    }
  }

  /**
   * After any action has saved the cart, leaving the table and selecting it
   * again restores the same lines and customer: save and reload are inverse.
   */
  method ReselectRestoresCart(s: Store)
    requires s.Valid()
    requires PendingOrderOf(s.activeTableId, s.tables, s.orders).Some?
    modifies s
    ensures SameLines(s.items, old(s.items)) && s.customerId == OrNull(old(s.customerId))
    ensures s.isTableOccupied && s.activeTableId == old(s.activeTableId)
  {
    s.SaveCurrentOrder();
    s.SetActiveTable(s.activeTableId);
  }
}

/**
 * The order history page: the list filtered by status, by a search over
 * the order id and the table name, and by an inclusive date range; the
 * table name shown for an order; and the counters for today's orders.
 */
module OrdersPage {
  import opened Common
  import opened Text
  import opened Entities

  /** The status drop-down: every order, or one status. */
  datatype StatusFilter = All | Only(status: OrderStatus)

  /** The last millisecond of a day, given the first: 23:59:59.999 is 86 399 999 ms later. */
  const LastMsOfDay := 86399999

  /** `tables.find(t => t.id === id)`: the first table with that id; none when the tables have not loaded. */
  function FindTable(tables: Option<seq<BilliardTable>>, id: Option<int>): (r: Option<BilliardTable>)
    ensures r.Some? ==> tables.Some? && r.value in tables.value && r.value.id == id
    ensures tables.Some? && (exists t :: t in tables.value && t.id == id) ==> r.Some?
  {
    if tables.None? then None else FindIn(tables.value, id)
  }

  function FindIn(ts: seq<BilliardTable>, id: Option<int>): (r: Option<BilliardTable>)
    ensures r.Some? ==> r.value in ts && r.value.id == id
    ensures (exists t :: t in ts && t.id == id) ==> r.Some?
    decreases |ts|
  {
    if ts == [] then None
    else if ts[0].id == id then Some(ts[0])
    else
      var r := FindIn(ts[1..], id);
      assert forall t :: t in ts && t != ts[0] ==> t in ts[1..];
      r
  }

  /**
   * The search test: the order id's decimal text contains the lower-cased
   * query, or the name of the order's table, lower-cased, does.
   */
  predicate MatchesQuery(o: Order, tables: Option<seq<BilliardTable>>, query: string) {
    var q := Lower(query);
    var table := FindTable(tables, o.tableId);
    (o.id.Some? && Contains(IntToString(o.id.value), q))
    || (table.Some? && Contains(Lower(table.value.name), q))
  }

  /**
   * Whether an order stays in the list. `dateFrom` and `dateTo` are the
   * first millisecond of the chosen days; the range includes both days whole.
   */
  predicate Kept(o: Order, tables: Option<seq<BilliardTable>>, status: StatusFilter, query: string,
                 dateFrom: Option<int>, dateTo: Option<int>) {
    (status.All? || o.status == status.status)
    && (query == "" || MatchesQuery(o, tables, query))
    && (dateFrom.None? || o.date >= dateFrom.value)
    && (dateTo.None? || o.date <= dateTo.value + LastMsOfDay)
  }

  /** `filteredOrders`: the orders that pass every filter, in their order; nothing before the orders load. */
  function FilteredOrders(orders: Option<seq<Order>>, tables: Option<seq<BilliardTable>>, status: StatusFilter,
                          query: string, dateFrom: Option<int>, dateTo: Option<int>): (r: seq<Order>)
    ensures orders.None? ==> r == []
    ensures orders.Some? ==> Subsequence(r, orders.value)
    ensures orders.Some? ==> forall o :: o in orders.value ==> (o in r <==> Kept(o, tables, status, query, dateFrom, dateTo))
    ensures status.Only? ==> forall i :: 0 <= i < |r| ==> r[i].status == status.status
  {
    if orders.None? then []
    else
      var r := Filter(orders.value, (o: Order) => Kept(o, tables, status, query, dateFrom, dateTo));
      assert forall o :: o in r ==> Kept(o, tables, status, query, dateFrom, dateTo);
      r
  }

  /** With no filter set, the whole list is shown. */
  lemma NoFilterShowsAll(orders: seq<Order>, tables: Option<seq<BilliardTable>>)
    ensures FilteredOrders(Some(orders), tables, All, "", None, None) == orders
  {
    FilterAll(orders, (o: Order) => Kept(o, tables, All, "", None, None));
  }

  /** Both ends of the date range are inclusive: the first and the last millisecond of the chosen days pass. */
  lemma DateBoundsInclusive(o: Order, tables: Option<seq<BilliardTable>>, from: int, to: int)
    requires o.date == from || o.date == to + LastMsOfDay
    requires from <= to
    ensures Kept(o, tables, All, "", Some(from), Some(to))
  {
  }

  /** An order from the millisecond after the `dateTo` day, or before the `dateFrom` day, is dropped. */
  lemma DateBoundsTight(o: Order, tables: Option<seq<BilliardTable>>, from: int, to: int)
    requires o.date == from - 1 || o.date == to + LastMsOfDay + 1
    ensures !Kept(o, tables, All, "", Some(from), Some(to))
  {
  }

  /** Searching for an order's own id finds it. */
  lemma SearchByOwnId(o: Order, tables: Option<seq<BilliardTable>>, id: nat)
    requires o.id == Some(id as int)
    ensures MatchesQuery(o, tables, IntToString(id))
  {
    var s := IntToString(id);
    LowerDigits(s);
    assert Lower(s) == s;
    ContainsSelf(s);
  }

  /** Lower-casing leaves digit text alone. */
  lemma LowerDigits(s: string)
    requires forall i :: 0 <= i < |s| ==> '0' <= s[i] <= '9'
    ensures Lower(s) == s
  {
  }

  lemma ContainsSelf(s: string)
    ensures Contains(s, s)
  {
    ContainsAt(s, s);
    assert OccursAt(s, s, 0);
  }

  /** `getTableName`: "Không có bàn" without a table, the table's name when it has one, else "Bàn {id}". */
  function TableName(tables: Option<seq<BilliardTable>>, tableId: Option<int>): (name: string)
    ensures !Truthy(tableId) ==> name == "Không có bàn"
    ensures Truthy(tableId) && FindTable(tables, tableId).Some? && FindTable(tables, tableId).value.name != ""
            ==> name == FindTable(tables, tableId).value.name
    ensures Truthy(tableId) && (FindTable(tables, tableId).None? || FindTable(tables, tableId).value.name == "")
            ==> name == "Bàn " + IntToString(tableId.value)
  {
    if !Truthy(tableId) then "Không có bàn"
    else
      var table := FindTable(tables, tableId);
      if table.Some? && table.value.name != "" then table.value.name
      else "Bàn " + IntToString(tableId.value)
  }

  /** The four counters on top of the page. */
  datatype Stats = Stats(total: nat, pending: nat, completed: nat, revenue: real)

  function TodayOrders(orders: seq<Order>, today: int): (r: seq<Order>)
    ensures Subsequence(r, orders)
    ensures forall o :: o in orders ==> (o in r <==> o.date >= today)
  {
    Filter(orders, (o: Order) => o.date >= today)
  }

  function WithStatus(orders: seq<Order>, s: OrderStatus): (r: seq<Order>)
    ensures forall o :: o in r ==> o.status == s
    ensures forall o :: o in orders ==> (o in r <==> o.status == s)
  {
    Filter(orders, (o: Order) => o.status == s)
  }

  /** `reduce((sum, o) => sum + o.total, 0)`. */
  function SumTotals(orders: seq<Order>): real
    decreases |orders|
  {
    if orders == [] then 0.0 else orders[0].total + SumTotals(orders[1..])
  }

  /**
   * `stats`: today's orders (`today` is the first millisecond of the day),
   * how many are pending and completed, and the completed ones' takings.
   */
  function TodayStats(orders: Option<seq<Order>>, today: int): (st: Stats)
    ensures orders.None? ==> st == Stats(0, 0, 0, 0.0)
    ensures orders.Some? ==> st.total == |TodayOrders(orders.value, today)|
    ensures orders.Some? ==> st.pending == |WithStatus(TodayOrders(orders.value, today), Pending)|
    ensures orders.Some? ==> st.completed == |WithStatus(TodayOrders(orders.value, today), Completed)|
    ensures orders.Some? ==> st.revenue == SumTotals(WithStatus(TodayOrders(orders.value, today), Completed))
  {
    if orders.None? then Stats(0, 0, 0, 0.0)
    else
      var todays := TodayOrders(orders.value, today);
      Stats(|todays|, |WithStatus(todays, Pending)|, |WithStatus(todays, Completed)|,
            SumTotals(WithStatus(todays, Completed)))
  }

  /** No order is both pending and completed, so the two counters never exceed today's total. */
  lemma StatsCountsBounded(orders: Option<seq<Order>>, today: int)
    ensures var st := TodayStats(orders, today); st.pending + st.completed <= st.total
  {
    if orders.Some? {
      var todays := TodayOrders(orders.value, today);
      FilterDisjointCount(todays, (o: Order) => o.status == Pending, (o: Order) => o.status == Completed);
    }
  }

  /** Takings are never negative when no order has a negative total. */
  lemma {:induction false} SumTotalsNonNegative(orders: seq<Order>)
    requires forall i :: 0 <= i < |orders| ==> orders[i].total >= 0.0
    ensures SumTotals(orders) >= 0.0
    decreases |orders|
  {
    if orders != [] {
      SumTotalsNonNegative(orders[1..]);
    }
  }

  /** Today's takings are never negative when no order has a negative total. */
  lemma RevenueNonNegative(orders: seq<Order>, today: int)
    requires forall i :: 0 <= i < |orders| ==> orders[i].total >= 0.0
    ensures TodayStats(Some(orders), today).revenue >= 0.0
  {
    var completed := WithStatus(TodayOrders(orders, today), Completed);
    assert forall o :: o in completed ==> o in orders;
    SumTotalsNonNegative(completed);
  }
}

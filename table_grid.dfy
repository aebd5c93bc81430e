/**
 * The table grid of the point-of-sale screen: every table joined with the
 * start time of the order it holds, and the running timer each occupied
 * tile shows.
 */
module TableGrid {
  import opened Common
  import opened Entities
  import opened Clock

  /** A tile: the table's own fields and the date of its order, when that order was found. */
  datatype Tile = Tile(table: BilliardTable, startTime: Option<int>)

  /** The keys the grid asks the order table for: the truthy links of the tables. */
  predicate Requested(tables: seq<BilliardTable>, k: int) {
    exists i :: 0 <= i < |tables| && Truthy(tables[i].currentOrderId) && tables[i].currentOrderId.value == k
  }

  /** `db.orders.where('id').anyOf(occupiedOrderIds)`: the stored orders some table links to. */
  function LinkedOrders(tables: seq<BilliardTable>, orders: map<int, Order>): (r: map<int, Order>)
    ensures forall k :: k in r <==> k in orders && Requested(tables, k)
    ensures forall k :: k in r ==> r[k] == orders[k]
  {
    map k | k in orders && Requested(tables, k) :: orders[k]
  }

  /** `orders.find(o => o.id === table.currentOrderId)`, here by key: the fetched order's date, or null. */
  function StartTime(t: BilliardTable, fetched: map<int, Order>): Option<int> {
    if t.currentOrderId.Some? && t.currentOrderId.value in fetched then Some(fetched[t.currentOrderId.value].date)
    else None
  }

  /** The tiles: one per table, in the tables' order, each table kept whole. */
  function Tiles(tables: seq<BilliardTable>, orders: map<int, Order>): (r: seq<Tile>)
    ensures |r| == |tables|
    ensures forall i :: 0 <= i < |tables| ==> r[i].table == tables[i]
  {
    var fetched := LinkedOrders(tables, orders);
    seq(|tables|, i requires 0 <= i < |tables| => Tile(tables[i], StartTime(tables[i], fetched)))
  }

  /**
   * A tile has a start time exactly when its table links (truthily) to a
   * stored order, and it is that order's date.
   */
  lemma StartTimeOfLinkedOrder(tables: seq<BilliardTable>, orders: map<int, Order>, i: int)
    requires 0 <= i < |tables|
    ensures var tile := Tiles(tables, orders)[i];
            var link := tables[i].currentOrderId;
            (tile.startTime.Some? <==> Truthy(link) && link.value in orders)
            && (tile.startTime.Some? ==> tile.startTime == Some(orders[link.value].date))
  {
    var link := tables[i].currentOrderId;
    if Truthy(link) {
      assert Requested(tables, link.value);
    } else if link.Some? {
      assert !Requested(tables, link.value);
    }
  }

  /** The running timer is shown only on an occupied tile that has a start time. */
  predicate ShowsTimer(tile: Tile) {
    tile.table.status == Occupied && tile.startTime.Some?
  }

  /** The timer of a shown tile: whole hours and the minutes within the hour since the start. */
  function TileTimer(tile: Tile, now: int): (hm: (int, int))
    requires ShowsTimer(tile)
    ensures now >= tile.startTime.value ==> 0 <= hm.1 < 60 && hm.0 >= 0
    ensures now >= tile.startTime.value ==> hm == ClockParts((now - tile.startTime.value) / MsPerMinute)
  {
    var diff := now - tile.startTime.value;
    if diff >= 0 then
      TimerAgreesWithMinutes(diff);
      TimerParts(diff)
    else
      TimerParts(diff)
  }

  /** A table without an order link never shows a timer, even when marked occupied. */
  lemma NoLinkNoTimer(tables: seq<BilliardTable>, orders: map<int, Order>, i: int)
    requires 0 <= i < |tables|
    requires !Truthy(tables[i].currentOrderId)
    ensures !ShowsTimer(Tiles(tables, orders)[i])
  {
    StartTimeOfLinkedOrder(tables, orders, i);
  }
}

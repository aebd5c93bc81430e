/**
 * The cart panel: the table fee for the running session, the grand total
 * handed to the payment dialog, and the minus/plus buttons on a cart line.
 */
module CartView {
  import opened Common
  import opened Entities
  import opened CartStore
  import opened Clock

  /** The start date the panel reads: the date of the order the active table refers to, whatever its status. */
  function SessionStart(active: Option<int>, tables: map<int, BilliardTable>, orders: map<int, Order>): (r: Option<int>)
    ensures r.Some? <==> LinkedOrderId(active, tables).Some? && LinkedOrderId(active, tables).value in orders
    ensures r.Some? ==> r.value == orders[LinkedOrderId(active, tables).value].date
  {
    var o := LinkedOrderId(active, tables);
    if o.Some? && o.value in orders then Some(orders[o.value].date) else None
  }

  /**
   * The elapsed minutes the panel shows for the active table's session:
   * 0 with no linked order, else the whole minutes since the order's date.
   */
  function SessionMinutes(now: int, active: Option<int>, tables: map<int, BilliardTable>, orders: map<int, Order>): (r: int)
    ensures SessionStart(active, tables, orders).None? ==> r == 0
    ensures SessionStart(active, tables, orders).Some? ==>
              var d := SessionStart(active, tables, orders).value;
              r * MsPerMinute <= now - d < r * MsPerMinute + MsPerMinute
  {
    ElapsedMinutes(now, SessionStart(active, tables, orders))
  }

  /** The hourly rate the panel charges: the active table's own rate, 0 when unset. */
  function RateOf(active: Option<int>, tables: map<int, BilliardTable>): (r: int)
    ensures Truthy(active) && active.value in tables && Truthy(tables[active.value].pricePerHour)
            ==> r == tables[active.value].pricePerHour.value
    ensures !(Truthy(active) && active.value in tables && Truthy(tables[active.value].pricePerHour)) ==> r == 0
  {
    if Truthy(active) && active.value in tables then OrElse(OrNull(tables[active.value].pricePerHour), 0) else 0
  }

  /** Blocks charged for `elapsed` minutes: at least one, and the fewest that cover the elapsed time. */
  function BlocksUsed(elapsed: int, block: int): (k: int)
    requires block > 0
    ensures k >= 1 && elapsed <= k * block
    ensures k == 1 || (k - 1) * block < elapsed
  {
    Max(1, CeilDiv(elapsed, block))
  }

  /** No smaller positive number of blocks covers the elapsed time. */
  lemma BlocksUsedLeast(elapsed: int, block: int, j: int)
    requires block > 0 && j >= 1 && elapsed <= j * block
    ensures BlocksUsed(elapsed, block) <= j
  {
    var k := BlocksUsed(elapsed, block);
    if k > j {
      IntMulMonotone(j, k - 1, block);
    }
  }

  lemma IntMulMonotone(a: int, b: int, c: int)
    requires a <= b && c >= 0
    ensures a * c <= b * c
  {
    assert b * c - a * c == (b - a) * c;
  }

  /** More minutes never mean fewer blocks. */
  lemma BlocksUsedMonotone(e1: int, e2: int, block: int)
    requires block > 0 && e1 <= e2
    ensures BlocksUsed(e1, block) <= BlocksUsed(e2, block)
  {
    BlocksUsedLeast(e1, block, BlocksUsed(e2, block));
  }

  /** `blocks * pricePerBlock`, where a block costs `pricePerHour * (blockDuration / 60)`. */
  function BlockCharge(blocks: int, blockDuration: int, pricePerHour: int): real {
    blocks as real * (pricePerHour as real * (blockDuration as real / 60.0))
  }

  /** More blocks never cost less at a non-negative rate. */
  lemma BlockChargeMonotone(k1: int, k2: int, blockDuration: int, pricePerHour: int)
    requires k1 <= k2 && blockDuration >= 0 && pricePerHour >= 0
    ensures BlockCharge(k1, blockDuration, pricePerHour) <= BlockCharge(k2, blockDuration, pricePerHour)
  {
    var unit := pricePerHour as real * (blockDuration as real / 60.0);
    MulNonNegative(pricePerHour as real, blockDuration as real / 60.0);
    MulMonotone(k1 as real, k2 as real, unit);
  }

  /**
   * The table fee: nothing while the table is not occupied; in block mode a
   * whole number of blocks at `pricePerHour * blockDuration / 60` each; in
   * hourly mode a whole number of hours, at least one.
   */
  function TableFee(occupied: bool, blockBilling: bool, blockDuration: int, pricePerHour: int, elapsed: int): (fee: real)
    requires occupied && blockBilling ==> blockDuration > 0
    ensures !occupied ==> fee == 0.0
  {
    if !occupied then 0.0
    else if blockBilling then
      BlockCharge(BlocksUsed(elapsed, blockDuration), blockDuration, pricePerHour)
    else
      (pricePerHour * BlocksUsed(elapsed, 60)) as real
  }

  /** At a non-negative rate the fee is never negative. */
  lemma FeeNonNegative(occupied: bool, blockBilling: bool, blockDuration: int, pricePerHour: int, elapsed: int)
    requires occupied && blockBilling ==> blockDuration > 0
    requires pricePerHour >= 0
    ensures TableFee(occupied, blockBilling, blockDuration, pricePerHour, elapsed) >= 0.0
  {
    if occupied && blockBilling {
      var k := BlocksUsed(elapsed, blockDuration);
      assert pricePerHour as real * (blockDuration as real / 60.0) >= 0.0;
      assert k as real >= 1.0;
    } else if occupied {
      assert BlocksUsed(elapsed, 60) >= 1;
    }
  }

  /**
   * The minimum charge: an occupied table always pays at least one whole
   * hour, or one whole block, and a session no longer than that pays
   * exactly it.
   */
  lemma MinimumCharge(blockDuration: int, pricePerHour: int, elapsed: int)
    requires pricePerHour >= 0
    ensures TableFee(true, false, blockDuration, pricePerHour, elapsed) >= pricePerHour as real
    ensures elapsed <= 60 ==> TableFee(true, false, blockDuration, pricePerHour, elapsed) == pricePerHour as real
    ensures blockDuration > 0 ==>
              TableFee(true, true, blockDuration, pricePerHour, elapsed) >= BlockCharge(1, blockDuration, pricePerHour)
    ensures 0 < blockDuration && elapsed <= blockDuration ==>
              TableFee(true, true, blockDuration, pricePerHour, elapsed) == BlockCharge(1, blockDuration, pricePerHour)
  {
    var hours := BlocksUsed(elapsed, 60);
    IntMulMonotone(1, hours, pricePerHour);
    assert pricePerHour * hours == hours * pricePerHour;
    if elapsed <= 60 {
      BlocksUsedLeast(elapsed, 60, 1);
    }
    if blockDuration > 0 {
      BlockChargeMonotone(1, BlocksUsed(elapsed, blockDuration), blockDuration, pricePerHour);
      if elapsed <= blockDuration {
        BlocksUsedLeast(elapsed, blockDuration, 1);
      }
    }
  }

  /** At a non-negative rate the fee never goes down as the session runs on. */
  lemma FeeMonotone(blockBilling: bool, blockDuration: int, pricePerHour: int, e1: int, e2: int)
    requires blockBilling ==> blockDuration > 0
    requires pricePerHour >= 0 && e1 <= e2
    ensures TableFee(true, blockBilling, blockDuration, pricePerHour, e1)
            <= TableFee(true, blockBilling, blockDuration, pricePerHour, e2)
  {
    if blockBilling {
      BlockFeeMonotone(blockDuration, pricePerHour, e1, e2);
    } else {
      HourlyFeeMonotone(blockDuration, pricePerHour, e1, e2);
    }
  }

  lemma BlockFeeMonotone(blockDuration: int, pricePerHour: int, e1: int, e2: int)
    requires blockDuration > 0 && pricePerHour >= 0 && e1 <= e2
    ensures TableFee(true, true, blockDuration, pricePerHour, e1) <= TableFee(true, true, blockDuration, pricePerHour, e2)
  {
    BlocksUsedMonotone(e1, e2, blockDuration);
    BlockChargeMonotone(BlocksUsed(e1, blockDuration), BlocksUsed(e2, blockDuration), blockDuration, pricePerHour);
  }

  lemma HourlyFeeMonotone(blockDuration: int, pricePerHour: int, e1: int, e2: int)
    requires pricePerHour >= 0 && e1 <= e2
    ensures TableFee(true, false, blockDuration, pricePerHour, e1) <= TableFee(true, false, blockDuration, pricePerHour, e2)
  {
    var k1, k2 := BlocksUsed(e1, 60), BlocksUsed(e2, 60);
    BlocksUsedMonotone(e1, e2, 60);
    IntMulMonotone(k1, k2, pricePerHour);
    assert pricePerHour * k1 <= pricePerHour * k2;
  }

  lemma MulNonNegative(a: real, b: real)
    requires a >= 0.0 && b >= 0.0
    ensures a * b >= 0.0
  {
  }

  lemma MulMonotone(a: real, b: real, c: real)
    requires a <= b && c >= 0.0
    ensures a * c <= b * c
  {
    assert b * c - a * c == (b - a) * c;
  }

  /** With one-hour blocks, block billing charges exactly what hourly billing charges. */
  lemma HourBlocksMatchHourly(pricePerHour: int, elapsed: int)
    ensures TableFee(true, true, 60, pricePerHour, elapsed) == TableFee(true, false, 60, pricePerHour, elapsed)
  {
    var k := BlocksUsed(elapsed, 60);
    assert 60 as real / 60.0 == 1.0;
    assert k as real * (pricePerHour as real * 1.0) == (pricePerHour * k) as real;
  }

  /**
   * In block mode the charge covers every minute played at the hourly rate and
   * exceeds that by less than one block (for a session of at least one minute).
   */
  lemma BlockFeeBounds(blockDuration: int, pricePerHour: int, elapsed: int)
    requires blockDuration > 0 && pricePerHour >= 0 && elapsed >= 1
    ensures pricePerHour as real * elapsed as real / 60.0 <= TableFee(true, true, blockDuration, pricePerHour, elapsed)
    ensures TableFee(true, true, blockDuration, pricePerHour, elapsed)
            <= pricePerHour as real * (elapsed + blockDuration) as real / 60.0
  {
    var k := BlocksUsed(elapsed, blockDuration);
    var fee := TableFee(true, true, blockDuration, pricePerHour, elapsed);
    assert fee == pricePerHour as real * (k * blockDuration) as real / 60.0;
    assert elapsed <= k * blockDuration < elapsed + blockDuration;
    MulMonotone(elapsed as real, (k * blockDuration) as real, pricePerHour as real / 60.0);
    MulMonotone((k * blockDuration) as real, (elapsed + blockDuration) as real, pricePerHour as real / 60.0);
  }

  /** Settings screen example: 60000 per hour in 5-minute blocks. */
  lemma FiveMinuteBlocksExample(elapsed: int)
    requires 0 <= elapsed <= 10
    ensures elapsed <= 5 ==> TableFee(true, true, 5, 60000, elapsed) == 5000.0
    ensures 6 <= elapsed ==> TableFee(true, true, 5, 60000, elapsed) == 10000.0
  {
    var k := BlocksUsed(elapsed, 5);
    if elapsed <= 5 {
      BlocksUsedLeast(elapsed, 5, 1);
    } else {
      BlocksUsedLeast(elapsed, 5, 2);
    }
  }

  /** The panel's grand total: products plus the table fee. */
  function GrandTotal(items: seq<CartItem>, fee: real): (g: real)
    ensures fee >= 0.0 ==> g >= Total(items) as real
    ensures g - fee == Total(items) as real
  {
    Total(items) as real + fee
  }

  /** The lines after the minus button on `item`: one fewer, or the line removed at quantity 1 or less. */
  function AfterMinus(items: seq<CartItem>, item: CartItem): seq<CartItem>
    requires item.product.id.Some?
  {
    if item.quantity > 1 then WithQuantity(items, item.product.id.value, item.quantity - 1)
    else RemovedFromCart(items, item.product.id.value)
  }

  /** The lines after the plus button on `item`. */
  function AfterPlus(items: seq<CartItem>, item: CartItem): seq<CartItem>
    requires item.product.id.Some?
  {
    WithQuantity(items, item.product.id.value, item.quantity + 1)
  }

  /** Changing line k alone (same price) moves the total by the difference of that line. */
  lemma {:induction false} TotalUpdateAt(items: seq<CartItem>, r: seq<CartItem>, k: int)
    requires 0 <= k < |items| == |r|
    requires forall i :: 0 <= i < |items| && i != k ==> r[i] == items[i]
    ensures Total(r) == Total(items) - LineTotal(items[k]) + LineTotal(r[k])
    decreases |items|
  {
    if k > 0 {
      TotalUpdateAt(items[1..], r[1..], k - 1);
    } else {
      assert r[1..] == items[1..];
    }
  }

  lemma {:induction false} FilterNone<T(!new)>(s: seq<T>, p: T -> bool)
    requires forall i :: 0 <= i < |s| ==> !p(s[i])
    ensures Filter(s, p) == []
    decreases |s|
  {
    if s != [] {
      FilterNone(s[1..], p);
    }
  }

  /** With distinct ids, the lines of one product total exactly that product's line. */
  lemma {:induction false} TotalOfProduct(items: seq<CartItem>, k: int)
    requires DistinctIds(items) && 0 <= k < |items| && items[k].product.id.Some?
    ensures Total(LinesOf(items, items[k].product.id.value)) == LineTotal(items[k])
    decreases |items|
  {
    var pid := items[k].product.id.value;
    var p := (x: CartItem) => x.product.id == Some(pid);
    if k == 0 {
      FilterNone(items[1..], p);
      assert LinesOf(items, pid) == [items[0]];
    } else {
      assert !p(items[0]);
      TotalOfProduct(items[1..], k - 1);
      assert items[1..][k - 1] == items[k];
    }
  }

  /** With distinct ids, setting the quantity of line k's product changes line k and no other. */
  lemma OnlyLineChanges(items: seq<CartItem>, k: int, q: int)
    requires DistinctIds(items) && 0 <= k < |items| && items[k].product.id.Some?
    ensures var r := WithQuantity(items, items[k].product.id.value, q);
            (forall i :: 0 <= i < |items| && i != k ==> r[i] == items[i])
            && r[k] == items[k].(quantity := q)
  {
    var r := WithQuantity(items, items[k].product.id.value, q);
    forall i | 0 <= i < |items| && i != k
      ensures r[i] == items[i]
    {
      if i < k {
        assert items[i].product.id != items[k].product.id;
      } else {
        assert items[k].product.id != items[i].product.id;
      }
    }
  }

  /** One more unit on a line adds one unit price to the line's total. */
  lemma LineTotalStep(item: CartItem, q: int)
    ensures LineTotal(item.(quantity := q + 1)) == LineTotal(item.(quantity := q)) + item.product.price
  {
    assert item.product.price * (q + 1) == item.product.price * q + item.product.price;
  }

  /** In a cart with distinct ids, the minus button lowers the total by one unit price. */
  lemma MinusLowersTotal(items: seq<CartItem>, k: int)
    requires DistinctIds(items) && 0 <= k < |items| && items[k].product.id.Some? && items[k].quantity >= 1
    ensures Total(AfterMinus(items, items[k])) == Total(items) - items[k].product.price
  {
    if items[k].quantity > 1 {
      MinusDecrements(items, k);
    } else {
      MinusRemoves(items, k);
    }
  }

  lemma MinusDecrements(items: seq<CartItem>, k: int)
    requires DistinctIds(items) && 0 <= k < |items| && items[k].product.id.Some? && items[k].quantity > 1
    ensures Total(WithQuantity(items, items[k].product.id.value, items[k].quantity - 1)) == Total(items) - items[k].product.price
  {
    var item := items[k];
    var r := WithQuantity(items, item.product.id.value, item.quantity - 1);
    OnlyLineChanges(items, k, item.quantity - 1);
    TotalUpdateAt(items, r, k);
    LineTotalStep(item, item.quantity - 1);
    assert item.(quantity := item.quantity - 1 + 1) == item;
  }

  lemma MinusRemoves(items: seq<CartItem>, k: int)
    requires DistinctIds(items) && 0 <= k < |items| && items[k].product.id.Some? && items[k].quantity == 1
    ensures Total(RemovedFromCart(items, items[k].product.id.value)) == Total(items) - items[k].product.price
  {
    TotalOfProduct(items, k);
  }

  /** With distinct ids, the plus button does what adding the same product again does. */
  lemma PlusIsAddAgain(items: seq<CartItem>, k: int)
    requires DistinctIds(items) && 0 <= k < |items| && items[k].product.id.Some?
    ensures AfterPlus(items, items[k]) == AddedToCart(items, items[k].product)
  {
    var r := AfterPlus(items, items[k]);
    assert HasProduct(items, items[k].product.id);
    var a := AddedToCart(items, items[k].product);
    assert |r| == |a|;
    forall i | 0 <= i < |r|
      ensures r[i] == a[i]
    {
    }
  }

  /** The plus button changes line k alone, and that line's total grows by one unit price. */
  lemma PlusChangesOneLine(items: seq<CartItem>, k: int)
    requires DistinctIds(items) && 0 <= k < |items| && items[k].product.id.Some?
    ensures var r := AfterPlus(items, items[k]);
            |r| == |items| && (forall i :: 0 <= i < |items| && i != k ==> r[i] == items[i])
            && LineTotal(r[k]) == LineTotal(items[k]) + items[k].product.price
  {
    var item := items[k];
    OnlyLineChanges(items, k, item.quantity + 1);
    LineTotalStep(item, item.quantity);
    assert item.(quantity := item.quantity) == item;
  }

  /** In a cart with distinct ids, the plus button raises the total by one unit price. */
  lemma PlusRaisesTotal(items: seq<CartItem>, k: int)
    requires DistinctIds(items) && 0 <= k < |items| && items[k].product.id.Some?
    ensures Total(AfterPlus(items, items[k])) == Total(items) + items[k].product.price
  {
    PlusChangesOneLine(items, k);
    TotalUpdateAt(items, AfterPlus(items, items[k]), k);
  }

  /** The minus button on a cart line. */
  method MinusButton(s: Store, item: CartItem)
    requires s.Valid() && item.product.id.Some?
    modifies s
    ensures s.Valid() && s.items == AfterMinus(old(s.items), item)
    ensures var t := old(LinkedOrderId(s.activeTableId, s.tables));
            s.orders == if t.Some? && t.value in old(s.orders) then old(s.orders)[t.value := Saved(old(s.orders)[t.value], s.items, s.customerId)]
                        else old(s.orders)
    ensures s.activeTableId == old(s.activeTableId) && s.isTableOccupied == old(s.isTableOccupied) && s.customerId == old(s.customerId)
    ensures s.notes == old(s.notes) && s.tables == old(s.tables) && s.customers == old(s.customers) && s.nextOrderId == old(s.nextOrderId)
  {
    if item.quantity > 1 {
      s.UpdateQuantity(item.product.id.value, item.quantity - 1);
    } else {
      s.RemoveFromCart(item.product.id.value);
    }
  }

  /** The plus button on a cart line. */
  method PlusButton(s: Store, item: CartItem)
    requires s.Valid() && item.product.id.Some?
    modifies s
    ensures s.Valid() && s.items == AfterPlus(old(s.items), item)
    ensures var t := old(LinkedOrderId(s.activeTableId, s.tables));
            s.orders == if t.Some? && t.value in old(s.orders) then old(s.orders)[t.value := Saved(old(s.orders)[t.value], s.items, s.customerId)]
                        else old(s.orders)
    ensures s.activeTableId == old(s.activeTableId) && s.isTableOccupied == old(s.isTableOccupied) && s.customerId == old(s.customerId)
    ensures s.notes == old(s.notes) && s.tables == old(s.tables) && s.customers == old(s.customers) && s.nextOrderId == old(s.nextOrderId)
  {
    s.UpdateQuantity(item.product.id.value, item.quantity + 1);
  }
}

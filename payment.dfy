/**
 * The payment dialog: the change owed for the amount typed in, the pay
 * button's enabled state, and paying, which checks the session out for the
 * total the cart panel shows.
 */
module Payment {
  import opened Common
  import opened Entities
  import opened Text
  import opened CartStore
  import opened CartView

  predicate IsDigit(c: char) {
    '0' <= c <= '9'
  }

  /** The longest run of decimal digits at the start of `s`. */
  function DigitPrefix(s: string): (p: string)
    ensures |p| <= |s| && p == s[..|p|]
    ensures forall i :: 0 <= i < |p| ==> IsDigit(p[i])
    ensures |p| < |s| ==> !IsDigit(s[|p|])
    decreases |s|
  {
    if s != [] && IsDigit(s[0]) then [s[0]] + DigitPrefix(s[1..]) else []
  }

  /**
   * `parseInt(s)` with no radix, for decimal text: leading white space is
   * skipped, then an optional sign, then the digits up to the first other
   * character. No digit at all gives NaN, here `None`.
   */
  function ParseInt(s: string): (r: Option<int>)
    ensures r.None? <==> (var t := TrimStart(s);
                          var u := if t != [] && (t[0] == '-' || t[0] == '+') then t[1..] else t;
                          u == [] || !IsDigit(u[0]))
  {
    var t := TrimStart(s);
    var negative := t != [] && t[0] == '-';
    var u := if t != [] && (t[0] == '-' || t[0] == '+') then t[1..] else t;
    var digits := DigitPrefix(u);
    if digits == [] then None
    else if negative then Some(0 - ParseDigits(digits) as int)
    else Some(ParseDigits(digits))
  }

  lemma {:induction false} DigitPrefixAll(s: string)
    requires forall i :: 0 <= i < |s| ==> IsDigit(s[i])
    ensures DigitPrefix(s) == s
    decreases |s|
  {
    if s != [] {
      DigitPrefixAll(s[1..]);
    }
  }

  /** Reading back the decimal text of an integer gives the integer. */
  lemma ParseIntOfText(n: int)
    ensures ParseInt(IntToString(n)) == Some(n)
  {
    var s := IntToString(n);
    if n >= 0 {
      assert !IsSpace(s[0]);
      assert TrimStart(s) == s;
      DigitPrefixAll(s);
      ParseNatToString(n);
    } else {
      var d := NatToString(-n);
      assert s == "-" + d;
      assert !IsSpace(s[0]);
      assert TrimStart(s) == s;
      assert s[1..] == d;
      DigitPrefixAll(d);
      ParseNatToString(-n);
    }
  }

  /**
   * The change shown: `Math.max(0, parseInt(received || "0") - total)`.
   * Text that does not start with a number gives NaN, here `None`.
   */
  function Change(received: string, total: real): (c: Option<real>)
    ensures c.None? <==> ParseInt(if received == "" then "0" else received).None?
    ensures c.Some? ==> c.value >= 0.0
    ensures c.Some? ==> c.value == MaxReal(0.0, ParseInt(if received == "" then "0" else received).value as real - total)
  {
    var n := ParseInt(if received == "" then "0" else received);
    if n.None? then None else Some(MaxReal(0.0, n.value as real - total))
  }

  /**
   * When the dialog is first mounted, the field holds `total.toString()`: the whole part's
   * digits, then, for a fractional total, a '.' and the fraction's digits.
   * `parseInt` stops at the '.', so it reads the whole part, and no change
   * is due for any non-negative total.
   */
  /**
   * The field is filled only at mount, so when the dialog is reopened after
   * the bill moved from `mounted` to `total`, the change is computed from the
   * whole part of the old total: too much change when the bill fell, none
   * when it rose.
   */
  lemma StaleFieldChange(mounted: real, fraction: string, total: real)
    requires mounted >= 0.0
    requires fraction == [] || fraction[0] == '.'
    ensures Change(IntToString(Trunc(mounted)) + fraction, total) == Some(MaxReal(0.0, Trunc(mounted) as real - total))
    ensures Trunc(mounted) as real > total ==> Change(IntToString(Trunc(mounted)) + fraction, total).value > 0.0
  {
    InitialChangeIsZero(mounted, fraction);
  }

  lemma InitialChangeIsZero(total: real, fraction: string)
    requires total >= 0.0
    requires fraction == [] || fraction[0] == '.'
    ensures ParseInt(IntToString(Trunc(total)) + fraction) == Some(Trunc(total))
    ensures Change(IntToString(Trunc(total)) + fraction, total) == Some(0.0)
  {
    var n := Trunc(total);
    var d := NatToString(n);
    var s := d + fraction;
    assert IntToString(n) == d;
    assert s[0] == d[0];
    assert !IsSpace(s[0]);
    assert TrimStart(s) == s;
    DigitPrefixStops(d, fraction);
    ParseNatToString(n);
  }

  /** The digits `parseInt` reads end where a non-digit begins. */
  lemma {:induction false} DigitPrefixStops(s: string, t: string)
    requires forall i :: 0 <= i < |s| ==> IsDigit(s[i])
    requires t == [] || !IsDigit(t[0])
    ensures DigitPrefix(s + t) == s
    decreases |s|
  {
    if s == [] {
      assert s + t == t;
    } else {
      assert (s + t)[1..] == s[1..] + t;
      DigitPrefixStops(s[1..], t);
    }
  }

  /** An empty field counts as 0 received, so no change is due for a non-negative total. */
  lemma EmptyFieldNoChange(total: real)
    requires total >= 0.0
    ensures Change("", total) == Some(0.0)
  {
    ParseIntOfText(0);
    assert IntToString(0) == "0";
  }

  /** The pay button is disabled exactly when the total is 0. */
  predicate PayEnabled(total: real) {
    total != 0.0
  }

  /** A bill with products of positive total and a non-negative table fee can be paid. */
  lemma PayEnabledForProducts(items: seq<CartItem>, fee: real)
    requires Total(items) > 0 && fee >= 0.0
    ensures PayEnabled(GrandTotal(items, fee))
  {
  }

  /** With an empty cart the button is enabled exactly when the table fee is not 0. */
  lemma PayEnabledEmptyCart(fee: real)
    ensures PayEnabled(GrandTotal([], fee)) <==> fee != 0.0
  {
  }

  /**
   * Paying from the cart panel: the session is checked out for the grand
   * total, products plus table fee, and that is what the order records.
   */
  method PayGrandTotal(s: Store, fee: real)
    requires s.Valid()
    modifies s
    ensures s.Valid()
    ensures var t := old(LinkedOrderId(s.activeTableId, s.tables));
            var amount := GrandTotal(old(s.items), fee);
            if t.None? then
              s.orders == old(s.orders) && s.tables == old(s.tables) && s.customers == old(s.customers)
              && s.items == old(s.items) && s.activeTableId == old(s.activeTableId) && s.customerId == old(s.customerId)
            else
              var tid := old(s.activeTableId).value;
              && s.orders == (if t.value in old(s.orders)
                              then old(s.orders)[t.value := CompletedOrder(old(s.orders)[t.value], amount, old(s.items), old(s.customerId))]
                              else old(s.orders))
              && s.customers == AwardPoints(old(s.customers), old(s.customerId), amount)
              && s.tables == old(s.tables)[tid := old(s.tables)[tid].(status := Available, currentOrderId := None)]
              && s.items == [] && s.activeTableId == None && s.customerId == None
    ensures s.isTableOccupied == old(s.isTableOccupied) && s.notes == old(s.notes) && s.nextOrderId == old(s.nextOrderId)
    ensures old(Consistent(s.tables, s.orders)) ==> Consistent(s.tables, s.orders)
  {
    var total := GrandTotal(s.items, fee);
    s.Checkout(total);
  }
}

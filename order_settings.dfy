/**
 * The order-settings dialog: how its form is filled from an order, how a
 * coupon code sets the discount, what a submit hands to the caller, and the
 * preview of the grand total and of the duration.
 */
module OrderSettings {
  import opened Common
  import opened Entities
  import opened Text
  import opened CartStore
  import opened Clock

  /** The dialog's form fields, as numbers (the start time as a timestamp). */
  datatype Form = Form(
    startTime: int,
    pricePerHour: int,
    discount: real,
    hours: int,
    minutes: int,
    customTableFee: real)

  /** What a submit hands to the caller's save handler; `None` is `null`. */
  datatype SaveData = SaveData(
    date: int,
    pricePerHour: int,
    discount: real,
    customDuration: Option<int>,
    customTableFee: Option<real>,
    customItemsTotal: Option<real>)

  /** `h * 60 + m`, the inverse of the hour/minute split. */
  function Recombine(hours: int, minutes: int): int {
    hours * 60 + minutes
  }

  /** Splitting a non-negative duration and recombining it gives it back. */
  lemma SplitRecombine(t: int)
    requires t >= 0
    ensures Recombine(ClockParts(t).0, ClockParts(t).1) == t
  {
  }

  /** A negative duration that is not a whole number of hours recombines one hour lower. */
  lemma SplitRecombineNegative(t: int)
    requires t < 0 && t % 60 != 0
    ensures Recombine(ClockParts(t).0, ClockParts(t).1) == t - 60
  {
  }

  /** `totalDuration > 0 ? totalDuration : null`. */
  function SubmittedDuration(total: int): (r: Option<int>)
    ensures r.Some? <==> total > 0
    ensures r.Some? ==> r.value == total
  {
    if total > 0 then Some(total) else None
  }

  /** Through the split and a submit, a positive duration survives and any other becomes null. */
  lemma DurationSurvivesSubmit(t: int)
    ensures SubmittedDuration(Recombine(ClockParts(t).0, ClockParts(t).1)) == (if t > 0 then Some(t) else None)
  {
    var (h, m) := ClockParts(t);
    if t < 0 {
      assert Recombine(h, m) <= t;
    }
  }

  /**
   * The start time the form shows: the order's date written as local
   * "YYYY-MM-DDTHH:mm" text, which drops the seconds and milliseconds, so
   * reading it back gives the start of the date's minute.
   */
  function MinuteOf(t: int): (m: int)
    ensures m <= t < m + MsPerMinute
    ensures m % MsPerMinute == 0
  {
    FloorDiv(t, MsPerMinute) * MsPerMinute
  }

  /** A start time already on a minute boundary is shown as it is. */
  lemma MinuteOfIdempotent(t: int)
    ensures MinuteOf(MinuteOf(t)) == MinuteOf(t)
  {
    var m := MinuteOf(t);
    assert m == (m / MsPerMinute) * MsPerMinute;
  }

  /**
   * The form as the dialog opens it: the order's date cut to the minute;
   * the order's own rate, else the default
   * rate, else 0; its discount or 0; its manual duration, else the default
   * duration, split into hours and minutes; its manual table fee, else the
   * computed fee.
   */
  function InitialForm(order: Order, tableFee: real, defaultPricePerHour: int, defaultDurationMinutes: int): (f: Form)
    ensures f.startTime == MinuteOf(order.date)
    ensures Truthy(order.pricePerHour) ==> f.pricePerHour == order.pricePerHour.value
    ensures !Truthy(order.pricePerHour) ==> f.pricePerHour == defaultPricePerHour
    ensures f.discount == OrElse(order.discount, 0.0)
    ensures var t := OrElse(order.customDuration, defaultDurationMinutes);
            t >= 0 ==> Recombine(f.hours, f.minutes) == t && 0 <= f.minutes < 60
    ensures f.customTableFee == OrElse(order.customTableFee, tableFee)
  {
    var price := if Truthy(order.pricePerHour) then order.pricePerHour.value
                 else if defaultPricePerHour != 0 then defaultPricePerHour else 0;
    var discount := if order.discount.Some? && order.discount.value != 0.0 then order.discount.value else 0.0;
    var totalMins := OrElse(order.customDuration, defaultDurationMinutes);
    var (h, m) := ClockParts(totalMins);
    Form(MinuteOf(order.date), price, discount, h, m, OrElse(order.customTableFee, tableFee))
  }

  /** The data a submit hands to the save handler. */
  function Submit(form: Form, order: Order): (d: SaveData)
    ensures d.date == form.startTime && d.pricePerHour == form.pricePerHour && d.discount == form.discount
    ensures d.customDuration == SubmittedDuration(Recombine(form.hours, form.minutes))
    ensures d.customTableFee.Some? <==> form.customTableFee != 0.0
    ensures d.customTableFee.Some? ==> d.customTableFee.value == form.customTableFee
    ensures d.customItemsTotal == order.customItemsTotal
  {
    SaveData(form.startTime, form.pricePerHour, form.discount,
             SubmittedDuration(Recombine(form.hours, form.minutes)),
             if form.customTableFee != 0.0 then Some(form.customTableFee) else None,
             order.customItemsTotal)
  }

  /**
   * Opening the dialog and saving without an edit keeps the order's own
   * settings, except that the start loses its seconds, and it turns a
   * running duration and a computed fee into manual overrides: the default
   * duration and the fee shown become fixed.
   */
  lemma SaveUnchanged(order: Order, tableFee: real, defaultPrice: int, defaultDuration: int)
    ensures var d := Submit(InitialForm(order, tableFee, defaultPrice, defaultDuration), order);
            && d.date == MinuteOf(order.date)
            && (d.date == order.date <==> order.date % MsPerMinute == 0)
            && (Truthy(order.pricePerHour) ==> d.pricePerHour == order.pricePerHour.value)
            && d.discount == OrElse(order.discount, 0.0)
            && (order.customDuration.Some? && order.customDuration.value > 0 ==> d.customDuration == order.customDuration)
            && (order.customDuration.None? && defaultDuration > 0 ==> d.customDuration == Some(defaultDuration))
            && (order.customTableFee.Some? && order.customTableFee.value != 0.0 ==> d.customTableFee == order.customTableFee)
            && (order.customTableFee.None? && tableFee != 0.0 ==> d.customTableFee == Some(tableFee))
            && d.customItemsTotal == order.customItemsTotal
  {
    DurationSurvivesSubmit(OrElse(order.customDuration, defaultDuration));
    if order.date % MsPerMinute == 0 {
      assert order.date == (order.date / MsPerMinute) * MsPerMinute;
    }
  }

  /** Saving a second time without an edit keeps the start the first save wrote. */
  lemma SaveTwiceKeepsStart(order: Order, tableFee: real, defaultPrice: int, defaultDuration: int)
    ensures var d := Submit(InitialForm(order, tableFee, defaultPrice, defaultDuration), order);
            Submit(InitialForm(order.(date := d.date), tableFee, defaultPrice, defaultDuration), order).date == d.date
  {
    MinuteOfIdempotent(order.date);
  }

  /**
   * How the coupon request ends: it throws, the server answers with an
   * error (and no data), or it answers from the coupon table.
   */
  datatype Answer = Threw | ErrorAnswer | Table(coupons: map<string, Coupon>)

  /** What the dialog learns from the request: the row, no row, or a request that threw. */
  datatype Lookup = Found(coupon: Coupon) | NotFound | Failed

  /** The message the dialog shows after a code is entered. */
  datatype CouponOutcome = Applied(amount: real) | Invalid | CheckFailed

  /**
   * The coupon row for the upper-cased code. The dialog reads only `data`
   * and never the returned `error`, so an error answer is no row; only a
   * request that throws is told apart.
   */
  function LookUp(answer: Answer, typed: string): (r: Lookup)
    ensures r.Failed? <==> answer.Threw?
    ensures answer.ErrorAnswer? ==> r.NotFound?
    ensures r.Found? <==> answer.Table? && Upper(typed) in answer.coupons
    ensures r.Found? ==> r.coupon == answer.coupons[Upper(typed)]
  {
    match answer
    case Threw => Failed
    case ErrorAnswer => NotFound
    case Table(coupons) => if Upper(typed) in coupons then Found(coupons[Upper(typed)]) else NotFound
  }

  /** The discount a coupon grants on the products: a percentage of their total, or a fixed amount. */
  function CouponValue(c: Coupon, items: seq<CartItem>): (v: real)
    ensures c.kind == Percent && 0.0 <= c.value <= 100.0 && Total(items) >= 0 ==> 0.0 <= v <= Total(items) as real
    ensures c.kind == Fixed ==> v == c.value
  {
    if c.kind == Percent then
      var t := Total(items) as real;
      PercentBounds(t, c.value);
      PercentOf(t, c.value)
    else c.value
  }

  /** `(total * value) / 100`. */
  function PercentOf(t: real, p: real): real {
    t * p / 100.0
  }

  lemma PercentBounds(t: real, p: real)
    ensures t >= 0.0 && 0.0 <= p <= 100.0 ==> 0.0 <= PercentOf(t, p) <= t
  {
    if t >= 0.0 && 0.0 <= p <= 100.0 {
      assert t * 100.0 - t * p == t * (100.0 - p);
      assert t * (100.0 - p) >= 0.0;
    }
  }

  /** Entering a code: an active coupon replaces the discount; anything else leaves it and reports why. */
  function EnterCoupon(lookup: Lookup, items: seq<CartItem>, discount: real): (r: (real, CouponOutcome))
    ensures r.1.Applied? <==> lookup.Found? && lookup.coupon.isActive
    ensures r.1.Applied? ==> r.0 == r.1.amount == CouponValue(lookup.coupon, items)
    ensures !r.1.Applied? ==> r.0 == discount
    ensures r.1 == CheckFailed <==> lookup.Failed?
    ensures r.1 == Invalid <==> lookup.NotFound? || (lookup.Found? && !lookup.coupon.isActive)
  {
    match lookup
    case Found(c) => if c.isActive then (CouponValue(c, items), Applied(CouponValue(c, items))) else (discount, Invalid)
    case NotFound => (discount, Invalid)
    case Failed => (discount, CheckFailed)
  }

  /** A request the server answers with an error shows the invalid-code message and keeps the discount. */
  lemma ErrorAnswerIsInvalidCode(typed: string, items: seq<CartItem>, discount: real)
    ensures EnterCoupon(LookUp(ErrorAnswer, typed), items, discount) == (discount, Invalid)
  {
  }

  /** The preview total: table fee plus products less discount, never below 0. */
  function PreviewTotal(tableFee: real, items: seq<CartItem>, discount: real): (g: real)
    ensures g >= 0.0
    ensures g >= tableFee + Total(items) as real - discount
    ensures tableFee + Total(items) as real - discount >= 0.0 ==> g == tableFee + Total(items) as real - discount
    ensures tableFee + Total(items) as real - discount < 0.0 ==> g == 0.0
  {
    MaxReal(0.0, tableFee + Total(items) as real - discount)
  }

  /** A percentage coupon of at most 100% on non-negative prices never drives the preview to the clamp. */
  lemma PercentCouponNoClamp(c: Coupon, items: seq<CartItem>, tableFee: real)
    requires c.kind == Percent && 0.0 <= c.value <= 100.0 && Total(items) >= 0 && tableFee >= 0.0
    ensures PreviewTotal(tableFee, items, CouponValue(c, items)) == tableFee + Total(items) as real - CouponValue(c, items)
  {
  }

  /**
   * The duration preview: the manual duration when it is not 0, else the
   * whole minutes since the start time, not below 0, when there is a start time.
   */
  function DisplayDuration(hours: int, minutes: int, startTime: Option<int>, now: int): (d: int)
    ensures Recombine(hours, minutes) != 0 ==> d == Recombine(hours, minutes)
    ensures Recombine(hours, minutes) == 0 && startTime.None? ==> d == 0
    ensures Recombine(hours, minutes) == 0 && startTime.Some? ==>
              d >= 0 && (now - startTime.value >= 0 ==> d * MsPerMinute <= now - startTime.value < d * MsPerMinute + MsPerMinute)
    ensures Recombine(hours, minutes) == 0 && startTime.Some? && now < startTime.value ==> d == 0
  {
    var manual := Recombine(hours, minutes);
    if manual == 0 && startTime.Some? then Max(0, FloorDiv(now - startTime.value, MsPerMinute)) else manual
  }

  /** With no negative field the preview is never negative. */
  lemma DisplayDurationNonNegative(hours: int, minutes: int, startTime: Option<int>, now: int)
    requires hours >= 0 && minutes >= 0
    ensures DisplayDuration(hours, minutes, startTime, now) >= 0
  {
  }

  /** The dialog's form state, as `setValue` updates it. */
  class SettingsForm {
    var form: Form

    constructor (f: Form)
      ensures form == f
    {
      form := f;
    }

    /** Opening the dialog on an order fills every field. */
    method Open(order: Order, tableFee: real, defaultPricePerHour: int, defaultDurationMinutes: int)
      modifies this
      ensures form == InitialForm(order, tableFee, defaultPricePerHour, defaultDurationMinutes)
    {
      var date := MinuteOf(order.date);
      var price := if Truthy(order.pricePerHour) then order.pricePerHour.value
                   else if defaultPricePerHour != 0 then defaultPricePerHour else 0;
      var discount := if order.discount.Some? && order.discount.value != 0.0 then order.discount.value else 0.0;
      var totalMins := OrElse(order.customDuration, defaultDurationMinutes);
      var h := FloorDiv(totalMins, 60);
      var m := JsRem(totalMins, 60);
      form := Form(date, price, discount, h, m, OrElse(order.customTableFee, tableFee));
    }

    /** Pressing Enter in the coupon field. */
    method CouponEnter(typed: string, answer: Answer, items: seq<CartItem>)
      returns (outcome: CouponOutcome)
      modifies this
      ensures var (d, o) := EnterCoupon(LookUp(answer, typed), items, old(form.discount));
              form == old(form).(discount := d) && outcome == o
    {
      var lookup := LookUp(answer, typed);
      match lookup {
        case Found(c) =>
          if c.isActive {
            var val := CouponValue(c, items);
            form := form.(discount := val);
            outcome := Applied(val);
          } else {
            outcome := Invalid;
          }
        case NotFound =>
          outcome := Invalid;
        case Failed =>
          outcome := CheckFailed;
      }
    }
  }
}

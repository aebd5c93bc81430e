/**
 * Elapsed time as the screens compute it from a start timestamp and the
 * current time (both milliseconds since the epoch): whole minutes since the
 * start, and the hour/minute pair the "h p" labels show.
 */
module Clock {
  import opened Common

  const MsPerMinute := 60000
  const MsPerHour := 3600000

  /**
   * Whole minutes since `start` (`Math.floor(diffMs / 60000)`), and 0 when
   * there is no start date. A start date is a `Date` object, which is truthy
   * whatever its timestamp, so a start at the epoch still counts.
   */
  function ElapsedMinutes(now: int, start: Option<int>): (r: int)
    ensures start.None? ==> r == 0
    ensures start.Some? ==> r * MsPerMinute <= now - start.value < r * MsPerMinute + MsPerMinute
  {
    if start.Some? then FloorDiv(now - start.value, MsPerMinute) else 0
  }

  /** A session that started at the epoch still counts its minutes: two minutes later the clock shows 2. */
  lemma EpochStartCounts()
    ensures ElapsedMinutes(2 * MsPerMinute, Some(0)) == 2
  {
  }

  /** Later clocks never show fewer elapsed minutes. */
  lemma ElapsedMonotone(now1: int, now2: int, start: Option<int>)
    requires now1 <= now2
    ensures ElapsedMinutes(now1, start) <= ElapsedMinutes(now2, start)
  {
  }

  /** The hour and minute shown for a number of minutes (`Math.floor(mins / 60)` and `mins % 60`). */
  function ClockParts(mins: int): (hm: (int, int))
    ensures mins >= 0 ==> 0 <= hm.1 < 60 && hm.0 * 60 + hm.1 == mins && hm.0 >= 0
    ensures mins < 0 ==> -60 < hm.1 <= 0 && hm.0 < 0
    ensures mins < 0 && hm.1 != 0 ==> hm.0 * 60 + hm.1 == mins - 60
    ensures mins < 0 && hm.1 == 0 ==> hm.0 * 60 == mins
  {
    (FloorDiv(mins, 60), JsRem(mins, 60))
  }

  /**
   * The table tile's running timer: hours from the millisecond difference,
   * then the minutes of the remainder within the hour.
   */
  function TimerParts(diffMs: int): (hm: (int, int))
  {
    (FloorDiv(diffMs, MsPerHour), FloorDiv(JsRem(diffMs, MsPerHour), MsPerMinute))
  }

  /** For a start in the past, the tile timer and the minute count show the same hours and minutes. */
  lemma TimerAgreesWithMinutes(diffMs: int)
    requires diffMs >= 0
    ensures TimerParts(diffMs) == ClockParts(diffMs / MsPerMinute)
    ensures 0 <= TimerParts(diffMs).1 < 60
  {
    var h := diffMs / MsPerHour;
    var rest := diffMs % MsPerHour;
    var mins := diffMs / MsPerMinute;
    assert diffMs == h * MsPerHour + rest;
    var m := rest / MsPerMinute;
    assert rest == m * MsPerMinute + rest % MsPerMinute;
    assert diffMs == (h * 60 + m) * MsPerMinute + rest % MsPerMinute;
    assert mins == h * 60 + m;
  }
}

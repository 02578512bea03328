/** Instants are whole minutes counted from a Monday 00:00 origin, so the
    calendar fields the scheduler reads are plain arithmetic. */
module Instants {

  const MinutesPerHour: int := 60
  const MinutesPerDay: int := 1440

  /** `datetime.hour` of the instant: 0 .. 23. */
  function Hour(t: int): (h: int)
    ensures 0 <= h < 24
    ensures MinutesPerDay * (t / MinutesPerDay) + MinutesPerHour * h <= t
    ensures t < MinutesPerDay * (t / MinutesPerDay) + MinutesPerHour * (h + 1)
  {
    (t / MinutesPerHour) % 24
  }

  /** `t` falls on day `d` of week `w`, counting weeks and days from the origin. */
  ghost predicate OnDayOfWeek(t: int, w: int, d: int) {
    MinutesPerDay * (7 * w + d) <= t < MinutesPerDay * (7 * w + d + 1)
  }

  /** `datetime.weekday()` of the instant: Monday is 0, Sunday is 6. */
  function Weekday(t: int): (d: int)
    ensures 0 <= d < 7
    ensures exists w :: OnDayOfWeek(t, w, d)
  {
    var days := t / MinutesPerDay;
    var w, d := days / 7, days % 7;
    assert days == 7 * w + d;
    assert OnDayOfWeek(t, w, d);
    d
  }

  function Max(a: int, b: int): (m: int)
    ensures m >= a && m >= b && (m == a || m == b)
  {
    if a >= b then a else b
  }

  function Min(a: int, b: int): (m: int)
    ensures m <= a && m <= b && (m == a || m == b)
  {
    if a <= b then a else b
  }
}

/** Wall-clock arithmetic on integer minutes.

    Every instant of the model is a whole number of minutes on the LOCAL
    timeline of the clinic, with 0 at local midnight of the requested date.
    The clinic's zone is a fixed offset `utcOffset` (minutes east of UTC), so
    the UTC instant of a local minute `t` is `t - utcOffset` minutes after
    00:00Z of the same calendar date. */
module Clock {

  const MinutesPerHour: int := 60
  const HoursPerDay: int := 24
  const MinutesPerDay: int := 1440

  /** The local clock hour of an instant (Luxon's `DateTime.hour`). */
  function HourOf(t: int): (h: int)
    ensures 0 <= h < HoursPerDay
    ensures h * MinutesPerHour <= t % MinutesPerDay < (h + 1) * MinutesPerHour
  {
    (t % MinutesPerDay) / MinutesPerHour
  }

  /** The local clock minute of an instant (Luxon's `DateTime.minute`). */
  function MinuteOf(t: int): (m: int)
    ensures 0 <= m < MinutesPerHour
    ensures (t - m) % MinutesPerHour == 0
  {
    t % MinutesPerHour
  }

  /** The requested day's weekday: Luxon's ISO weekday (1 = Monday .. 7 = Sunday)
      taken modulo 7, so that Sunday is 0 and Monday .. Saturday keep 1 .. 6. */
  function DayOfWeek(isoWeekday: int): (d: int)
    requires 1 <= isoWeekday <= 7
    ensures 0 <= d < 7
    ensures d == 0 <==> isoWeekday == 7
    ensures isoWeekday < 7 ==> d == isoWeekday
  {
    isoWeekday % 7
  }

  /** The UTC instant of a local instant; `FromUtc` undoes it. */
  function ToUtc(local: int, utcOffset: int): int
  {
    local - utcOffset
  }

  function FromUtc(utc: int, utcOffset: int): int
  {
    utc + utcOffset
  }
}

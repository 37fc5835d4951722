/**
 Calendar arithmetic of src/common/utc.ts on ECMA-262 time values: milliseconds since
 the epoch, with Day(t) = floor(t / 86400000) and WeekDay = (Day + 4) mod 7 (section 21.4.1).
 A `Date` that failed to parse is kept apart, because every comparison with it is false.
 */
module Utc {

  const MS_PER_DAY: int := 86_400_000

  datatype Date = InvalidDate | Date(ms: int)

  /** Dafny's `/` rounds down for a positive divisor, as floor does. */
  function Day(t: int): int {
    t / MS_PER_DAY
  }

  function WeekDay(day: int): int {
    (day + 4) % 7
  }

  function Midnight(day: int): int {
    day * MS_PER_DAY
  }

  lemma DayMonotone(s: int, t: int)
    requires s <= t
    ensures Day(s) <= Day(t)
  {
  }

  lemma MidnightBound(d: int, t: int)
    ensures Midnight(d) <= t <==> d <= Day(t)
  {
  }

  function StartOfUTCDay(t: int): (r: int)
    ensures r <= t < r + MS_PER_DAY
    ensures r == Midnight(Day(t)) && Day(r) == Day(t)
  {
    Midnight(Day(t))
  }

  function AddDaysUTC(t: int, days: int): int {
    t + days * MS_PER_DAY
  }

  function GetUTCDay(t: int): int {
    WeekDay(Day(t))
  }

  function MaxDate(a: int, b: int): int {
    if a >= b then a else b
  }

  /** `a.getTime() <= b.getTime() ? a : b`: when either is invalid, the answer is `b`. */
  function MinDate(a: Date, b: Date): Date {
    if a.Date? && b.Date? && a.ms <= b.ms then a else b
  }

  /** `t <= d` and `d < t` as JavaScript compares them: false when `d` is invalid. */
  predicate AtOrBefore(t: int, d: Date) {
    d.Date? && t <= d.ms
  }

  predicate EndsBefore(d: Date, t: int) {
    d.Date? && d.ms < t
  }

  function DaysBetweenUTC(a: int, b: int): (n: int)
    ensures n == Day(b) - Day(a)
  {
    (StartOfUTCDay(b) - StartOfUTCDay(a)) / MS_PER_DAY
  }

  /** Weeks start on Sunday; week 0 holds the epoch. */
  function Week(day: int): int {
    (day + 4) / 7
  }

  function SundayOfWeek(week: int): int {
    7 * week - 4
  }

  lemma WeekOfDay(day: int, week: int)
    ensures Week(day) == week <==> SundayOfWeek(week) <= day < SundayOfWeek(week) + 7
    ensures Week(day) == week ==> WeekDay(day) == day - SundayOfWeek(week)
  {
  }

  lemma WeeksBetween(a: int, b: int)
    ensures DaysBetweenUTC(Midnight(SundayOfWeek(a)), Midnight(SundayOfWeek(b))) / 7 == b - a
  {
  }

  /** The Sunday on or before `t`. */
  function StartOfUTCWeekSun(t: int): (r: int)
    ensures r == Midnight(SundayOfWeek(Week(Day(t))))
    ensures r <= t < r + 7 * MS_PER_DAY && GetUTCDay(r) == 0
  {
    AddDaysUTC(StartOfUTCDay(t), -GetUTCDay(t))
  }
}

/**
 * The date-time operations the calculator borrows from its date library,
 * over an abstract instant: a count of seconds since an epoch placed on a
 * Monday at 00:00, with no time zone and no daylight-saving shifts.
 */
module Instants {

  type Instant = int

  const SecondsPerMinute: int := 60
  const SecondsPerHour: int := 3600
  const SecondsPerDay: int := 86400

  /** The calendar day an instant falls on (day 0 is the epoch's Monday). */
  function Day(t: Instant): int {
    t / SecondsPerDay
  }

  /** Day of the week: 0 is Monday, 5 is Saturday, 6 is Sunday. */
  function Weekday(d: int): int {
    d % 7
  }

  predicate IsWeekend(d: int) {
    Weekday(d) >= 5
  }

  /** Seconds since the start of the instant's day. */
  function TimeOfDay(t: Instant): int {
    t % SecondsPerDay
  }

  /** Midnight at the start of the instant's day. */
  function StartOfDay(t: Instant): (r: Instant)
    ensures Day(r) == Day(t) && TimeOfDay(r) == 0
    ensures r <= t < r + SecondsPerDay
  {
    Day(t) * SecondsPerDay
  }

  function AddHours(t: Instant, hours: int): Instant {
    t + hours * SecondsPerHour
  }

  predicate IsSameDay(a: Instant, b: Instant) {
    Day(a) == Day(b)
  }

  /** The absolute number of seconds between two instants. */
  function DiffInSeconds(a: Instant, b: Instant): (r: nat)
    ensures r == b - a || r == a - b
  {
    if a <= b then b - a else a - b
  }

  /** The absolute number of whole minutes between two instants (truncated). */
  function DiffInMinutes(a: Instant, b: Instant): (r: nat)
    ensures r * SecondsPerMinute <= DiffInSeconds(a, b) < (r + 1) * SecondsPerMinute
  {
    DiffInSeconds(a, b) / SecondsPerMinute
  }

  /** Moving an instant by whole days moves its day number by as many days and keeps its time of day. */
  lemma DayShift(t: Instant, k: int)
    ensures Day(t + k * SecondsPerDay) == Day(t) + k
    ensures TimeOfDay(t + k * SecondsPerDay) == TimeOfDay(t)
  {
    var q, r := t / SecondsPerDay, t % SecondsPerDay;
    assert t + k * SecondsPerDay == (q + k) * SecondsPerDay + r;
  }

  /**
   * The same time of day on the next Monday-to-Friday day: one day is added,
   * and again while the day reached is a Saturday or a Sunday.
   */
  function NextWeekday(t: Instant): (r: Instant)
    ensures Day(t) < Day(r) <= Day(t) + 3
    ensures !IsWeekend(Day(r))
    ensures TimeOfDay(r) == TimeOfDay(t)
    ensures r - t == (Day(r) - Day(t)) * SecondsPerDay
  {
    var w := Weekday(Day(t));
    var skip := if w == 4 then 3 else if w == 5 then 2 else 1;
    DayShift(t, skip);
    t + skip * SecondsPerDay
  }

  /** Every day the step passes over is a Saturday or a Sunday. */
  lemma NextWeekdayPassesWeekends(t: Instant)
    ensures forall d :: Day(t) < d < Day(NextWeekday(t)) ==> IsWeekend(d)
  {
    DayShift(t, 1);
    DayShift(t, 2);
  }

  /** Instants on one day step to the same next weekday. */
  lemma NextWeekdaySameDay(a: Instant, b: Instant)
    requires IsSameDay(a, b)
    ensures IsSameDay(NextWeekday(a), NextWeekday(b))
  {
  }
}

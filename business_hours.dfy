/**
 * The calculator's pure helpers (opening and closing instants of a day,
 * clamping, unit conversion) and the reference definition of the business
 * time between two instants, with the lemmas about them.
 */
module BusinessHours {
  import opened Wrappers
  import opened Instants

  /** The daily business window, as hours after midnight. */
  datatype Window = Window(opensAt: int, closesAt: int)

  /** A window that opens no later than it closes, both within one day. */
  predicate Ordered(w: Window) {
    0 <= w.opensAt <= w.closesAt < 24
  }

  /** The unit names the unit setter accepts. */
  const AvailableUnits: seq<string> := ["sec", "seconds", "min", "minutes"]

  predicate IsSecondsUnit(unit: string) {
    unit == "sec" || unit == "seconds"
  }

  predicate IsMinutesUnit(unit: string) {
    unit == "min" || unit == "minutes"
  }

  /** The opening instant of the day `t` falls on. */
  function BusinessStart(w: Window, t: Instant): (r: Instant)
    ensures 0 <= w.opensAt < 24 ==> IsSameDay(r, t) && TimeOfDay(r) == w.opensAt * SecondsPerHour
  {
    AddHours(StartOfDay(t), w.opensAt)
  }

  /** The closing instant of the day `t` falls on. */
  function BusinessEnd(w: Window, t: Instant): (r: Instant)
    ensures 0 <= w.closesAt < 24 ==> IsSameDay(r, t) && TimeOfDay(r) == w.closesAt * SecondsPerHour
  {
    AddHours(StartOfDay(t), w.closesAt)
  }

  predicate InWindow(w: Window, t: Instant) {
    BusinessStart(w, t) <= t <= BusinessEnd(w, t)
  }

  /** Clamps an instant into the business window of its own day. */
  function AdjustDate(w: Window, t: Instant): (r: Instant)
    ensures Ordered(w) ==> IsSameDay(r, t) && InWindow(w, r)
    ensures Ordered(w) && InWindow(w, t) ==> r == t
    ensures Ordered(w) && t < BusinessStart(w, t) ==> r == BusinessStart(w, t)
    ensures Ordered(w) && BusinessEnd(w, t) < t ==> r == BusinessEnd(w, t)
  {
    var businessStart := BusinessStart(w, t);
    var businessEnd := BusinessEnd(w, t);
    if t < businessStart then businessStart
    else if t > businessEnd then businessEnd
    else t
  }

  /**
   * The distance between two instants in the selected unit: absolute
   * seconds, or absolute whole minutes; no value for any other unit name.
   */
  function DiffInUnit(unit: string, a: Instant, b: Instant): (r: Option<nat>)
    ensures r.Some? <==> unit in AvailableUnits
    ensures IsSecondsUnit(unit) ==> r.value == b - a || r.value == a - b
    ensures IsMinutesUnit(unit) ==>
      r.value * SecondsPerMinute <= DiffInSeconds(a, b) < (r.value + 1) * SecondsPerMinute
  {
    if IsSecondsUnit(unit) then Some(DiffInSeconds(a, b))
    else if IsMinutesUnit(unit) then Some(DiffInMinutes(a, b))
    else None
  }

  /** PHP's arithmetic on a missing value: `null` adds as 0. */
  function NullAsZero(v: Option<nat>): nat {
    if v.Some? then v.value else 0
  }

  /** The length of one whole business day in the selected unit. */
  function FullDay(w: Window, unit: string): Option<nat> {
    DiffInUnit(unit, w.opensAt * SecondsPerHour, w.closesAt * SecondsPerHour)
  }

  /** The number of Monday-to-Friday days d with lo <= d < hi. */
  function WeekdayCount(lo: int, hi: int): nat
    decreases hi - lo
  {
    if hi <= lo then 0
    else WeekdayCount(lo, hi - 1) + (if IsWeekend(hi - 1) then 0 else 1)
  }

  /**
   * Reference definition of the business time between `start` and `end`.
   * Both are clamped into their own day's window. On one day the result is
   * the distance between them. When the end's day comes before the start's
   * day the result is 0. Otherwise it is the sum of: the start's day from
   * the start to closing (whatever weekday that is), one whole window for
   * each Monday-to-Friday day strictly between the two days, and opening to
   * the end when the end's day is Monday to Friday. A part with no value
   * (an unknown unit) adds 0.
   */
  function BusinessTime(w: Window, unit: string, start: Instant, end: Instant): Option<nat> {
    var s := AdjustDate(w, start);
    var e := AdjustDate(w, end);
    if IsSameDay(s, e) then DiffInUnit(unit, s, e)
    else if Day(e) < Day(s) then Some(0)
    else Some(FirstDayPart(w, unit, s) + WholeDays(w, unit, Day(s) + 1, Day(e)) + LastDayPart(w, unit, e))
  }

  /** From `s` to the closing of its day. */
  function FirstDayPart(w: Window, unit: string, s: Instant): nat {
    NullAsZero(DiffInUnit(unit, s, BusinessEnd(w, s)))
  }

  /** One whole business day for each Monday-to-Friday day d with lo <= d < hi. */
  function WholeDays(w: Window, unit: string, lo: int, hi: int): nat {
    var days: nat := WeekdayCount(lo, hi);
    var each: nat := NullAsZero(FullDay(w, unit));
    days * each
  }

  /** From the opening of `e`'s day to `e`, when that day is Monday to Friday. */
  function LastDayPart(w: Window, unit: string, e: Instant): nat {
    if IsWeekend(Day(e)) then 0 else NullAsZero(DiffInUnit(unit, BusinessStart(w, e), e))
  }

  // ---------------------------------------------------------------------
  // Counting weekdays

  /** Counting over [lo, hi) splits at any mid point. */
  lemma {:induction false} WeekdayCountSplit(lo: int, mid: int, hi: int)
    requires lo <= mid <= hi
    ensures WeekdayCount(lo, hi) == WeekdayCount(lo, mid) + WeekdayCount(mid, hi)
    decreases hi - mid
  {
    if hi > mid {
      WeekdayCountSplit(lo, mid, hi - 1);
    }
  }

  /** A range with no weekday in it holds only Saturdays and Sundays. */
  lemma WeekdayCountZero(lo: int, d: int, hi: int)
    requires lo <= d < hi && WeekdayCount(lo, hi) == 0
    ensures IsWeekend(d)
  {
    WeekdayCountSplit(lo, d, hi);
    WeekdayCountSplit(d, d + 1, hi);
  }

  /** Only Saturdays and Sundays lie strictly between a day and the next weekday. */
  lemma {:induction false} WeekendsOnly(lo: int, hi: int)
    requires forall d :: lo <= d < hi ==> IsWeekend(d)
    ensures WeekdayCount(lo, hi) == 0
    decreases hi - lo
  {
    if hi > lo {
      WeekendsOnly(lo, hi - 1);
    }
  }

  /** Stepping to the next weekday passes exactly the day left, if that is a weekday. */
  lemma NextWeekdayCount(t: Instant)
    ensures WeekdayCount(Day(t) + 1, Day(NextWeekday(t))) == 0
    ensures WeekdayCount(Day(t), Day(NextWeekday(t))) == if IsWeekend(Day(t)) then 0 else 1
  {
    var n := Day(NextWeekday(t));
    NextWeekdayPassesWeekends(t);
    WeekendsOnly(Day(t) + 1, n);
    WeekdayCountSplit(Day(t), Day(t) + 1, n);
  }

  /** The weekdays among the first n days of a week that starts on day of the week w. */
  function WeekdaysFrom(w: int, n: nat): nat {
    if n == 0 then 0 else WeekdaysFrom(w, n - 1) + (if (w + n - 1) % 7 >= 5 then 0 else 1)
  }

  lemma {:induction false} CountFromWeekday(d: int, n: nat)
    ensures WeekdayCount(d, d + n) == WeekdaysFrom(Weekday(d), n)
  {
    if n > 0 {
      CountFromWeekday(d, n - 1);
      WeekdayShift(d, n - 1);
    }
  }

  lemma WeekdayShift(d: int, k: int)
    ensures Weekday(d + k) == (Weekday(d) + k) % 7
  {
    var q := d / 7;
    assert d + k == 7 * q + (Weekday(d) + k);
    ModAddMultiple(Weekday(d) + k, q);
  }

  lemma ModAddMultiple(x: int, q: int)
    ensures (7 * q + x) % 7 == x % 7
  {
    var a, b := x / 7, x % 7;
    assert 7 * q + x == 7 * (q + a) + b;
  }

  /** Any seven consecutive days hold five weekdays. */
  lemma WeekHasFiveWeekdays(d: int)
    ensures WeekdayCount(d, d + 7) == 5
  {
    CountFromWeekday(d, 7);
    var w := Weekday(d);
    if w == 0 { assert WeekdaysFrom(0, 7) == 5; }
    else if w == 1 { assert WeekdaysFrom(1, 7) == 5; }
    else if w == 2 { assert WeekdaysFrom(2, 7) == 5; }
    else if w == 3 { assert WeekdaysFrom(3, 7) == 5; }
    else if w == 4 { assert WeekdaysFrom(4, 7) == 5; }
    else if w == 5 { assert WeekdaysFrom(5, 7) == 5; }
    else { assert WeekdaysFrom(6, 7) == 5; }
  }

  /** There are at most as many weekdays as days in a range. */
  lemma {:induction false} WeekdayCountAtMost(lo: int, hi: int)
    requires lo <= hi
    ensures WeekdayCount(lo, hi) <= hi - lo
    decreases hi - lo
  {
    if hi > lo {
      WeekdayCountAtMost(lo, hi - 1);
    }
  }

  /** Passing a weekday c, with no weekday after it before hi, adds one whole day. */
  lemma WholeDaysAdvance(w: Window, unit: string, lo: int, c: int, hi: int)
    requires lo <= c < hi && !IsWeekend(c) && WeekdayCount(c + 1, hi) == 0
    ensures WholeDays(w, unit, lo, hi) == WholeDays(w, unit, lo, c) + NullAsZero(FullDay(w, unit))
  {
    WeekdayCountSplit(lo, c, hi);
    WeekdayCountSplit(c, c + 1, hi);
    var k, each := WeekdayCount(lo, c), NullAsZero(FullDay(w, unit));
    assert WeekdayCount(lo, hi) == k + 1;
    assert (k + 1) * each == k * each + each;
  }

  /** Days with no weekday among them add nothing. */
  lemma WholeDaysSkip(w: Window, unit: string, lo: int, mid: int, hi: int)
    requires lo <= mid <= hi && WeekdayCount(mid, hi) == 0
    ensures WholeDays(w, unit, lo, hi) == WholeDays(w, unit, lo, mid)
  {
    WeekdayCountSplit(lo, mid, hi);
  }

  // ---------------------------------------------------------------------
  // Walking the days with a cursor, one weekday at a time

  /** The reference value when the clamped ends lie on different days. */
  lemma AcrossDays(w: Window, unit: string, start: Instant, end: Instant)
    requires !IsSameDay(AdjustDate(w, start), AdjustDate(w, end))
    ensures var s, e := AdjustDate(w, start), AdjustDate(w, end);
      BusinessTime(w, unit, start, end)
      == if Day(e) < Day(s) then Some(0)
         else Some(FirstDayPart(w, unit, s) + WholeDays(w, unit, Day(s) + 1, Day(e)) + LastDayPart(w, unit, e))
  {
  }

  /** Leaving the start's day: its part is the first part, and no whole day has passed yet. */
  lemma LeaveFirstDay(w: Window, unit: string, s: Instant, t: Instant)
    requires IsSameDay(s, t)
    ensures NullAsZero(DiffInUnit(unit, s, BusinessEnd(w, t)))
         == FirstDayPart(w, unit, s) + WholeDays(w, unit, Day(s) + 1, Day(NextWeekday(t)))
  {
    NextWeekdayCount(t);
  }

  /** Leaving a later weekday adds one whole day. */
  lemma LeaveWholeDay(w: Window, unit: string, lo: int, t: Instant)
    requires lo <= Day(t) && !IsWeekend(Day(t))
    ensures WholeDays(w, unit, lo, Day(t)) + NullAsZero(DiffInUnit(unit, BusinessStart(w, t), BusinessEnd(w, t)))
         == WholeDays(w, unit, lo, Day(NextWeekday(t)))
  {
    NextWeekdayCount(t);
    WindowIsFullDay(w, unit, t);
    WholeDaysAdvance(w, unit, lo, Day(t), Day(NextWeekday(t)));
  }

  /** A cursor that steps from before day `d` to after it has stepped over weekend days only. */
  lemma StepOver(t: Instant, d: int)
    requires Day(t) < d < Day(NextWeekday(t))
    ensures WeekdayCount(d, Day(NextWeekday(t))) == 0
  {
    NextWeekdayCount(t);
    WeekdayCountSplit(Day(t) + 1, d, Day(NextWeekday(t)));
  }

  // ---------------------------------------------------------------------
  // Windows and clamping

  /** The window of any day measures one whole business day. */
  lemma WindowIsFullDay(w: Window, unit: string, t: Instant)
    ensures DiffInUnit(unit, BusinessStart(w, t), BusinessEnd(w, t)) == FullDay(w, unit)
  {
    assert DiffInSeconds(BusinessStart(w, t), BusinessEnd(w, t))
        == DiffInSeconds(w.opensAt * SecondsPerHour, w.closesAt * SecondsPerHour);
  }

  /** Clamping an instant that is already clamped changes nothing. */
  lemma AdjustDateIdempotent(w: Window, t: Instant)
    requires Ordered(w)
    ensures AdjustDate(w, AdjustDate(w, t)) == AdjustDate(w, t)
  {
    var r := AdjustDate(w, t);
    assert BusinessStart(w, r) == BusinessStart(w, t) && BusinessEnd(w, r) == BusinessEnd(w, t);
  }

  /** Clamping keeps the order of instants. */
  lemma AdjustDateMonotone(w: Window, a: Instant, b: Instant)
    requires Ordered(w) && a <= b
    ensures AdjustDate(w, a) <= AdjustDate(w, b)
  {
    if !IsSameDay(a, b) {
      assert Day(a) < Day(b);
      assert StartOfDay(a) + SecondsPerDay <= StartOfDay(b);
    }
  }

  /** The window of a day lies after that day's midnight when the window opens at 1 or later. */
  lemma ClampedAfterMidnight(w: Window, t: Instant)
    requires Ordered(w) && w.opensAt >= 1
    ensures StartOfDay(t) < AdjustDate(w, t)
  {
  }

  // ---------------------------------------------------------------------
  // Properties of the business time

  /** Two instants inside the same day's window are simply measured against each other. */
  lemma SameDayInsideWindow(w: Window, unit: string, start: Instant, end: Instant)
    requires Ordered(w) && IsSameDay(start, end)
    requires InWindow(w, start) && InWindow(w, end)
    ensures BusinessTime(w, unit, start, end) == DiffInUnit(unit, start, end)
  {
  }

  /** On one day, two instants on the same side outside the window measure 0. */
  lemma SameSideOutsideIsZero(w: Window, unit: string, start: Instant, end: Instant)
    requires Ordered(w) && IsSameDay(start, end) && unit in AvailableUnits
    requires (start < BusinessStart(w, start) && end < BusinessStart(w, end))
          || (start > BusinessEnd(w, start) && end > BusinessEnd(w, end))
    ensures BusinessTime(w, unit, start, end) == Some(0)
  {
    assert BusinessStart(w, start) == BusinessStart(w, end);
    assert BusinessEnd(w, start) == BusinessEnd(w, end);
  }

  /** An unknown unit name yields no value on one day and 0 across days. */
  lemma UnknownUnit(w: Window, unit: string, start: Instant, end: Instant)
    requires unit !in AvailableUnits
    ensures BusinessTime(w, unit, start, end)
         == if IsSameDay(AdjustDate(w, start), AdjustDate(w, end)) then None else Some(0)
  {
  }

  /** From a weekday's opening to the same opening a week later lie exactly five whole business days. */
  lemma WholeWeekIsFiveDays(w: Window, unit: string, t: Instant)
    requires Ordered(w) && !IsWeekend(Day(t)) && t == BusinessStart(w, t)
    ensures BusinessTime(w, unit, t, t + 7 * SecondsPerDay) == Some(5 * NullAsZero(FullDay(w, unit)))
  {
    var end := t + 7 * SecondsPerDay;
    var d := Day(t);
    DayShift(t, 7);
    WeekdayShift(d, 7);
    assert Day(end) == d + 7 && !IsWeekend(d + 7);
    assert BusinessStart(w, end) == end;
    assert AdjustDate(w, t) == t && AdjustDate(w, end) == end;
    WindowIsFullDay(w, unit, t);
    WeekHasFiveWeekdays(d);
    WeekdayCountSplit(d, d + 1, d + 7);
    assert WeekdayCount(d + 1, d + 7) == 4;
  }

  /**
   * Weekends add nothing: an end anywhere on a Saturday or a Sunday measures
   * the same as an end at the closing of the Friday before, for a start on
   * an earlier day.
   */
  lemma WeekendEndIsFridayClose(w: Window, unit: string, start: Instant, t: Instant)
    requires Ordered(w) && IsWeekend(Day(t))
    requires Day(start) < Day(t) - Weekday(Day(t)) + 4
    ensures var friday := Day(t) - Weekday(Day(t)) + 4;
      BusinessTime(w, unit, start, t) == BusinessTime(w, unit, start, BusinessEnd(w, friday * SecondsPerDay))
  {
    var d := Day(t);
    var friday := d - Weekday(d) + 4;
    var fridayStart := friday * SecondsPerDay;
    var close := BusinessEnd(w, fridayStart);
    WeekdayShift(d, 4 - Weekday(d));
    assert Weekday(friday) == 4 && !IsWeekend(friday);
    if Weekday(d) == 6 {
      WeekdayShift(d, -1);
      assert WeekdayCount(d - 1, d) == 0;
    }
    assert WeekdayCount(friday + 1, d) == 0;
    assert Day(AdjustDate(w, t)) == d && Day(AdjustDate(w, close)) == friday;
    assert AdjustDate(w, close) == close;
    WindowIsFullDay(w, unit, fridayStart);
    assert LastDayPart(w, unit, close) == NullAsZero(FullDay(w, unit));
    assert LastDayPart(w, unit, AdjustDate(w, t)) == 0;
    WholeDaysAdvance(w, unit, Day(start) + 1, friday, d);
  }

  /** Business seconds never exceed the seconds that elapse between start and end. */
  lemma BusinessSecondsAtMostElapsed(w: Window, unit: string, start: Instant, end: Instant)
    requires Ordered(w) && IsSecondsUnit(unit) && start <= end
    ensures BusinessTime(w, unit, start, end).Some?
    ensures BusinessTime(w, unit, start, end).value <= end - start
  {
    var s, e := AdjustDate(w, start), AdjustDate(w, end);
    AdjustDateMonotone(w, start, end);
    if IsSameDay(s, e) {
      assert IsSameDay(start, end);
    } else {
      var ds, de := Day(s), Day(e);
      assert ds < de;
      var first := NullAsZero(DiffInUnit(unit, s, BusinessEnd(w, s)));
      var middle := WholeDays(w, unit, ds + 1, de);
      var last := if IsWeekend(de) then 0 else NullAsZero(DiffInUnit(unit, BusinessStart(w, e), e));
      assert first <= (ds + 1) * SecondsPerDay - start;
      assert last <= end - de * SecondsPerDay;
      WeekdayCountAtMost(ds + 1, de);
      var full := NullAsZero(FullDay(w, unit));
      assert full <= SecondsPerDay;
      MulMonotone(WeekdayCount(ds + 1, de), de - ds - 1, full, SecondsPerDay);
      assert middle <= (de - ds - 1) * SecondsPerDay;
    }
  }

  lemma MulMonotone(a: nat, b: nat, x: nat, y: nat)
    requires a <= b && x <= y
    ensures a * x <= b * y
  {
    assert a * x <= b * x;
  }
}

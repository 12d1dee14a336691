/** The calculator object: its configuration fields, setters and the `diff` loop. */
module Raupp {
  import opened Wrappers
  import opened Instants
  import opened BusinessHours

  /** The one failure `diff` reports. */
  datatype Error = BusinessHoursNotSet

  /** An hour bound as PHP tests it: a missing value and 0 both count as unset. */
  predicate IsSet(hours: Option<int>) {
    hours.Some? && hours.value != 0
  }

  class BusinessHoursDiff {
    var businessOpensAt: Option<int>
    var businessClosesAt: Option<int>
    var unit: string

    /** Both bounds are set, so `diff` runs. */
    predicate Configured()
      reads this
    {
      IsSet(businessOpensAt) && IsSet(businessClosesAt)
    }

    function CurrentWindow(): Window
      reads this
      requires Configured()
    {
      Window(businessOpensAt.value, businessClosesAt.value)
    }

    /** Stores the three settings as given; the unit name is not checked here. */
    constructor (businessOpensAt: Option<int> := None, businessClosesAt: Option<int> := None,
                 unit: string := "min")
      ensures this.businessOpensAt == businessOpensAt
      ensures this.businessClosesAt == businessClosesAt
      ensures this.unit == unit
    {
      this.businessOpensAt := businessOpensAt;
      this.businessClosesAt := businessClosesAt;
      this.unit := unit;
    }

    method SetBusinessOpensAt(hours: int) returns (self: BusinessHoursDiff)
      modifies this
      ensures self == this
      ensures businessOpensAt == Some(hours)
      ensures businessClosesAt == old(businessClosesAt) && unit == old(unit)
    {
      businessOpensAt := Some(hours);
      self := this;
    }

    method SetBusinessClosesAt(hours: int) returns (self: BusinessHoursDiff)
      modifies this
      ensures self == this
      ensures businessClosesAt == Some(hours)
      ensures businessOpensAt == old(businessOpensAt) && unit == old(unit)
    {
      businessClosesAt := Some(hours);
      self := this;
    }

    /** Selects the output unit; a name outside the accepted list is ignored. */
    method SetUnit(name: string) returns (self: BusinessHoursDiff)
      modifies this
      ensures self == this
      ensures unit == if name in AvailableUnits then name else old(unit)
      ensures businessOpensAt == old(businessOpensAt) && businessClosesAt == old(businessClosesAt)
    {
      if name in AvailableUnits {
        unit := name;
      }
      self := this;
    }

    /**
     * The business time from `start` to `end` in the selected unit, or the
     * configuration error when a bound is unset. The object is not changed.
     */
    method Diff(start: Instant, end: Instant) returns (r: Result<Option<nat>, Error>)
      requires Configured() ==> Ordered(CurrentWindow())
      ensures r.Err? <==> !Configured()
      ensures r.Err? ==> r.error == BusinessHoursNotSet
      ensures Configured() ==> r == Ok(BusinessTime(CurrentWindow(), unit, start, end))
    {
      if !IsSet(businessOpensAt) || !IsSet(businessClosesAt) {
        return Err(BusinessHoursNotSet);
      }
      var w := CurrentWindow();
      var s := AdjustDate(w, start);
      var e := AdjustDate(w, end);

      var minutes: nat := 0;
      var currentDay := s;
      var currentDayStart := StartOfDay(s);

      if IsSameDay(s, e) {
        return Ok(DiffInUnit(unit, s, e));
      }

      ghost var ds, de := Day(s), Day(e);
      ghost var day := ds;
      ClampedAfterMidnight(w, end);
      AcrossDays(w, unit, start, end);

      while currentDayStart < e
        invariant Day(currentDay) == day && currentDayStart == day * SecondsPerDay
        invariant ds <= day
        invariant day == ds ==> minutes == 0
        invariant day > ds ==>
          ds < de && !IsWeekend(day) && minutes == FirstDayPart(w, unit, s) + WholeDays(w, unit, ds + 1, day)
        invariant day > ds && day > de ==> WeekdayCount(de, day) == 0
        decreases e - currentDayStart
      {
        var currentDayBusinessStart := BusinessStart(w, currentDayStart);
        var currentDayBusinessEnd := BusinessEnd(w, currentDayStart);

        if IsSameDay(e, currentDay) {
          assert day == de && ds < de && !IsWeekend(de);
          assert currentDayBusinessStart == BusinessStart(w, e);
          return Ok(Some(minutes + NullAsZero(DiffInUnit(unit, currentDayBusinessStart, e))));
        }

        ghost var next := Day(NextWeekday(currentDayStart));
        if IsSameDay(s, currentDay) {
          LeaveFirstDay(w, unit, s, currentDayStart);
          minutes := minutes + NullAsZero(DiffInUnit(unit, s, currentDayBusinessEnd));
          assert minutes == FirstDayPart(w, unit, s) + WholeDays(w, unit, ds + 1, next);
        } else {
          LeaveWholeDay(w, unit, ds + 1, currentDayStart);
          minutes := minutes + NullAsZero(DiffInUnit(unit, currentDayBusinessStart, currentDayBusinessEnd));
          assert minutes == FirstDayPart(w, unit, s) + WholeDays(w, unit, ds + 1, next);
        }
        if day < de < next {
          StepOver(currentDayStart, de);
        }
        NextWeekdaySameDay(currentDay, currentDayStart);
        currentDay := NextWeekday(currentDay);
        currentDayStart := NextWeekday(currentDayStart);
        day := next;
      }

      assert de < day;
      if day > ds {
        WholeDaysSkip(w, unit, ds + 1, de, day);
        if !IsWeekend(de) {
          WeekdayCountZero(de, de, day);
        }
      }
      return Ok(Some(minutes));
    }
  }

  // The calculations below use a 9 to 17 window; day 0 is a Monday.

  /** Monday 08:00 to 18:00 is the whole window: 480 minutes. */
  method ExampleWholeDay() {
    var hoursDiff := new BusinessHoursDiff(Some(9), Some(17));
    var r := hoursDiff.Diff(8 * SecondsPerHour, 18 * SecondsPerHour);
    assert r == Ok(Some(480));
  }

  /** Monday 10:00 to Wednesday 11:00 is 420 + 480 + 120 minutes. */
  method ExampleAcrossDays() {
    var hoursDiff := new BusinessHoursDiff(Some(9), Some(17));
    var start, end := 10 * SecondsPerHour, 2 * SecondsPerDay + 11 * SecondsPerHour;
    assert Day(AdjustDate(hoursDiff.CurrentWindow(), start)) == 0;
    assert Day(AdjustDate(hoursDiff.CurrentWindow(), end)) == 2;
    assert WeekdayCount(1, 2) == 1;
    var r := hoursDiff.Diff(start, end);
    assert r == Ok(Some(1020));
  }

  /** Friday 16:00 to Monday 10:00 skips Saturday and Sunday: 60 + 60 minutes. */
  method ExampleOverWeekend() {
    var hoursDiff := new BusinessHoursDiff(Some(9), Some(17));
    var r := hoursDiff.Diff(4 * SecondsPerDay + 16 * SecondsPerHour, 7 * SecondsPerDay + 10 * SecondsPerHour);
    assert r == Ok(Some(120));
  }

  /** A start on a Saturday still counts that Saturday from the start to closing. */
  method ExampleSaturdayStart() {
    var hoursDiff := new BusinessHoursDiff(Some(9), Some(17));
    var r := hoursDiff.Diff(5 * SecondsPerDay + 10 * SecondsPerHour, 6 * SecondsPerDay + 10 * SecondsPerHour);
    assert r == Ok(Some(420));
  }

  /** Seconds can be selected; an unknown unit name is ignored afterwards. */
  method ExampleUnits() {
    var hoursDiff := new BusinessHoursDiff(Some(9), Some(17));
    var same := hoursDiff.SetUnit("sec");
    same := hoursDiff.SetUnit("hours");
    var r := hoursDiff.Diff(10 * SecondsPerHour, 11 * SecondsPerHour);
    assert r == Ok(Some(3600));
  }

  /** A midnight opening hour counts as unset. */
  method ExampleMidnightOpening() {
    var hoursDiff := new BusinessHoursDiff(Some(9), Some(17));
    var same := hoursDiff.SetBusinessOpensAt(0);
    var r := hoursDiff.Diff(0, 2 * SecondsPerDay);
    assert r == Err(BusinessHoursNotSet);
  }
}

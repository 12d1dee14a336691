# BusinessHoursDiff in Dafny

A model of the PHP class `Raupp\BusinessHoursDiff`. The class counts the time
between two instants, but only the time inside a daily business window that
opens at `businessOpensAt` hours and closes at `businessClosesAt` hours. It
steps from day to day and skips Saturdays and Sundays. The result is in
seconds or in whole minutes, depending on the selected unit.

The project has four modules:

- `Wrappers` (`wrappers.dfy`): `Option` (PHP's `null`) and `Result` (a value or the one exception).
- `Instants` (`instants.dfy`): a stand-in for the date library the class uses. An instant is an
  integer number of seconds since an epoch on a Monday at 00:00. The day number is
  `t / 86400` and the day of the week is `day % 7`, with 5 and 6 as the weekend. It provides
  start of day, adding hours, the same-day test, absolute second and truncated minute
  differences, and `NextWeekday`. `NextWeekday` keeps the time of day and lands on the first
  Monday-to-Friday day after the current one.
- `BusinessHours` (`business_hours.dfy`): the class's protected helpers as functions over a
  `Window` value. These are `businessStart`, `businessEnd`, `adjustDate` and `diffInUnit`. The
  module also holds `BusinessTime`, a closed-form reference definition of the result, and
  the lemmas about all of them. `BusinessTime` adds up three parts:
  - the start's own day, from the start to closing;
  - one whole window for each Monday-to-Friday day strictly between the two days (a weekday count);
  - opening to the end, when the end's day is a weekday.
- `Raupp` (`business_hours_diff.dfy`): the class `BusinessHoursDiff` with its three fields, the
  constructor, the setters and `Diff`. `Diff` is the source's day-stepping `while` loop with the
  two cursors `currentDay` and `currentDayStart`. It is proved to return exactly `BusinessTime`,
  or the configuration error. Small client methods (`ExampleAcrossDays`, `ExampleOverWeekend`,
  …) use only the contracts to derive the figures stated in their doc comments. With a 9-to-17
  window, Monday 10:00 to Wednesday 11:00 is 420 + 480 + 120 = 1020 minutes, and Friday 16:00
  to Monday 10:00 is 120 minutes.

Behaviour of the code worth knowing:

- The doc comment of `unit` (src/BusinessHoursDiff.php:89-90) lists only `min`. The list of
  accepted names (src/BusinessHoursDiff.php:34-39) also holds `sec`, `seconds` and `minutes`. The
  model accepts all four.
- On the end's day the code adds the span from opening to the clamped end. It does not also add
  a separate full day when the end is past closing.
- Weekends are skipped only when the cursor moves forward. The start's own day always counts,
  even when it is a Saturday or a Sunday (`ExampleSaturdayStart`), and so does a same-day
  interval on a weekend.
- When the end's day comes before the start's day, the loop never runs and the result is 0.
  On a single day the result is the absolute distance, whichever instant comes first.
- An opening hour of 0 (midnight) counts as unset, because the guard tests PHP truthiness
  (`ExampleMidnightOpening`).
- With a unit name the constructor let through unchecked, every `diffInUnit` call yields `null`:
  the one call on the same-day path and the one call in each loop step across days. A same-day
  call then returns `null`, and a call across days returns 0, because PHP adds `null` as 0
  (`UnknownUnit`).

## Model

| member | source | states |
|---|---|---|
| `Instants.StartOfDay` | src/BusinessHoursDiff.php:204 | midnight of the same day: at or before the instant and less than a day before it |
| `Instants.DiffInSeconds` | src/BusinessHoursDiff.php:167 | the distance in seconds between two instants, whichever comes first |
| `Instants.DiffInMinutes` | src/BusinessHoursDiff.php:172 | whole minutes, truncated: `r * 60 <= seconds < (r + 1) * 60` |
| `Instants.NextWeekday` | src/BusinessHoursDiff.php:147-148 | 1 to 3 days later, on a Monday-to-Friday day, at the same time of day |
| `Instants.NextWeekdayPassesWeekends` | src/BusinessHoursDiff.php:147-148 | every day the step passes over is a Saturday or a Sunday |
| `Instants.NextWeekdaySameDay` | src/BusinessHoursDiff.php:147-148 | the two cursors, which start on the same day, are on the same day again after each step |
| `BusinessHours.BusinessStart` | src/BusinessHoursDiff.php:202-205 | the opening instant lies on the same day, `opensAt` hours after midnight |
| `BusinessHours.BusinessEnd` | src/BusinessHoursDiff.php:213-216 | the closing instant lies on the same day, `closesAt` hours after midnight |
| `BusinessHours.AdjustDate` | src/BusinessHoursDiff.php:184-194 | for an ordered window: the result is on the input's day and inside its window; an input inside the window is unchanged; one before opening snaps to opening and one after closing snaps to closing |
| `BusinessHours.AdjustDateIdempotent` | src/BusinessHoursDiff.php:184-194 | clamping an instant that is already clamped gives the same instant |
| `BusinessHours.AdjustDateMonotone` | src/BusinessHoursDiff.php:184-194 | clamping keeps two instants in order |
| `BusinessHours.ClampedAfterMidnight` | src/BusinessHoursDiff.php:116-132 | with a set (non-zero) opening hour, a clamped instant lies strictly after its day's midnight, so the loop reaches the end's day |
| `BusinessHours.DiffInUnit` | src/BusinessHoursDiff.php:161-176 | a value exactly for the four unit names; the absolute seconds for `sec`/`seconds`; the truncated minutes for `min`/`minutes` |
| `BusinessHours.WindowIsFullDay` | src/BusinessHoursDiff.php:134-144 | the window of any day measures one whole business day, `FullDay` |
| `BusinessHours.SameDayInsideWindow` | src/BusinessHoursDiff.php:126-130 | two instants inside one day's window measure as their plain distance |
| `BusinessHours.SameSideOutsideIsZero` | src/BusinessHoursDiff.php:118-130 | on one day, two instants both before opening or both after closing measure 0 |
| `BusinessHours.UnknownUnit` | src/BusinessHoursDiff.php:161-176 | with an unknown unit, a same-day call gives no value and a call across days gives 0 |
| `BusinessHours.WholeWeekIsFiveDays` | src/BusinessHoursDiff.php:132-149 | from a weekday's opening to the same opening a week later lie exactly five whole business days |
| `BusinessHours.WeekendEndIsFridayClose` | src/BusinessHoursDiff.php:137-148 | an end anywhere on a Saturday or a Sunday measures the same as an end at the preceding Friday's closing, for a start on an earlier day: weekend days add nothing |
| `BusinessHours.BusinessSecondsAtMostElapsed` | src/BusinessHoursDiff.php:114-152 | in seconds, the business time never exceeds the time that elapses from start to end |
| `Raupp.BusinessHoursDiff.constructor` | src/BusinessHoursDiff.php:55-60 | stores both bounds and the unit as given (defaults: unset, unset, `min`); the unit is not checked |
| `Raupp.BusinessHoursDiff.SetBusinessOpensAt` | src/BusinessHoursDiff.php:68-72 | sets the opening hour, leaves the other fields alone, and returns the same object |
| `Raupp.BusinessHoursDiff.SetBusinessClosesAt` | src/BusinessHoursDiff.php:80-84 | sets the closing hour, leaves the other fields alone, and returns the same object |
| `Raupp.BusinessHoursDiff.SetUnit` | src/BusinessHoursDiff.php:95-102 | changes the unit only to an accepted name (`sec`, `seconds`, `min`, `minutes`) and leaves the bounds alone |
| `Raupp.BusinessHoursDiff.Diff` | src/BusinessHoursDiff.php:114-152 | fails with "business hours not set" exactly when a bound is `null` or 0; otherwise returns `BusinessTime` of the clamped ends: the plain distance on one day, otherwise the first-day part plus one window per weekday strictly between plus the last-day part on a weekday; the loop terminates and changes nothing |

The loop proof of `Diff` rests on helper lemmas in `business_hours.dfy` that have no row of
their own, because each states one step of that proof rather than a promise of the class:
`WeekdayCountSplit` (a weekday count splits at any middle day), `WeekHasFiveWeekdays`,
`NextWeekdayCount` (one cursor step passes no weekday but the one it leaves), `LeaveFirstDay`,
`LeaveWholeDay`, `StepOver` and `AcrossDays` (the reference value in the shape the loop builds).

## Left out

- Date-library internals are not modelled: time zones, daylight-saving shifts, locale and real calendar arithmetic. Instants are plain integer seconds on a uniform calendar of 86400-second days, starting on a Monday.
- Only one failure is modelled. The PHP exception class and its message are not.
- The setters are named `SetBusinessOpensAt`, `SetBusinessClosesAt` and `SetUnit`, because a Dafny class cannot have a method and a field with the same name. Each returns `this`, which is all that fluent chaining needs.
- PHP's coercion of `null` in the typed constructor parameters is not modelled. An hour bound is an `Option<int>`. `None` stands for `null`, and `None` and `Some(0)` both count as unset.
- Diff: requires a configured window with `0 <= businessOpensAt <= businessClosesAt < 24`. The source leaves an inverted window, or hours outside one day, without defined behaviour. The model does not invent results for them.
- The protected helpers `businessStart`, `businessEnd`, `adjustDate` and `diffInUnit` are functions over a `Window` value and a unit name, not class methods. In the source they read `$this->businessOpensAt`, `$this->businessClosesAt` and `$this->unit` (src/BusinessHoursDiff.php:163, :204, :215). `diff` assigns no field while it runs (src/BusinessHoursDiff.php:114-152), so passing the field values as arguments gives the same results.
- PHP's 64-bit integer limits are not modelled. Integers are unbounded, which matches the source for any realistic instant.

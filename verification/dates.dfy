/**
 * Date arithmetic of flowmachine's utilities: the days between two dates and
 * adding a time period to a date. A date-time is a count of microseconds
 * from a midnight (so day `d` starts at `d * MicrosPerDay`); parsing and
 * printing the `YYYY-MM-DD` calendar text are not part of this model, so a
 * printed date is its day number.
 */
module Dates {
  import opened Wrappers

  const MicrosPerSecond := 1_000_000
  const MicrosPerDay := 86_400 * MicrosPerSecond

  /** The day a date-time falls on (what `%Y-%m-%d` prints). */
  function DayOf(t: int): int {
    t / MicrosPerDay
  }

  /** The time of day, in microseconds since midnight. */
  function TimeOfDay(t: int): (r: int)
    ensures 0 <= r < MicrosPerDay
    ensures t == DayOf(t) * MicrosPerDay + r
  {
    t % MicrosPerDay
  }

  datatype DateError = StartAfterStop

  /**
   * `list_of_dates(start, stop)`: the day of `start` and each following day,
   * `(stop - start).days + 1` of them; a stop before the start is an error.
   */
  function ListOfDates(start: int, stop: int): (r: Result<seq<int>, DateError>)
    ensures r.Err? <==> stop < start
    ensures r.Ok? ==> |r.value| == (stop - start) / MicrosPerDay + 1
    ensures r.Ok? ==> forall i :: 0 <= i < |r.value| ==> r.value[i] == DayOf(start + i * MicrosPerDay)
  {
    if stop < start then Err(StartAfterStop)
    else
      var totalDays := (stop - start) / MicrosPerDay;
      Ok(seq(totalDays + 1, i requires 0 <= i <= totalDays => DayOf(start + i * MicrosPerDay)))
  }

  lemma DayOfAddDays(t: int, i: int)
    ensures DayOf(t + i * MicrosPerDay) == DayOf(t) + i
  {
    var q, r := DayOf(t), TimeOfDay(t);
    assert t + i * MicrosPerDay == (q + i) * MicrosPerDay + r;
  }

  /**
   * Between two dates given as days, the list holds every day from the first
   * to the last, both included, in order.
   */
  lemma ListOfDatesIsInclusiveRange(startDay: int, stopDay: int)
    requires startDay <= stopDay
    ensures var r := ListOfDates(startDay * MicrosPerDay, stopDay * MicrosPerDay);
            && r.Ok? && |r.value| == stopDay - startDay + 1
            && forall i :: 0 <= i < |r.value| ==> r.value[i] == startDay + i
  {
    var start, stop := startDay * MicrosPerDay, stopDay * MicrosPerDay;
    assert stop - start == (stopDay - startDay) * MicrosPerDay;
    var r := ListOfDates(start, stop);
    forall i | 0 <= i < |r.value| ensures r.value[i] == startDay + i {
      DayOfAddDays(start, i);
      assert DayOf(start) == startDay;
    }
  }

  /** The units `timedelta` accepts, by keyword. */
  function UnitMicros(unit: string): (r: Option<int>)
    ensures r.Some? ==> r.value > 0
    ensures unit == "days" ==> r == Some(MicrosPerDay)
    ensures unit == "hours" ==> r == Some(3_600 * MicrosPerSecond)
  {
    if unit == "weeks" then Some(7 * MicrosPerDay)
    else if unit == "days" then Some(MicrosPerDay)
    else if unit == "hours" then Some(3_600 * MicrosPerSecond)
    else if unit == "minutes" then Some(60 * MicrosPerSecond)
    else if unit == "seconds" then Some(MicrosPerSecond)
    else if unit == "milliseconds" then Some(1_000)
    else if unit == "microseconds" then Some(1)
    else None
  }

  /** What `time_period_add` prints: the date alone, or the date with the time to the second. */
  datatype DateText = DateOnly(day: int) | DateAndTime(day: int, second: int)

  /** An unknown unit is not a keyword of `timedelta`. */
  datatype PeriodError = InvalidUnit(unit: string)

  /**
   * `time_period_add(date, n, unit)`: adds `n` units and prints the result,
   * dropping the time when it reads `00:00:00` (microseconds are not printed).
   */
  function TimePeriodAdd(date: int, n: int, unit: string): (r: Result<DateText, PeriodError>)
    ensures r.Err? <==> UnitMicros(unit).None?
    ensures r.Ok? ==> r.value.day == DayOf(date + n * UnitMicros(unit).value)
    ensures r.Ok? ==> (r.value.DateOnly? <==> TimeOfDay(date + n * UnitMicros(unit).value) < MicrosPerSecond)
    ensures r.Ok? && r.value.DateAndTime? ==> 0 < r.value.second < 86_400
  {
    match UnitMicros(unit)
    case None => Err(InvalidUnit(unit))
    case Some(step) =>
      var t := date + n * step;
      var second := TimeOfDay(t) / MicrosPerSecond;
      if second == 0 then Ok(DateOnly(DayOf(t))) else Ok(DateAndTime(DayOf(t), second))
  }

  /** Adding whole days to a date gives a date, `n` days later (`('2016-01-01', 3)` gives `'2016-01-04'`). */
  lemma AddDaysToDate(day: int, n: int)
    ensures TimePeriodAdd(day * MicrosPerDay, n, "days") == Ok(DateOnly(day + n))
  {
    DayOfAddDays(day * MicrosPerDay, n);
    assert TimeOfDay(day * MicrosPerDay + n * MicrosPerDay) == 0 by {
      assert day * MicrosPerDay + n * MicrosPerDay == (day + n) * MicrosPerDay;
    }
  }

  /** Twenty-four hours are a day. */
  lemma HoursAsDays(date: int, n: int)
    ensures TimePeriodAdd(date, 24 * n, "hours") == TimePeriodAdd(date, n, "days")
  {
    assert 24 * n * (3_600 * MicrosPerSecond) == n * MicrosPerDay;
  }

  /** Half a day after midnight prints with its time. */
  lemma HalfDayKeepsTime(day: int)
    ensures TimePeriodAdd(day * MicrosPerDay, 12, "hours") == Ok(DateAndTime(day, 43_200))
  {
    var t := day * MicrosPerDay + 12 * (3_600 * MicrosPerSecond);
    assert t == day * MicrosPerDay + 43_200 * MicrosPerSecond;
  }
}

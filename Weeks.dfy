/**
 * The week arithmetic of the timetable manager: Sunday-start week numbers
 * counted from January 1 (`getDateWeek`), and the Sunday and Saturday of a
 * numbered week (`getWeekStartDate`, `getWeekEndDate`). This is not ISO 8601
 * week numbering: week 1 is the Sunday-to-Saturday span holding January 1.
 */
module Weeks {
  import opened Calendar

  /** `Math.ceil(n / 7)` for an integer n. */
  function CeilDiv7(n: int): (q: int)
    ensures 7 * (q - 1) < n <= 7 * q
  {
    (n + 6) / 7
  }

  /**
   * Counting the days from j, shifted by j's weekday, and rounding up to
   * weeks gives one more than the number of weeks between the Sundays
   * starting the spans of j and d.
   */
  lemma SundaysApart(d: int, j: int)
    ensures 7 * (CeilDiv7(d - j + Weekday(j) + 1) - 1) == SundayOnOrBefore(d) - SundayOnOrBefore(j)
  {
    var a := SundayIndex(d);
    var b := SundayIndex(j);
    assert d - j + Weekday(j) + 1 == 7 * (a - b) + Weekday(d) + 1;
  }

  /** The calendar year of an instant (`getFullYear`). */
  function DateYear(t: int): (y: int)
    ensures YearStart(y) <= DayOf(t) < YearStart(y + 1)
  {
    YearOf(DayOf(t))
  }

  /** The Sunday on or before an epoch day. */
  function SundayOnOrBefore(day: int): (s: int)
    ensures Weekday(s) == 0
    ensures day - 6 <= s <= day
  {
    day - Weekday(day)
  }

  /** A Sunday is 3 days after a multiple of 7 (day 3 was 1970-01-04, a Sunday). */
  lemma SundayIndex(day: int) returns (k: int)
    ensures SundayOnOrBefore(day) == 7 * k + 3
  {
    k := (day - Weekday(day)) / 7;
  }

  /** Whole days between January 1 (midnight) of the instant's year and the instant. */
  lemma DaysSinceYearStart(t: int, year: int)
    ensures (t - YearStart(year) * MS_PER_DAY) / MS_PER_DAY == DayOf(t) - YearStart(year)
  {
    DayOfDaysPlus(DayOf(t) - YearStart(year), t - DayOf(t) * MS_PER_DAY);
  }

  /** The week number of an instant within its own year. */
  function DateWeek(t: int): (w: int)
    ensures 1 <= w <= 54
  {
    var year := DateYear(t);
    var firstDay := YearStart(year) * MS_PER_DAY;
    var days := (t - firstDay) / MS_PER_DAY;
    DaysSinceYearStart(t, year);
    DayOfYearBound(DayOf(t));
    CeilDiv7(days + Weekday(YearStart(year)) + 1)
  }

  /** The week number counts whole days from January 1, shifted by January 1's weekday. */
  lemma DateWeekDays(t: int)
    ensures var j := YearStart(DateYear(t));
      DateWeek(t) == CeilDiv7(DayOf(t) - j + Weekday(j) + 1)
  {
    DaysSinceYearStart(t, DateYear(t));
  }

  /**
   * The week number only depends on the Sunday starting the date's span:
   * that Sunday lies exactly DateWeek - 1 weeks after the Sunday on or
   * before January 1.
   */
  lemma DateWeekOfSunday(t: int)
    ensures var j := YearStart(DateYear(t));
      7 * (DateWeek(t) - 1) == SundayOnOrBefore(DayOf(t)) - SundayOnOrBefore(j)
  {
    DateWeekDays(t);
    SundaysApart(DayOf(t), YearStart(DateYear(t)));
  }

  /** Two dates of one year in the same Sunday-to-Saturday span share a week number. */
  lemma SameSpanSameWeek(t1: int, t2: int)
    requires DateYear(t1) == DateYear(t2)
    requires SundayOnOrBefore(DayOf(t1)) == SundayOnOrBefore(DayOf(t2))
    ensures DateWeek(t1) == DateWeek(t2)
  {
    DateWeekOfSunday(t1);
    DateWeekOfSunday(t2);
  }

  /** Within one year the week number never decreases as the date advances. */
  lemma DateWeekMonotone(t1: int, t2: int)
    requires DateYear(t1) == DateYear(t2)
    requires t1 <= t2
    ensures DateWeek(t1) <= DateWeek(t2)
  {
    var d1, d2 := DayOf(t1), DayOf(t2);
    assert d1 <= d2;
    var a1 := SundayIndex(d1);
    var a2 := SundayIndex(d2);
    assert a1 <= a2;
    DateWeekOfSunday(t1);
    DateWeekOfSunday(t2);
  }

  /**
   * The Sunday (at midday) of week `week` of `year`: January 1 at noon,
   * moved on (week - 1) * 7 days, then back to the Sunday of that span.
   */
  function WeekStartDate(year: int, week: int): (t: int)
    ensures Weekday(DayOf(t)) == 0
    ensures t - DayStart(t) == 12 * MS_PER_HOUR
    ensures DayOf(t) == YearStart(year) + 7 * (week - 1) - Weekday(YearStart(year))
  {
    var j := YearStart(year);
    var firstDayOfYear := j * MS_PER_DAY + 12 * MS_PER_HOUR;
    var daysOffset := (week - 1) * 7;
    var weekStartDate := firstDayOfYear + daysOffset * MS_PER_DAY;
    assert weekStartDate == (j + daysOffset) * MS_PER_DAY + 12 * MS_PER_HOUR;
    DayOfDaysPlus(j + daysOffset, 12 * MS_PER_HOUR);
    WeekdayShift(j, week - 1);
    var dayOfWeek := Weekday(DayOf(weekStartDate));
    BackToSunday(j + daysOffset);
    assert weekStartDate - dayOfWeek * MS_PER_DAY == (j + daysOffset - dayOfWeek) * MS_PER_DAY + 12 * MS_PER_HOUR;
    DayOfDaysPlus(j + daysOffset - dayOfWeek, 12 * MS_PER_HOUR);
    weekStartDate - dayOfWeek * MS_PER_DAY
  }

  /** The Saturday (at midday) six days after WeekStartDate. */
  function WeekEndDate(year: int, week: int): (t: int)
    ensures t == WeekStartDate(year, week) + 6 * MS_PER_DAY
    ensures DayOf(t) == DayOf(WeekStartDate(year, week)) + 6
    ensures Weekday(DayOf(t)) == 6
  {
    var weekStartDate := WeekStartDate(year, week);
    DayOfPlusDays(weekStartDate, 6);
    SaturdayAfter(DayOf(weekStartDate));
    weekStartDate + 6 * MS_PER_DAY
  }

  /** A week whose Sunday lies in the stated year round-trips through DateWeek. */
  lemma WeekStartRoundTrip(year: int, week: int)
    requires DateYear(WeekStartDate(year, week)) == year
    ensures DateWeek(WeekStartDate(year, week)) == week
  {
    DateWeekOfSunday(WeekStartDate(year, week));
  }

  /** A week whose Saturday lies in the stated year round-trips through DateWeek. */
  lemma WeekEndRoundTrip(year: int, week: int)
    requires DateYear(WeekEndDate(year, week)) == year
    ensures DateWeek(WeekEndDate(year, week)) == week
  {
    var e := WeekEndDate(year, week);
    assert SundayOnOrBefore(DayOf(e)) == DayOf(WeekStartDate(year, week));
    DateWeekOfSunday(e);
  }

  /** Every date lies between the start and end of the week it is numbered in. */
  lemma DateInItsWeek(t: int)
    ensures DayOf(WeekStartDate(DateYear(t), DateWeek(t))) == SundayOnOrBefore(DayOf(t))
    ensures DayOf(WeekStartDate(DateYear(t), DateWeek(t))) <= DayOf(t) <= DayOf(WeekEndDate(DateYear(t), DateWeek(t)))
  {
    DateWeekOfSunday(t);
  }

  /** The Saturday of week 1 always lies in the year itself, so it is numbered week 1. */
  lemma FirstWeekEnd(year: int)
    ensures DateYear(WeekEndDate(year, 1)) == year
    ensures DateWeek(WeekEndDate(year, 1)) == 1
  {
    YearStartStep(year);
    YearOfUnique(DayOf(WeekEndDate(year, 1)), year);
    WeekEndRoundTrip(year, 1);
  }

  /**
   * Unless January 1 is a Sunday, the Sunday of week 1 lies in the previous
   * year, where it is numbered week 53 or 54: the start of week 1 does not
   * round-trip.
   */
  lemma FirstWeekStartInPreviousYear(year: int)
    requires Weekday(YearStart(year)) != 0
    ensures DateYear(WeekStartDate(year, 1)) == year - 1
    ensures DateWeek(WeekStartDate(year, 1)) >= 53
  {
    var s := WeekStartDate(year, 1);
    YearStartStep(year - 1);
    YearOfUnique(DayOf(s), year - 1);
    DateWeekOfSunday(s);
  }

  /**
   * Friday 2024-03-01 and Saturday 2024-03-02 share week 9 of 2024;
   * Monday 2024-03-04 starts week 10.
   */
  lemma March2024Weeks()
    ensures DateYear(19783 * MS_PER_DAY) == 2024 && DateWeek(19783 * MS_PER_DAY) == 9
    ensures DateYear(19784 * MS_PER_DAY) == 2024 && DateWeek(19784 * MS_PER_DAY) == 9
    ensures DateYear(19786 * MS_PER_DAY) == 2024 && DateWeek(19786 * MS_PER_DAY) == 10
  {
    assert YearStart(2024) == 19723;
    assert YearStart(2025) == 20089;
    DayOfDaysPlus(19783, 0);
    DayOfDaysPlus(19784, 0);
    DayOfDaysPlus(19786, 0);
    YearOfUnique(19783, 2024);
    YearOfUnique(19784, 2024);
    YearOfUnique(19786, 2024);
    DateWeekOfSunday(19783 * MS_PER_DAY);
    DateWeekOfSunday(19784 * MS_PER_DAY);
    DateWeekOfSunday(19786 * MS_PER_DAY);
  }
}

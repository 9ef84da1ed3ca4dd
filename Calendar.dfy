/**
 * The part of the JavaScript `Date` model the timetable code relies on:
 * instants are whole milliseconds since 1970-01-01T00:00:00Z, days are
 * counted from that epoch, and years follow the proleptic Gregorian
 * calendar. One time zone (UTC) is used for the day, the weekday and the
 * year alike.
 */
module Calendar {

  const MS_PER_MINUTE: int := 60_000
  const MS_PER_HOUR: int := 3_600_000
  const MS_PER_DAY: int := 86_400_000

  /** The epoch day an instant falls on (floor division, also for instants before 1970). */
  function DayOf(t: int): (d: int)
    ensures d * MS_PER_DAY <= t < d * MS_PER_DAY + MS_PER_DAY
  {
    t / MS_PER_DAY
  }

  /** Dividing an instant written as whole days plus an offset within a day. */
  lemma DayOfDaysPlus(d: int, offset: int)
    requires 0 <= offset < MS_PER_DAY
    ensures DayOf(d * MS_PER_DAY + offset) == d
  {
  }

  /** Moving an instant by whole days moves its day by as many. */
  lemma DayOfPlusDays(t: int, n: int)
    ensures DayOf(t + n * MS_PER_DAY) == DayOf(t) + n
  {
    var d := DayOf(t);
    var offset := t - d * MS_PER_DAY;
    assert t + n * MS_PER_DAY == (d + n) * MS_PER_DAY + offset;
    DayOfDaysPlus(d + n, offset);
  }

  /** Day of the week, 0 for Sunday; the epoch day 0 (1970-01-01) was a Thursday. */
  function Weekday(day: int): (w: int)
    ensures 0 <= w < 7
    ensures (day - w) % 7 == 3
  {
    (day + 4) % 7
  }

  /** Moving a whole number of weeks keeps the weekday. */
  lemma WeekdayShift(day: int, weeks: int)
    ensures Weekday(day + 7 * weeks) == Weekday(day)
  {
    var a, b := day - Weekday(day), day + 7 * weeks - Weekday(day + 7 * weeks);
    assert (b - a) % 7 == 0 by {
      assert a % 7 == 3 && b % 7 == 3;
    }
  }

  /** Going back to the last Sunday: the day minus its weekday is a Sunday. */
  lemma BackToSunday(day: int)
    ensures Weekday(day - Weekday(day)) == 0
  {
    var s := day - Weekday(day);
    assert s % 7 == 3;
    assert (s + 4) % 7 == 0;
  }

  /** Six days after a Sunday is a Saturday. */
  lemma SaturdayAfter(sunday: int)
    requires Weekday(sunday) == 0
    ensures Weekday(sunday + 6) == 6
  {
  }

  /** Midnight at the start of the instant's day (`setHours(0, 0, 0, 0)`). */
  function DayStart(t: int): (s: int)
    ensures s <= t && DayOf(s) == DayOf(t)
    ensures s % MS_PER_DAY == 0
  {
    DayOfDaysPlus(DayOf(t), 0);
    DayOf(t) * MS_PER_DAY
  }

  /** The last millisecond of the instant's day (`setHours(23, 59, 59, 999)`). */
  function DayEnd(t: int): (e: int)
    ensures t <= e && DayOf(e) == DayOf(t)
    ensures e + 1 == DayStart(t) + MS_PER_DAY
  {
    DayOfDaysPlus(DayOf(t), MS_PER_DAY - 1);
    DayOf(t) * MS_PER_DAY + MS_PER_DAY - 1
  }

  /** An instant lies in the window [DayStart(t), DayEnd(t)] exactly when it falls on t's day. */
  lemma DayWindow(t: int, s: int)
    ensures DayStart(t) <= s <= DayEnd(t) <==> DayOf(s) == DayOf(t)
  {
    if DayOf(s) == DayOf(t) {
      assert DayStart(t) <= s <= DayEnd(t);
    }
  }

  predicate IsLeapYear(y: int) {
    y % 4 == 0 && (y % 100 != 0 || y % 400 == 0)
  }

  function DaysInYear(y: int): int {
    if IsLeapYear(y) then 366 else 365
  }

  /** Leap years among 1 .. y-1, continued proleptically below year 1. */
  function LeapYearsBefore(y: int): int {
    (y - 1) / 4 - (y - 1) / 100 + (y - 1) / 400
  }

  /** Epoch day of January 1 of year y. */
  function YearStart(y: int): int {
    365 * (y - 1970) + LeapYearsBefore(y) - LeapYearsBefore(1970)
  }

  lemma DivStep(y: int, k: int)
    requires k == 4 || k == 100 || k == 400
    ensures y / k - (y - 1) / k == if y % k == 0 then 1 else 0
  {
    var q, r := (y - 1) / k, (y - 1) % k;
    assert y - 1 == k * q + r && 0 <= r < k;
    if r == k - 1 {
      assert y == k * (q + 1) + 0;
    } else {
      assert y == k * q + (r + 1);
    }
  }

  /** Consecutive years start DaysInYear days apart. */
  lemma YearStartStep(y: int)
    ensures YearStart(y + 1) == YearStart(y) + DaysInYear(y)
  {
    DivStep(y, 4);
    DivStep(y, 100);
    DivStep(y, 400);
  }

  /** Later years start at least 365 days per year later. */
  lemma {:induction false} YearStartMonotone(a: int, b: int)
    requires a <= b
    ensures YearStart(a) + 365 * (b - a) <= YearStart(b)
    decreases b - a
  {
    if a < b {
      YearStartMonotone(a, b - 1);
      YearStartStep(b - 1);
    }
  }

  function YearUpFrom(y: int, day: int): (r: int)
    requires YearStart(y) <= day
    ensures YearStart(r) <= day < YearStart(r + 1)
    decreases day - YearStart(y)
  {
    YearStartStep(y);
    if day < YearStart(y + 1) then y else YearUpFrom(y + 1, day)
  }

  function YearDownFrom(y: int, day: int): (r: int)
    requires day < YearStart(y + 1)
    ensures YearStart(r) <= day < YearStart(r + 1)
    decreases YearStart(y + 1) - day
  {
    YearStartStep(y);
    if YearStart(y) <= day then y else YearDownFrom(y - 1, day)
  }

  /** The calendar year an epoch day belongs to (`getFullYear`). */
  function YearOf(day: int): (y: int)
    ensures YearStart(y) <= day < YearStart(y + 1)
  {
    if YearStart(1970) <= day then YearUpFrom(1970, day) else YearDownFrom(1969, day)
  }

  /** Two years whose spans share a day are the same year. */
  lemma YearsDisjoint(x: int, y: int, day: int)
    requires YearStart(x) <= day < YearStart(x + 1)
    requires YearStart(y) <= day < YearStart(y + 1)
    ensures x == y
  {
    if x < y {
      YearStartMonotone(x + 1, y);
    } else if y < x {
      YearStartMonotone(y + 1, x);
    }
  }

  /** A day lies in exactly one year. */
  lemma YearOfUnique(day: int, y: int)
    requires YearStart(y) <= day < YearStart(y + 1)
    ensures YearOf(day) == y
  {
    YearsDisjoint(YearOf(day), y, day);
  }

  /** Every day lies less than 366 days after its year's January 1. */
  lemma DayOfYearBound(day: int)
    ensures 0 <= day - YearStart(YearOf(day)) < DaysInYear(YearOf(day)) <= 366
  {
    YearStartStep(YearOf(day));
  }
}

/**
 * The per-day timetable store: a map from a date key to a day bucket,
 * created lazily by the two writers and never by a read, plus a cursor
 * date. Buckets are kept in a sequence of keys in insertion order, as a
 * JavaScript `Map` iterates them.
 */
module Timetable {
  import opened Wrappers
  import opened Activities
  import opened Calendar
  import opened Sequences
  import opened Weeks

  /** One day bucket: the instant it was created for, its activities and the manual hours. */
  datatype DailyTimetable = DailyTimetable(date: int, activities: seq<Activity>, hoursWorked: real)

  /** The map key of an instant: its (UTC) calendar day. */
  function DateKey(t: int): (k: int)
    ensures k * MS_PER_DAY <= t < k * MS_PER_DAY + MS_PER_DAY
  {
    DayOf(t)
  }

  /** The activities of xs, in input order, whose start falls on day `key`. */
  function ActivitiesOn(xs: seq<Activity>, key: int): (r: seq<Activity>)
    ensures forall a :: a in r <==> a in xs && DateKey(a.start) == key
  {
    Filter(xs, (a: Activity) => DateKey(a.start) == key)
  }

  /** The bucket map `after` is `before` with the activities xs filed in. */
  ghost predicate Filed(before: map<int, DailyTimetable>, after: map<int, DailyTimetable>, xs: seq<Activity>) {
    && (forall k :: k in after <==> k in before || ActivitiesOn(xs, k) != [])
    && (forall k :: k in before ==>
          after[k] == before[k].(activities := before[k].activities + ActivitiesOn(xs, k)))
    && (forall k :: k in after && k !in before ==>
          after[k] == DailyTimetable(ActivitiesOn(xs, k)[0].start, ActivitiesOn(xs, k), 0.0))
  }

  /**
   * What filing promises bucket by bucket: every filed activity is in the
   * bucket of its day, hours never change (0 in a new bucket), and a day no
   * activity falls on keeps its bucket, or its absence, as it was.
   */
  lemma FiledFacts(before: map<int, DailyTimetable>, after: map<int, DailyTimetable>, xs: seq<Activity>)
    requires Filed(before, after, xs)
    ensures forall a :: a in xs ==> DateKey(a.start) in after && a in after[DateKey(a.start)].activities
    ensures forall k :: k in after ==> after[k].hoursWorked == if k in before then before[k].hoursWorked else 0.0
    ensures forall k :: ActivitiesOn(xs, k) == [] ==>
      (k in after <==> k in before) && (k in before ==> after[k] == before[k])
  {
    forall a | a in xs ensures DateKey(a.start) in after && a in after[DateKey(a.start)].activities {
      var k := DateKey(a.start);
      assert a in ActivitiesOn(xs, k);
    }
    forall k | ActivitiesOn(xs, k) == [] && k in before ensures after[k] == before[k] {
      assert before[k].activities + [] == before[k].activities;
    }
  }

  /** The bucket map after filing one activity under the day of its start. */
  function FileActivity(m: map<int, DailyTimetable>, a: Activity): (r: map<int, DailyTimetable>)
    ensures r.Keys == m.Keys + {DateKey(a.start)}
    ensures var k := DateKey(a.start);
      && r[k].activities == (if k in m then m[k].activities else []) + [a]
      && r[k].hoursWorked == (if k in m then m[k].hoursWorked else 0.0)
  {
    var key := DateKey(a.start);
    var timetable := if key in m then m[key] else DailyTimetable(a.start, [], 0.0);
    m[key := timetable.(activities := timetable.activities + [a])]
  }

  /** Filing no activities changes nothing. */
  lemma FiledNothing(m: map<int, DailyTimetable>)
    ensures Filed(m, m, [])
  {
    forall k | k in m ensures m[k] == m[k].(activities := m[k].activities + ActivitiesOn([], k)) {
      assert m[k].activities + [] == m[k].activities;
    }
  }

  lemma ActivitiesOnSnoc(xs: seq<Activity>, a: Activity, k: int)
    ensures ActivitiesOn(xs + [a], k) == ActivitiesOn(xs, k) + (if DateKey(a.start) == k then [a] else [])
  {
    assert (xs + [a])[..|xs|] == xs;
  }

  lemma FiledStepKeys(before: map<int, DailyTimetable>, m: map<int, DailyTimetable>, xs: seq<Activity>, a: Activity)
    requires Filed(before, m, xs)
    ensures forall k :: k in FileActivity(m, a) <==> k in before || ActivitiesOn(xs + [a], k) != []
  {
    forall k ensures k in FileActivity(m, a) <==> k in before || ActivitiesOn(xs + [a], k) != [] {
      ActivitiesOnSnoc(xs, a, k);
      if k == DateKey(a.start) {
        assert a in ActivitiesOn(xs + [a], k);
      }
    }
  }

  lemma FiledStepOld(before: map<int, DailyTimetable>, m: map<int, DailyTimetable>, xs: seq<Activity>, a: Activity, k: int)
    requires k in before && k in m
    requires m[k] == before[k].(activities := before[k].activities + ActivitiesOn(xs, k))
    ensures k in FileActivity(m, a)
    ensures FileActivity(m, a)[k] == before[k].(activities := before[k].activities + ActivitiesOn(xs + [a], k))
  {
    var m', b := FileActivity(m, a), before[k];
    ActivitiesOnSnoc(xs, a, k);
    if k == DateKey(a.start) {
      var f := ActivitiesOn(xs, k);
      assert m'[k] == m[k].(activities := m[k].activities + [a]);
      assert b.activities + f + [a] == b.activities + (f + [a]);
    }
  }

  lemma FiledStepNew(before: map<int, DailyTimetable>, m: map<int, DailyTimetable>, xs: seq<Activity>, a: Activity, k: int)
    requires Filed(before, m, xs)
    requires k in FileActivity(m, a) && k !in before
    ensures ActivitiesOn(xs + [a], k) != []
    ensures FileActivity(m, a)[k] == DailyTimetable(ActivitiesOn(xs + [a], k)[0].start, ActivitiesOn(xs + [a], k), 0.0)
  {
    ActivitiesOnSnoc(xs, a, k);
    if k == DateKey(a.start) {
      if k !in m {
        assert ActivitiesOn(xs, k) == [];
      }
    }
  }

  lemma FiledStep(before: map<int, DailyTimetable>, m: map<int, DailyTimetable>, xs: seq<Activity>, a: Activity)
    requires Filed(before, m, xs)
    ensures Filed(before, FileActivity(m, a), xs + [a])
  {
    FiledStepKeys(before, m, xs, a);
    forall k | k in before
      ensures FileActivity(m, a)[k] == before[k].(activities := before[k].activities + ActivitiesOn(xs + [a], k))
    {
      FiledStepOld(before, m, xs, a, k);
    }
    forall k | k in FileActivity(m, a) && k !in before
      ensures FileActivity(m, a)[k] == DailyTimetable(ActivitiesOn(xs + [a], k)[0].start, ActivitiesOn(xs + [a], k), 0.0)
    {
      FiledStepNew(before, m, xs, a, k);
    }
  }

  /** The bucket map after filing the activities xs one by one. */
  function FileAll(m: map<int, DailyTimetable>, xs: seq<Activity>): map<int, DailyTimetable>
  {
    if xs == [] then m
    else
      var init, last := xs[..|xs| - 1], xs[|xs| - 1];
      assert xs == init + [last];
      FileActivity(FileAll(m, init), last)
  }

  /** Filing creates exactly the buckets of the days the activities start on. */
  lemma {:induction false} FileAllKeys(m: map<int, DailyTimetable>, xs: seq<Activity>)
    ensures FileAll(m, xs).Keys == m.Keys + set a | a in xs :: DateKey(a.start)
    decreases |xs|
  {
    if xs != [] {
      var init, last := xs[..|xs| - 1], xs[|xs| - 1];
      assert xs == init + [last];
      FileAllKeys(m, init);
    }
  }

  /** The key order after filing the activities xs one by one into m. */
  function TouchAll(order: seq<int>, m: map<int, DailyTimetable>, xs: seq<Activity>): (r: seq<int>)
    ensures order <= r && |r| <= |order| + |xs|
  {
    if xs == [] then order
    else
      var init := xs[..|xs| - 1];
      Touch(TouchAll(order, m, init), FileAll(m, init), DateKey(xs[|xs| - 1].start))
  }

  /** One more activity is one more filing step. */
  lemma FileAllStep(m: map<int, DailyTimetable>, order: seq<int>, xs: seq<Activity>, i: nat)
    requires i < |xs|
    ensures FileAll(m, xs[..i + 1]) == FileActivity(FileAll(m, xs[..i]), xs[i])
    ensures TouchAll(order, m, xs[..i + 1]) == Touch(TouchAll(order, m, xs[..i]), FileAll(m, xs[..i]), DateKey(xs[i].start))
  {
    assert xs[..i + 1][..i] == xs[..i];
  }

  /** Filing activities one by one files each of them, in input order, under its day. */
  lemma {:induction false} FileAllFiled(m: map<int, DailyTimetable>, xs: seq<Activity>)
    ensures Filed(m, FileAll(m, xs), xs)
    decreases |xs|
  {
    if xs == [] {
      FiledNothing(m);
    } else {
      var init, last := xs[..|xs| - 1], xs[|xs| - 1];
      assert init + [last] == xs;
      FileAllFiled(m, init);
      FiledStep(m, FileAll(m, init), init, last);
    }
  }

  /** Filing keeps the store invariant. */
  lemma {:induction false} FileAllConsistent(m: map<int, DailyTimetable>, order: seq<int>, xs: seq<Activity>)
    requires Consistent(m, order)
    ensures Consistent(FileAll(m, xs), TouchAll(order, m, xs))
    decreases |xs|
  {
    if xs != [] {
      var init := xs[..|xs| - 1];
      FileAllConsistent(m, order, init);
      ConsistentFile(FileAll(m, init), TouchAll(order, m, init), xs[|xs| - 1]);
    }
  }

  /** The bucket dates of the given keys, in the keys' order. */
  function BucketDates(m: map<int, DailyTimetable>, keys: seq<int>): (r: seq<int>)
    requires forall i :: 0 <= i < |keys| ==> keys[i] in m
    ensures |r| == |keys|
    ensures forall i :: 0 <= i < |keys| ==> r[i] == m[keys[i]].date
  {
    if keys == [] then [] else [m[keys[0]].date] + BucketDates(m, keys[1..])
  }

  /** The map after setting the hours of the day of `date`, creating an empty bucket if needed. */
  function WithHours(m: map<int, DailyTimetable>, date: int, hours: real): (r: map<int, DailyTimetable>)
    ensures DateKey(date) in r && r[DateKey(date)].hoursWorked == hours
    ensures DateKey(date) in m ==> r[DateKey(date)] == m[DateKey(date)].(hoursWorked := hours)
    ensures DateKey(date) !in m ==> r[DateKey(date)] == DailyTimetable(date, [], hours)
    ensures forall k :: k != DateKey(date) ==> (k in r <==> k in m) && (k in m ==> r[k] == m[k])
  {
    var key := DateKey(date);
    var timetable := if key in m then m[key] else DailyTimetable(date, [], 0.0);
    m[key := timetable.(hoursWorked := hours)]
  }

  /** Setting the same hours twice gives the same store as setting them once. */
  lemma WithHoursIdempotent(m: map<int, DailyTimetable>, date: int, hours: real)
    ensures WithHours(WithHours(m, date, hours), date, hours) == WithHours(m, date, hours)
  {
  }

  /** The dates of a (sorted) date list that fall in week `week` of year `year`. */
  function DatesInWeek(dates: seq<int>, year: int, week: int): (r: seq<int>)
    ensures forall d {:trigger multiset(r)[d]} ::
      multiset(r)[d] == if DateYear(d) == year && DateWeek(d) == week then multiset(dates)[d] else 0
    ensures forall d :: d in r ==> DateYear(d) == year && DateWeek(d) == week
    ensures Sorted(dates) ==> Sorted(r)
  {
    var p := (d: int) => DateYear(d) == year && DateWeek(d) == week;
    FilterSorted(dates, p);
    Filter(dates, p)
  }

  /**
   * `byWeek` holds exactly the non-empty week groups of `dates`: every year
   * key holds at least one week, every week key a non-empty group.
   */
  ghost predicate Grouped(byWeek: map<int, map<int, seq<int>>>, dates: seq<int>) {
    && (forall y :: y in byWeek ==> |byWeek[y]| > 0)
    && (forall y :: y in byWeek ==> forall w :: w in byWeek[y] ==>
          byWeek[y][w] == DatesInWeek(dates, y, w) && byWeek[y][w] != [])
    && (forall j :: 0 <= j < |dates| ==>
          DateYear(dates[j]) in byWeek && DateWeek(dates[j]) in byWeek[DateYear(dates[j])])
  }

  /** The grouping after appending one date to its (year, week) group. */
  function AddToWeek(byWeek: map<int, map<int, seq<int>>>, date: int): (r: map<int, map<int, seq<int>>>)
    ensures r.Keys == byWeek.Keys + {DateYear(date)}
    ensures var y, w := DateYear(date), DateWeek(date);
      && w in r[y] && r[y][w] == (if y in byWeek && w in byWeek[y] then byWeek[y][w] else []) + [date]
  {
    var year, week := DateYear(date), DateWeek(date);
    var datesByWeek := if year in byWeek then byWeek[year] else map[];
    var group := if week in datesByWeek then datesByWeek[week] else [];
    byWeek[year := datesByWeek[week := group + [date]]]
  }

  lemma DatesInWeekSnoc(dates: seq<int>, date: int, y: int, w: int)
    ensures DatesInWeek(dates + [date], y, w)
         == DatesInWeek(dates, y, w) + (if DateYear(date) == y && DateWeek(date) == w then [date] else [])
  {
    assert (dates + [date])[..|dates|] == dates;
  }

  /** A (year, week) pair with no group yet has no dates so far. */
  lemma MissingGroupEmpty(byWeek: map<int, map<int, seq<int>>>, dates: seq<int>, y: int, w: int)
    requires Grouped(byWeek, dates)
    requires !(y in byWeek && w in byWeek[y])
    ensures DatesInWeek(dates, y, w) == []
  {
    var earlier := DatesInWeek(dates, y, w);
    forall d ensures multiset(earlier)[d] == 0 {
      if d in dates && DateYear(d) == y && DateWeek(d) == w {
        assert false;
      }
    }
    assert multiset(earlier) == multiset{};
  }

  lemma GroupedStepGroup(byWeek: map<int, map<int, seq<int>>>, dates: seq<int>, date: int, y: int, w: int)
    requires Grouped(byWeek, dates)
    requires y in AddToWeek(byWeek, date) && w in AddToWeek(byWeek, date)[y]
    ensures AddToWeek(byWeek, date)[y][w] == DatesInWeek(dates + [date], y, w)
    ensures AddToWeek(byWeek, date)[y][w] != []
  {
    DatesInWeekSnoc(dates, date, y, w);
    if y == DateYear(date) && w == DateWeek(date) && !(y in byWeek && w in byWeek[y]) {
      MissingGroupEmpty(byWeek, dates, y, w);
    }
  }

  /** Every date, including the added one, has its group after the step. */
  lemma GroupedStepCovers(byWeek: map<int, map<int, seq<int>>>, dates: seq<int>, date: int)
    requires forall j :: 0 <= j < |dates| ==>
      DateYear(dates[j]) in byWeek && DateWeek(dates[j]) in byWeek[DateYear(dates[j])]
    ensures var g, s := AddToWeek(byWeek, date), dates + [date];
      forall j :: 0 <= j < |s| ==> DateYear(s[j]) in g && DateWeek(s[j]) in g[DateYear(s[j])]
  {
    var g, s := AddToWeek(byWeek, date), dates + [date];
    forall j | 0 <= j < |s| ensures DateYear(s[j]) in g && DateWeek(s[j]) in g[DateYear(s[j])] {
      if j < |dates| {
        assert s[j] == dates[j];
      }
    }
  }

  /** Appending a date to its group keeps the grouping exact. */
  lemma GroupedStep(byWeek: map<int, map<int, seq<int>>>, dates: seq<int>, date: int)
    requires Grouped(byWeek, dates)
    ensures Grouped(AddToWeek(byWeek, date), dates + [date])
  {
    var g, s := AddToWeek(byWeek, date), dates + [date];
    forall y, w | y in g && w in g[y] ensures g[y][w] == DatesInWeek(s, y, w) && g[y][w] != [] {
      GroupedStepGroup(byWeek, dates, date, y, w);
    }
    GroupedStepCovers(byWeek, dates, date);
  }

  /**
   * A grouping partitions the dates: each date sits, as often as it occurs,
   * in the group of its own year and week, and in no other group.
   */
  lemma GroupedPartition(byWeek: map<int, map<int, seq<int>>>, dates: seq<int>)
    requires Grouped(byWeek, dates)
    ensures forall j :: 0 <= j < |dates| ==>
      var g := byWeek[DateYear(dates[j])][DateWeek(dates[j])];
      multiset(g)[dates[j]] == multiset(dates)[dates[j]]
    ensures forall y, w, d :: y in byWeek && w in byWeek[y] && d in byWeek[y][w] ==>
      y == DateYear(d) && w == DateWeek(d) && d in dates
  {
    forall j | 0 <= j < |dates|
      ensures multiset(byWeek[DateYear(dates[j])][DateWeek(dates[j])])[dates[j]] == multiset(dates)[dates[j]]
    {
      var d := dates[j];
      assert byWeek[DateYear(d)][DateWeek(d)] == DatesInWeek(dates, DateYear(d), DateWeek(d));
    }
    forall y, w, d | y in byWeek && w in byWeek[y] && d in byWeek[y][w]
      ensures y == DateYear(d) && w == DateWeek(d) && d in dates
    {
      var g := DatesInWeek(dates, y, w);
      assert byWeek[y][w] == g;
      assert multiset(g)[d] > 0;
    }
  }

  /** Each year key of a grouping is the year of one of its dates. */
  lemma GroupedYearHasDate(byWeek: map<int, map<int, seq<int>>>, dates: seq<int>, y: int)
    requires Grouped(byWeek, dates) && y in byWeek
    ensures exists d :: d in dates && DateYear(d) == y
  {
    if forall w :: w !in byWeek[y] {
      assert false;
    }
    var w :| w in byWeek[y];
    var g := DatesInWeek(dates, y, w);
    assert byWeek[y][w] == g && g != [];
    assert multiset(g)[g[0]] > 0;
    assert g[0] in dates && DateYear(g[0]) == y;
  }

  /** A grouping has a year key exactly for the years of its dates. */
  lemma GroupedYears(byWeek: map<int, map<int, seq<int>>>, dates: seq<int>)
    requires Grouped(byWeek, dates)
    ensures forall y :: y in byWeek ==> exists d :: d in dates && DateYear(d) == y
    ensures forall d :: d in dates ==> DateYear(d) in byWeek
  {
    forall y | y in byWeek ensures exists d :: d in dates && DateYear(d) == y {
      GroupedYearHasDate(byWeek, dates, y);
    }
    forall d | d in dates ensures DateYear(d) in byWeek {
      var j :| 0 <= j < |dates| && dates[j] == d;
    }
  }

  /** The grouping built by adding the first n dates one after the other. */
  function ByWeek(dates: seq<int>, n: nat): (r: map<int, map<int, seq<int>>>)
    requires n <= |dates|
    ensures n > 0 ==> DateYear(dates[n - 1]) in r && DateWeek(dates[n - 1]) in r[DateYear(dates[n - 1])]
  {
    if n == 0 then map[] else AddToWeek(ByWeek(dates, n - 1), dates[n - 1])
  }

  /** Adding the first n dates one by one groups them by (year, week). */
  lemma {:induction false} ByWeekGrouped(dates: seq<int>, n: nat)
    requires n <= |dates|
    ensures Grouped(ByWeek(dates, n), dates[..n])
  {
    if n > 0 {
      assert dates[..n - 1] + [dates[n - 1]] == dates[..n];
      ByWeekGrouped(dates, n - 1);
      GroupedStep(ByWeek(dates, n - 1), dates[..n - 1], dates[n - 1]);
    }
  }

  /** The loop of `getAllDatesByWeek`: each date appended to its (year, week) group. */
  method GroupByWeek(dates: seq<int>) returns (byWeek: map<int, map<int, seq<int>>>)
    ensures Grouped(byWeek, dates)
  {
    byWeek := map[];
    for i := 0 to |dates|
      invariant byWeek == ByWeek(dates, i)
    {
      byWeek := AddToWeek(byWeek, dates[i]);
    }
    ByWeekGrouped(dates, |dates|);
    assert dates[..|dates|] == dates;
  }

  /**
   * The loop of `addActivities`: each activity is pushed onto the bucket of
   * its day, the bucket created (and its key appended) when missing.
   */
  method FileLoop(m0: map<int, DailyTimetable>, order0: seq<int>, xs: seq<Activity>)
    returns (m: map<int, DailyTimetable>, order: seq<int>)
    ensures m == FileAll(m0, xs) && order == TouchAll(order0, m0, xs)
  {
    m, order := m0, order0;
    for i := 0 to |xs|
      invariant m == FileAll(m0, xs[..i])
      invariant order == TouchAll(order0, m0, xs[..i])
    {
      var activity := xs[i];
      var key := DateKey(activity.start);
      var timetable := if key in m then m[key] else DailyTimetable(activity.start, [], 0.0);
      timetable := timetable.(activities := timetable.activities + [activity]);
      FileAllStep(m0, order0, xs, i);
      if key !in m {
        order := order + [key];
      }
      m := m[key := timetable];
    }
    assert xs[..|xs|] == xs;
  }

  /**
   * The store invariant: `order` lists each bucket key once, every bucket
   * lies under the key of its own date, and manual hours are within 0..24.
   */
  ghost predicate Consistent(m: map<int, DailyTimetable>, order: seq<int>) {
    && (forall i, j :: 0 <= i < j < |order| ==> order[i] != order[j])
    && (forall i :: 0 <= i < |order| ==> order[i] in m)
    && (forall k :: k in m ==> k in order)
    && (forall k :: k in m ==> DateKey(m[k].date) == k && 0.0 <= m[k].hoursWorked <= 24.0)
  }

  /** The key order after a writer touches `key`: appended when the bucket is new. */
  function Touch(order: seq<int>, m: map<int, DailyTimetable>, key: int): (r: seq<int>)
    ensures order <= r && |r| <= |order| + 1
    ensures key !in m ==> key in r
    ensures key in m ==> r == order
    ensures key !in m ==> r == order + [key]
  {
    if key in m then order else order + [key]
  }

  lemma ConsistentFile(m: map<int, DailyTimetable>, order: seq<int>, a: Activity)
    requires Consistent(m, order)
    ensures Consistent(FileActivity(m, a), Touch(order, m, DateKey(a.start)))
  {
    TouchConsistent(m, FileActivity(m, a), order, DateKey(a.start));
  }

  lemma ConsistentHours(m: map<int, DailyTimetable>, order: seq<int>, date: int, hours: real)
    requires Consistent(m, order)
    requires 0.0 <= hours <= 24.0
    ensures Consistent(WithHours(m, date, hours), Touch(order, m, DateKey(date)))
  {
    TouchConsistent(m, WithHours(m, date, hours), order, DateKey(date));
  }

  /**
   * A writer that adds at most the bucket `key` keeps the order exact once
   * `key` is touched; the bucket checks are left to the caller.
   */
  lemma TouchConsistent(m: map<int, DailyTimetable>, m': map<int, DailyTimetable>, order: seq<int>, key: int)
    requires Consistent(m, order)
    requires m'.Keys == m.Keys + {key}
    requires forall k :: k in m' ==> DateKey(m'[k].date) == k && 0.0 <= m'[k].hoursWorked <= 24.0
    ensures Consistent(m', Touch(order, m, key))
  {
    if key !in m {
      var o := order + [key];
      assert forall i :: 0 <= i < |order| ==> o[i] == order[i];
    }
  }

  lemma GroupedSorted(byWeek: map<int, map<int, seq<int>>>, dates: seq<int>)
    requires Grouped(byWeek, dates)
    requires Sorted(dates)
    ensures forall y :: y in byWeek ==> forall w :: w in byWeek[y] ==> Sorted(byWeek[y][w])
  {
  }

  class TimetableManager {
    /** The day buckets, keyed by DateKey. */
    var timetables: map<int, DailyTimetable>
    /** The bucket keys in insertion order. */
    var order: seq<int>
    /** The cursor date used by the display. */
    var currentDate: int

    ghost predicate Valid()
      reads this
    {
      Consistent(timetables, order)
    }

    /** An empty store whose cursor is the given clock reading. */
    constructor (now: int)
      ensures Valid()
      ensures timetables == map[] && order == [] && currentDate == now
    {
      timetables := map[];
      order := [];
      currentDate := now;
    }

    /** Records the manual hours of the day of `date`. */
    method SetHoursWorked(date: int, hours: real)
      requires Valid()
      requires 0.0 <= hours <= 24.0
      modifies this
      ensures Valid()
      ensures timetables == WithHours(old(timetables), date, hours)
      ensures order == if DateKey(date) in old(timetables) then old(order) else old(order) + [DateKey(date)]
      ensures currentDate == old(currentDate)
      ensures HoursWorked(date) == hours
    {
      var key := DateKey(date);
      ConsistentHours(timetables, order, date, hours);
      var timetable := if key in timetables then timetables[key] else DailyTimetable(date, [], 0.0);
      timetable := timetable.(hoursWorked := hours);
      if key !in timetables {
        order := order + [key];
      }
      timetables := timetables[key := timetable];
    }

    /** The manual hours of the day of `date`; 0 for a day without a bucket. */
    function HoursWorked(date: int): (h: real)
      reads this
      requires Valid()
      ensures 0.0 <= h <= 24.0
      ensures DateKey(date) !in timetables ==> h == 0.0
      ensures DateKey(date) in timetables ==> h == timetables[DateKey(date)].hoursWorked
    {
      var key := DateKey(date);
      if key in timetables then timetables[key].hoursWorked else 0.0
    }

    /** Files each activity, in order, under the day its start falls on. */
    method AddActivities(xs: seq<Activity>)
      requires Valid()
      modifies this
      ensures Valid()
      ensures currentDate == old(currentDate)
      ensures Filed(old(timetables), timetables, xs)
      ensures old(order) <= order
    {
      FileAllFiled(timetables, xs);
      FileAllConsistent(timetables, order, xs);
      timetables, order := FileLoop(timetables, order, xs);
    }

    /** The bucket of the day of `date`, if one was created. */
    function TimetableForDate(date: int): (r: Option<DailyTimetable>)
      reads this
      requires Valid()
      ensures r.Some? <==> DateKey(date) in timetables
      ensures r.Some? ==> r.value == timetables[DateKey(date)] && DateKey(r.value.date) == DateKey(date)
    {
      var key := DateKey(date);
      if key in timetables then Some(timetables[key]) else None
    }

    /** The bucket dates, one per bucket, in ascending order. */
    function AllDates(): (r: seq<int>)
      reads this
      requires Valid()
      ensures Sorted(r)
      ensures |r| == |order|
      ensures multiset(r) == multiset(BucketDates(timetables, order))
      ensures forall k :: k in timetables ==> timetables[k].date in r
    {
      var dates := BucketDates(timetables, order);
      var r := SortAscending(dates);
      forall k | k in timetables ensures timetables[k].date in r {
        var i :| 0 <= i < |order| && order[i] == k;
        assert dates[i] in multiset(dates);
      }
      r
    }

    /** The bucket dates grouped by year, then by week number. */
    method AllDatesByWeek() returns (byWeek: map<int, map<int, seq<int>>>)
      requires Valid()
      ensures Grouped(byWeek, AllDates())
      ensures forall y :: y in byWeek ==> forall w :: w in byWeek[y] ==> Sorted(byWeek[y][w])
    {
      var dates := AllDates();
      byWeek := GroupByWeek(dates);
      GroupedSorted(byWeek, dates);
    }

    /** Drops every bucket; the cursor date stays. */
    method ClearTimetables()
      requires Valid()
      modifies this
      ensures Valid()
      ensures timetables == map[] && order == []
      ensures currentDate == old(currentDate)
      ensures AllDates() == []
    {
      timetables := map[];
      order := [];
    }

    /** Moves the cursor. */
    method SetCurrentDate(date: int)
      requires Valid()
      modifies this
      ensures Valid()
      ensures currentDate == date
      ensures timetables == old(timetables) && order == old(order)
    {
      currentDate := date;
    }

    /** Midnight at the start of the cursor's day. */
    function CurrentDateStartTime(): (s: int)
      reads this
      ensures s <= currentDate
      ensures DayOf(s) == DayOf(currentDate)
      ensures s % MS_PER_DAY == 0
    {
      DayStart(currentDate)
    }

    /** The last millisecond of the cursor's day. */
    function CurrentDateEndTime(): (e: int)
      reads this
      ensures currentDate <= e
      ensures DayOf(e) == DayOf(currentDate)
      ensures e - CurrentDateStartTime() == MS_PER_DAY - 1
    {
      DayEnd(currentDate)
    }
  }
}

# Activity visualizer core in Dafny

This project models the core of the activity visualizer, a browser tool that
imports calendar, e-mail and CSV activities, files them into per-day
timetables, and shows one day at a time. It has three parts:

- The **timetable manager** (`TimetableManager`). It keeps a flat map from a
  calendar-day key to a day bucket: the bucket's date, its activities and the
  manually entered hours. It also holds a cursor date. On top of the map it
  does Sunday-start week arithmetic: week numbers counted from January 1, and
  the Sunday and Saturday of a numbered week.
- The **activity manager** (`ActivityManager`). It is an ordered list of
  activities with append, a day query, clear, remove by id, and partial update
  of the first record with a given id.
- The **loaders**. `parseCSVLine` is a quote-aware field parser. The CSV loader
  adds header detection, line skipping and field defaults. The MBOX loader
  turns each message with a Subject and a Date into a 10-minute activity. A
  factory picks a loader by file type.

Instants are integers counting milliseconds since 1970-01-01 00:00 UTC. The
day of an instant is `floor(t / 86400000)`. Weekday and year come from the
proleptic Gregorian calendar on that day (1970-01-01 was a Thursday). Strings
are `seq<char>`.

Modules:

- `Wrappers`: `Option` and `Result`.
- `Activities`: the shared activity record.
- `Calendar`: days, weekdays, day windows and years.
- `Sequences`: filter, sortedness, insertion sort.
- `Weeks`: week numbering.
- `Timetable`: the day store and the `TimetableManager` class.
- `ActivityStore`: the `ActivityManager` class.
- `Text`: the JavaScript string operations used (`trim`, `toLowerCase`,
  `includes`, `split` with its inverse join, number rendering).
- `DataLoader`: the loaders and the factory.

State that the source changes in place is modelled by classes. `TimetableManager` has
a `map` field plus a key-order `seq` and the cursor. `ActivityManager` has a
`seq` field. Each loop of the source is a method with a `while` or `for` loop.
The method is proved equal to a specification function: `FileAll` for
`addActivities` (its loop is `FileLoop`), `ByWeek` for `getAllDatesByWeek`, `Scan` for `parseCSVLine`,
`CsvRows` and `MboxRows` for the loaders. The properties are then proved about
those functions.

The store is the flat map of `TimetableManager.ts:13`, keyed by the UTC
calendar day of `getDateKey` (`toISOString`, line 19). For every year in which the JavaScript `Date`
constructor behaves as the proleptic Gregorian calendar (see "## Left out"),
the week formula of `getDateWeek` always gives a week between 1 and 54
(`Weeks.DateWeek`); it never gives week 0.

## Model

| member | source | states |
|---|---|---|
| Calendar.DayOf | src/modules/TimetableManager.ts:18-20 | an instant lies within the 86400000 ms of its day |
| Calendar.DayOfPlusDays | src/modules/TimetableManager.ts:109 | adding n whole days to an instant moves its day by exactly n |
| Calendar.Weekday | src/modules/TimetableManager.ts:100-103 | `getDay` lies in 0..6, and days 7 apart have the same weekday (day 3, 1970-01-04, is a Sunday) |
| Calendar.WeekdayShift | src/modules/TimetableManager.ts:108-112 | moving a whole number of weeks keeps the weekday |
| Calendar.BackToSunday | src/modules/TimetableManager.ts:112-113 | going back by a day's weekday always lands on a Sunday |
| Calendar.SaturdayAfter | src/modules/TimetableManager.ts:121 | six days after a Sunday is a Saturday |
| Calendar.DayStart | src/modules/ActivityManager.ts:33-34 | `setHours(0,0,0,0)`: midnight of the same day, not after the instant |
| Calendar.DayEnd | src/modules/ActivityManager.ts:35-36 | `setHours(23,59,59,999)`: the last millisecond of the same day, not before the instant |
| Calendar.DayWindow | src/modules/ActivityManager.ts:38-40 | an instant lies between DayStart and DayEnd of a date exactly when it is on the same day |
| Calendar.YearStartStep | src/modules/TimetableManager.ts:100 | the next January 1 comes 365 days later, or 366 in a leap year |
| Calendar.YearStartMonotone | src/modules/TimetableManager.ts:100 | January 1 of a later year is at least 365 days per year later |
| Calendar.YearOf | src/modules/TimetableManager.ts:80 | `getFullYear`: the day lies between January 1 of its year and January 1 of the next |
| Calendar.YearsDisjoint | src/modules/TimetableManager.ts:80 | no day lies in two years |
| Calendar.YearOfUnique | src/modules/TimetableManager.ts:80 | a year whose span holds the day is YearOf of that day |
| Calendar.DayOfYearBound | src/modules/TimetableManager.ts:101 | a day is 0 to 365 days after January 1 of its year, and a year has at most 366 days |
| Sequences.Filter | src/modules/ActivityManager.ts:38-40 | `filter` keeps exactly the elements satisfying the predicate, with their multiplicities |
| Sequences.FilterConcat | src/modules/ActivityManager.ts:50 | filtering a concatenation concatenates the filtered parts, so the relative order is kept |
| Sequences.FilterAll | src/modules/ActivityManager.ts:50 | filtering by a predicate every element satisfies changes nothing |
| Sequences.FilterSorted | src/modules/TimetableManager.ts:93 | a filtered sorted list is sorted |
| Sequences.Insert | src/modules/TimetableManager.ts:71 | inserting into a sorted list keeps it sorted and adds exactly the element |
| Sequences.SortAscending | src/modules/TimetableManager.ts:71 | `sort` by time: sorted, a permutation of the input |
| Weeks.CeilDiv7 | src/modules/TimetableManager.ts:103 | `Math.ceil(n / 7)`: the least q with n <= 7q |
| Weeks.DateYear | src/modules/TimetableManager.ts:80 | `getFullYear` on an instant, that is `Calendar.YearOf` of its day (`Calendar.DayOf`): the instant's day lies between January 1 of that year and January 1 of the next |
| Weeks.SundayOnOrBefore | src/modules/TimetableManager.ts:112-113 | going back by the weekday lands on a Sunday at most six days earlier |
| Weeks.DaysSinceYearStart | src/modules/TimetableManager.ts:101 | the floored day difference from January 1 is the difference of the day numbers |
| Weeks.DateWeek | src/modules/TimetableManager.ts:99-104 | `getDateWeek` lies between 1 and 54 (for the years the model's calendar covers; see Left out) |
| Weeks.DateWeekDays | src/modules/TimetableManager.ts:99-104 | the week number is ceil((days since January 1 + weekday of January 1 + 1) / 7) |
| Weeks.SundaysApart | src/modules/TimetableManager.ts:103 | that quotient is one more than the number of weeks between the Sundays starting the two spans |
| Weeks.DateWeekOfSunday | src/modules/TimetableManager.ts:99-104 | week w starts exactly w - 1 weeks after the Sunday on or before January 1 |
| Weeks.SameSpanSameWeek | src/modules/TimetableManager.ts:99-104 | two dates of one year in the same Sunday-to-Saturday span get the same number |
| Weeks.DateWeekMonotone | src/modules/TimetableManager.ts:99-104 | within a year the week number never decreases as the date advances |
| Weeks.WeekStartDate | src/modules/TimetableManager.ts:106-116 | `getWeekStartDate` is a Sunday at noon, (week - 1) weeks after January 1 moved back to its Sunday |
| Weeks.WeekEndDate | src/modules/TimetableManager.ts:118-124 | `getWeekEndDate` is exactly six days after the start, and a Saturday |
| Weeks.WeekStartRoundTrip | src/modules/TimetableManager.ts:99-116 | when the week's Sunday lies in the year, DateWeek of it gives back the week |
| Weeks.WeekEndRoundTrip | src/modules/TimetableManager.ts:99-124 | when the week's Saturday lies in the year, DateWeek of it gives back the week |
| Weeks.DateInItsWeek | src/modules/TimetableManager.ts:99-124 | every date lies between the Sunday and the Saturday of its own numbered week |
| Weeks.FirstWeekEnd | src/modules/TimetableManager.ts:99-124 | the Saturday of week 1 always lies in the year and is numbered 1 |
| Weeks.FirstWeekStartInPreviousYear | src/modules/TimetableManager.ts:99-116 | unless January 1 is a Sunday, the start of week 1 lies in the previous year and is numbered 53 or 54 there |
| Weeks.March2024Weeks | src/modules/TimetableManager.ts:99-104 | Friday 2024-03-01 and Saturday 2024-03-02 are in week 9; Monday 2024-03-04 is in week 10 |
| Timetable.DateKey | src/modules/TimetableManager.ts:18-20 | `getDateKey`: the key is the calendar day holding the instant |
| Timetable.ActivitiesOn | src/modules/TimetableManager.ts:50-51 | the activities of a list, in order, whose start falls on a given day |
| Timetable.FileActivity | src/modules/TimetableManager.ts:51-58 | filing one activity adds exactly the key of its day; that bucket gains the activity at the end and keeps its hours (0 for a new bucket) |
| Timetable.FileAllKeys | src/modules/TimetableManager.ts:50-59 | after filing, the keys are the old keys plus the days the activities start on, and no others |
| Timetable.TouchAll | src/modules/TimetableManager.ts:50-59 | the old key order is a prefix of the new one, which gains at most one key per activity |
| Timetable.FiledFacts | src/modules/TimetableManager.ts:49-60 | after filing, every activity is in its day's bucket, hours are kept (0 for new buckets), and untouched keys keep their bucket |
| Timetable.FiledStep | src/modules/TimetableManager.ts:50-58 | filing one more activity appends it to its day's bucket only, creating the bucket if needed |
| Timetable.FileAllFiled | src/modules/TimetableManager.ts:49-60 | filing the list one activity at a time appends to each bucket exactly its day's activities, in input order |
| Timetable.FileAllConsistent | src/modules/TimetableManager.ts:49-60 | filing keeps the key order a duplicate-free listing of the keys, and every bucket under the key of its own date |
| Timetable.FileLoop | src/modules/TimetableManager.ts:49-60 | the `forEach` loop of `addActivities` yields FileAll of the activities and its TouchAll key order |
| Timetable.BucketDates | src/modules/TimetableManager.ts:69-70 | `map(t => t.date)` over the buckets in insertion order |
| Timetable.WithHours | src/modules/TimetableManager.ts:31-40 | the day's bucket gets the hours (created empty if missing) with its activities unchanged; every other key is unchanged |
| Timetable.WithHoursIdempotent | src/modules/TimetableManager.ts:31-40 | setting the same hours twice gives the same store as setting them once |
| Timetable.DatesInWeek | src/modules/TimetableManager.ts:79-93 | the dates of a list that fall in a given (year, week), with their multiplicities; sorted if the list is |
| Timetable.MissingGroupEmpty | src/modules/TimetableManager.ts:83-91 | a (year, week) with no group yet has no dates so far |
| Timetable.AddToWeek | src/modules/TimetableManager.ts:80-93 | adding a date creates its year if missing, and its (year, week) group gains the date at the end |
| Timetable.GroupedStep | src/modules/TimetableManager.ts:79-94 | appending one date to its (year, week) group keeps the grouping exact |
| Timetable.GroupedPartition | src/modules/TimetableManager.ts:75-97 | each date appears under its own (year, week) as often as in the input, and every grouped date is an input date under its own year and week |
| Timetable.ByWeek | src/modules/TimetableManager.ts:79-94 | after the first n dates, the last of them has a group under its own year and week |
| Timetable.ByWeekGrouped | src/modules/TimetableManager.ts:79-94 | adding the first n dates one by one groups exactly those n dates: every year key holds at least one week, every week key its non-empty list of dates |
| Timetable.GroupByWeek | src/modules/TimetableManager.ts:77-96 | the grouping loop leaves every date in its (year, week) group; each week list holds exactly that week's dates, and a year or week key exists only once a date of it has been filed |
| Timetable.GroupedYearHasDate | src/modules/TimetableManager.ts:83-85 | a year key of a grouping is the year of one of the dates |
| Timetable.GroupedYears | src/modules/TimetableManager.ts:79-85 | the year keys of a grouping are exactly the years of its dates |
| Timetable.ConsistentFile | src/modules/TimetableManager.ts:51-58 | filing one activity keeps the key order in step with the map |
| Timetable.ConsistentHours | src/modules/TimetableManager.ts:32-39 | setting hours in 0..24 keeps the key order in step with the map and the hours in range |
| Timetable.Touch | src/modules/TimetableManager.ts:58 | `set` of a missing key appends it at the end of the insertion order; setting an existing key leaves the order as it was |
| Timetable.TouchConsistent | src/modules/TimetableManager.ts:58 | a writer adding at most one key keeps the order a duplicate-free listing once that key is touched |
| Timetable.GroupedSorted | src/modules/TimetableManager.ts:75-97 | grouping a sorted date list gives sorted week lists |
| Timetable.TimetableManager.constructor | src/modules/TimetableManager.ts:13-15 | an empty store with the given cursor |
| Timetable.TimetableManager.SetHoursWorked | src/modules/TimetableManager.ts:31-40 | the store becomes WithHours of the old one; a new key is appended to the order; reading the hours back gives them |
| Timetable.TimetableManager.HoursWorked | src/modules/TimetableManager.ts:43-46 | the bucket's hours, or 0 for a day without a bucket; the read changes nothing |
| Timetable.TimetableManager.AddActivities | src/modules/TimetableManager.ts:49-60 | the store invariant is kept, the new store is the old one with the activities filed, the old key order is a prefix of the new, and the cursor stays |
| Timetable.TimetableManager.TimetableForDate | src/modules/TimetableManager.ts:63-65 | the bucket of the day if one exists, otherwise none; the read changes nothing |
| Timetable.TimetableManager.AllDates | src/modules/TimetableManager.ts:68-72 | one date per bucket, in ascending order, a permutation of the buckets' dates |
| Timetable.TimetableManager.AllDatesByWeek | src/modules/TimetableManager.ts:75-97 | the grouping of AllDates by (year, week), with no year or week key that has no date, each week's list ascending |
| Timetable.TimetableManager.ClearTimetables | src/modules/TimetableManager.ts:127-128 | the map is empty and AllDates is empty; the cursor stays |
| Timetable.TimetableManager.SetCurrentDate | src/modules/TimetableManager.ts:201-203 | the cursor moves and nothing else changes |
| Timetable.TimetableManager.CurrentDateStartTime | src/modules/TimetableManager.ts:187-191 | midnight of the cursor's day, not after the cursor |
| Timetable.TimetableManager.CurrentDateEndTime | src/modules/TimetableManager.ts:194-198 | the last millisecond of the cursor's day, not before the cursor |
| ActivityStore.Merge | src/modules/ActivityManager.ts:57 | `{ ...a, ...u }`: each field the update carries is overwritten, every other field kept |
| ActivityStore.MergeNoChange | src/modules/ActivityManager.ts:57 | an update without fields leaves the record unchanged |
| ActivityStore.MergeIdempotent | src/modules/ActivityManager.ts:57 | merging the same update twice equals merging it once |
| ActivityStore.FirstIndexOfId | src/modules/ActivityManager.ts:55 | `findIndex`: -1 exactly when no activity has the id, otherwise the first index with it |
| ActivityStore.OnDay | src/modules/ActivityManager.ts:32-41 | exactly the activities starting on the date's day, with their multiplicities |
| ActivityStore.OnDayAppend | src/modules/ActivityManager.ts:32-41 | an added activity joins the day query of its own day only, at the end |
| ActivityStore.WithoutId | src/modules/ActivityManager.ts:50 | exactly the activities without the id |
| ActivityStore.WithoutAbsentId | src/modules/ActivityManager.ts:50 | removing an id no activity has changes nothing |
| ActivityStore.WithoutIdNotFound | src/modules/ActivityManager.ts:49-56 | after a removal, a lookup of that id finds nothing |
| ActivityStore.WithoutIdAppend | src/modules/ActivityManager.ts:50 | removal keeps the survivors in their original order |
| ActivityStore.ActivityManager.constructor | src/modules/ActivityManager.ts:14 | an empty list |
| ActivityStore.ActivityManager.AddActivity | src/modules/ActivityManager.ts:17-19 | the list gains the activity at the end |
| ActivityStore.ActivityManager.AddActivities | src/modules/ActivityManager.ts:22-24 | the list gains the batch at the end, in order |
| ActivityStore.ActivityManager.GetActivities | src/modules/ActivityManager.ts:27-29 | the list itself |
| ActivityStore.ActivityManager.ActivitiesForDate | src/modules/ActivityManager.ts:32-41 | exactly the listed activities starting on the date's day, as OnDay of the list (in list order, with multiplicities); the read changes nothing |
| ActivityStore.ActivityManager.ClearActivities | src/modules/ActivityManager.ts:44-46 | the list is empty |
| ActivityStore.ActivityManager.RemoveActivity | src/modules/ActivityManager.ts:49-51 | no activity keeps the id, the rest keep their order, and an absent id changes nothing |
| ActivityStore.ActivityManager.UpdateActivity | src/modules/ActivityManager.ts:54-59 | returns whether some activity has the id; if so only the first such index is merged with the update, otherwise nothing changes |
| Text.TrimStart | src/modules/DataLoader.ts:20 | the result does not start with white space and is no longer than the input |
| Text.TrimStartCuts | src/modules/DataLoader.ts:20 | the left trim is a suffix of the input, and everything cut off before it is white space |
| Text.TrimEnd | src/modules/DataLoader.ts:20 | the result does not end with white space, is no longer than the input and starts with its first character |
| Text.TrimEndCuts | src/modules/DataLoader.ts:20 | the right trim is a prefix of the input, and everything cut off after it is white space |
| Text.TrimEmpty | src/modules/DataLoader.ts:21 | `trim` gives the empty string exactly when the string is all white space |
| Text.Trim | src/modules/DataLoader.ts:20 | the result has no white space at either end and is no longer than the input |
| Text.TrimInfix | src/modules/DataLoader.ts:20 | `trim` keeps one contiguous slice of the input; everything before it and everything after it is white space |
| Text.TrimOfTrimmed | src/modules/DataLoader.ts:60 | trimming a string without white space at its ends changes nothing |
| Text.TrimIdempotent | src/modules/DataLoader.ts:20-23 | trimming twice is trimming once |
| Text.ToLower | src/modules/DataLoader.ts:16-17 | `toLowerCase` maps each character, keeping the length |
| Text.Split | src/modules/DataLoader.ts:13 | `split` always yields at least one piece |
| Text.SplitJoin | src/modules/DataLoader.ts:13 | joining the pieces with the separator gives back the text |
| Text.SplitPieces | src/modules/DataLoader.ts:111 | no piece contains the separator |
| Text.SplitCharCount | src/modules/DataLoader.ts:13 | splitting on a character gives one piece more than its occurrences |
| Text.NatToString | src/modules/DataLoader.ts:29 | the decimal rendering is a non-empty string of digits |
| Text.NatToStringInjective | src/modules/DataLoader.ts:29 | different numbers render differently |
| DataLoader.LoadIdInjective | src/modules/DataLoader.ts:29 | two ids of one kind are equal only if item number and clock reading are equal |
| DataLoader.LoadId | src/modules/DataLoader.ts:29 | an id starts with its loader's kind followed by a dash, and is longer than that |
| DataLoader.AppendFreshId | src/modules/DataLoader.ts:28-29 | appending the activity of a new item keeps all ids distinct |
| DataLoader.AppendRow | src/modules/DataLoader.ts:126-127 | appending the outcome of a new item (an activity or nothing) keeps all ids distinct |
| DataLoader.IdsBelowMono | src/modules/DataLoader.ts:19-29 | ids of items before n are ids of items before any later bound |
| DataLoader.Scan | src/modules/DataLoader.ts:47-67 | the scan keeps the fields already closed as a prefix of its result and always adds the last field |
| DataLoader.Commas | src/modules/DataLoader.ts:59 | the commas outside quotes are at most all the commas of the text |
| DataLoader.ParseLine | src/modules/DataLoader.ts:42-69 | `parseCSVLine`: one field more than the commas outside quotes, every field trimmed |
| DataLoader.ScanLength | src/modules/DataLoader.ts:42-69 | the parser yields one field more than there are commas outside quotes |
| DataLoader.ScanTrimmed | src/modules/DataLoader.ts:60-67 | every field has no white space at either end |
| DataLoader.ScanPlain | src/modules/DataLoader.ts:47-67 | text without quotes or commas joins the current field, which is then trimmed |
| DataLoader.ParsePlainLine | src/modules/DataLoader.ts:42-69 | a line without quotes or commas parses to its trimmed self |
| DataLoader.ScanQuotedText | src/modules/DataLoader.ts:59-64 | inside quotes, commas and other non-quote characters are copied into the field without splitting it |
| DataLoader.ScanEscaped | src/modules/DataLoader.ts:51-58 | inside quotes each doubled quote yields one literal quote and keeps quote mode; a single quote closes it |
| DataLoader.ScanQuotedField | src/modules/DataLoader.ts:51-64 | a quoted, escaped field reads back as its own text |
| DataLoader.ScanComma | src/modules/DataLoader.ts:59-61 | a comma outside quotes closes the trimmed field and starts an empty one |
| DataLoader.ScanQuotedFields | src/modules/DataLoader.ts:42-69 | a line of quoted, escaped fields separated by commas reads back as the trimmed fields |
| DataLoader.ParseQuotedRecord | src/modules/DataLoader.ts:42-69 | parsing a line written from any fields by quoting gives back those fields, trimmed |
| DataLoader.ParseCSVLine | src/modules/DataLoader.ts:42-69 | the character loop yields the parser's fields, one more than the commas outside quotes, all trimmed |
| DataLoader.HeaderIgnoresCase | src/modules/DataLoader.ts:16-17 | the header test lowers the line first, so lowering it again changes nothing |
| DataLoader.DataLineNotHeader | src/modules/DataLoader.ts:16-17 | any line with no t or s in either case is not taken for a header, so its first line is loaded as data |
| DataLoader.FieldOrEmpty | src/modules/DataLoader.ts:33-34 | `description \|\| ''`: the field when the line has it, otherwise the empty string |
| DataLoader.CsvRow | src/modules/DataLoader.ts:20-36 | a line yields an activity exactly when it is not blank and has at least 3 fields; the activity has source csv and the line's id, the first field as title or "Untitled" when it is blank, the parsed second field as start, the parsed third field as end or the start when it is blank, and the fourth and fifth fields (or '') as description and location |
| DataLoader.CsvRows | src/modules/DataLoader.ts:19-37 | the lines from..upTo yield at most one activity each, and none for an empty range |
| DataLoader.CsvRowsFacts | src/modules/DataLoader.ts:19-37 | the activities of the lines carry distinct ids of earlier lines |
| DataLoader.CsvRowsRecords | src/modules/DataLoader.ts:19-37 | every loaded activity has source csv and a non-empty title |
| DataLoader.CsvActivities | src/modules/DataLoader.ts:11-40 | the rows after the header (skipped when it mentions title or start), at most one per line, all CSV records with distinct ids |
| DataLoader.CsvLoad | src/modules/DataLoader.ts:11-40 | the line loop yields exactly CsvActivities of the text |
| DataLoader.CsvRowOfQuotedFields | src/modules/DataLoader.ts:20-36 | a line of at least three quoted fields loads as their activity, with "Untitled" for a blank title, the start for a blank end, and '' for missing description and location |
| DataLoader.MboxMessage | src/modules/DataLoader.ts:114-135 | a message yields an activity exactly when it is not blank and has a Subject and a Date; it ends at the Date, starts 10 minutes earlier, is at "Email" from mbox; its title is the trimmed Subject and its description is "From: " and the sender, or '' without a From header |
| DataLoader.MboxRows | src/modules/DataLoader.ts:113-136 | the first upTo messages yield at most one activity each |
| DataLoader.MboxRowsFacts | src/modules/DataLoader.ts:113-136 | the activities of the messages carry distinct ids of earlier messages |
| DataLoader.MboxRowsEmails | src/modules/DataLoader.ts:113-136 | every loaded activity lasts 10 minutes at "Email" from mbox |
| DataLoader.MboxActivities | src/modules/DataLoader.ts:107-139 | at most one activity per message, every one an email, with distinct ids |
| DataLoader.MboxLoad | src/modules/DataLoader.ts:107-139 | loading yields exactly MboxActivities of the text |
| DataLoader.MboxLoop | src/modules/DataLoader.ts:113-136 | the message loop yields exactly the messages' activities in message order |
| DataLoader.GetLoader | src/modules/DataLoader.ts:144-155 | "csv", "ical" and "mbox" give their loader; any other type fails with "Unsupported file type: " and the type |
| DataLoader.GetLoaderOfFileType | src/modules/DataLoader.ts:144-155 | each loader is found under its own file type |
| DataLoader.GetLoaderFileType | src/modules/DataLoader.ts:144-155 | a loader found for a type is the one registered under that type |

## Left out

- `ICalLoader` (`DataLoader.ts:73-101`) is a wrapper over the `ical.js` library, which is not part of this model. The factory still returns its tag.
- `updateTimelineDisplay`, `getTimeline` and the `timeline.destroy()` branch of `clearTimetables` drive the vis-timeline library. They are not modelled.
- `printDailyTimetables` only writes to the console.
- `getCurrentDate` is a plain getter of the `currentDate` field.
- `src/index.ts` (DOM wiring) and `src/modules/TrelloApi.ts` (network) are not part of this model. The hours check in `src/index.ts:145` becomes the `requires 0.0 <= hours <= 24.0` of `SetHoursWorked`.
- `new Date(string)` is the parameter `parseDate: string -> int`. Invalid dates (NaN) are not modelled.
- The MBOX header regular expressions (`DataLoader.ts:117-119`) are the parameter `headers`, which returns the optional Subject, Date and From values.
- `Date.now()` in the ids is the parameter `now`, read once per load. The source reads the clock once per item. `LoadIdInjective` shows that ids with different item numbers differ whatever the clock readings are.
- Time zones and daylight saving time are not modelled. The day key, year and weekday all use the UTC day. The source keys by the UTC day (`toISOString`, line 19) but takes the year and weekday in local time (lines 80, 100, 112).
- `Weeks.WeekStartDate`: `setDate(getDate() - dayOfWeek)` is exact subtraction of whole days, since no daylight-saving shift exists in UTC.
- `Weeks.WeekStartDate`: `new Date(year, 0, 1, 12)` maps the years 0 to 99 to 1900 to 1999; the model takes every year literally, so its result differs for those years (and `WeekEndDate` with it).
- `Weeks.DateWeek`: `new Date(date.getFullYear(), 0, 1)` maps the years 0 to 99 to 1900 to 1999, so for dates in those years the source's week number is not the model's, and the 1..54 bound is stated only for the model's literal years.
- `Weeks.DateWeek`: JavaScript dates are limited to 8.64e15 ms either side of the epoch (an invalid date beyond); the model's instants are unbounded integers, so that range limit and the NaN results outside it are not modelled (the same holds for `Weeks.WeekStartDate`).
- `DataLoader.MboxMessage`: `setMinutes(getMinutes() - 10)` is exact subtraction of 600000 ms.
- `Text.ToLower`: only ASCII letters are lowered. Other case mappings do not change the header test for "title" and "start".
- `async` and `Promise` are dropped: the CSV and MBOX loaders never await, so they are plain methods.
- `ActivityStore.Merge`: an update with a key present but `undefined` is not modelled. An update field is either absent or carries a value.
- Aliasing is not modelled. The source returns the live bucket objects (`getTimetableForDate`) and the live array (`getActivities`). The model returns values.
- The insertion order of the JavaScript `Map` is the `order` field. It is used only to state that `getAllDates` yields one date per bucket.
- `Sequences.SortAscending` is insertion sort. It stands for `Array.prototype.sort`, whose algorithm is not specified. Only the result (sorted, a permutation) is stated.

/**
 * The activity record shared by the loaders, the activity list and the
 * per-day timetable store. Instants are whole milliseconds since
 * 1970-01-01T00:00:00Z.
 */
module Activities {
  import opened Wrappers

  /** The origin tag of an activity ('mbox' | 'ical' | 'csv'). */
  datatype Source = Mbox | ICal | Csv

  /** One imported event; `description`, `location` and `source` are optional fields. */
  datatype Activity = Activity(
    id: string,
    title: string,
    start: int,
    end: int,
    description: Option<string>,
    location: Option<string>,
    source: Option<Source>)
}

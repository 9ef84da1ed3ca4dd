/**
 * The in-memory activity list: append, day query, clear, remove by id and
 * partial update of the first record with a given id.
 */
module ActivityStore {
  import opened Wrappers
  import opened Activities
  import opened Calendar
  import opened Sequences

  /**
   * A partial activity record: each field either carries a new value or is
   * absent (`Partial<Activity>` with the absent keys left out).
   */
  datatype ActivityUpdate = ActivityUpdate(
    id: Option<string>,
    title: Option<string>,
    start: Option<int>,
    end: Option<int>,
    description: Option<string>,
    location: Option<string>,
    source: Option<Source>)

  /** The update that carries no field. */
  const NoChange: ActivityUpdate := ActivityUpdate(None, None, None, None, None, None, None)

  /** `{ ...a, ...u }`: the record a with every field u carries overwritten. */
  function Merge(a: Activity, u: ActivityUpdate): (r: Activity)
    ensures r.id == u.id.GetOr(a.id) && r.title == u.title.GetOr(a.title)
    ensures r.start == u.start.GetOr(a.start) && r.end == u.end.GetOr(a.end)
    ensures u.description.Some? ==> r.description == u.description
    ensures u.description.None? ==> r.description == a.description
    ensures u.location.Some? ==> r.location == u.location
    ensures u.location.None? ==> r.location == a.location
    ensures u.source.Some? ==> r.source == u.source
    ensures u.source.None? ==> r.source == a.source
  {
    Activity(
      u.id.GetOr(a.id),
      u.title.GetOr(a.title),
      u.start.GetOr(a.start),
      u.end.GetOr(a.end),
      if u.description.Some? then u.description else a.description,
      if u.location.Some? then u.location else a.location,
      if u.source.Some? then u.source else a.source)
  }

  /** An update without fields leaves the record as it is. */
  lemma MergeNoChange(a: Activity)
    ensures Merge(a, NoChange) == a
  {
  }

  /** Applying the same update twice is the same as applying it once. */
  lemma MergeIdempotent(a: Activity, u: ActivityUpdate)
    ensures Merge(Merge(a, u), u) == Merge(a, u)
  {
  }

  /** `findIndex(a => a.id === id)`: the first index holding that id, or -1. */
  function FirstIndexOfId(xs: seq<Activity>, id: string): (r: int)
    ensures -1 <= r < |xs|
    ensures r == -1 <==> forall i :: 0 <= i < |xs| ==> xs[i].id != id
    ensures r != -1 ==> xs[r].id == id && forall i :: 0 <= i < r ==> xs[i].id != id
  {
    if xs == [] then -1
    else if xs[0].id == id then 0
    else
      var r := FirstIndexOfId(xs[1..], id);
      assert forall i :: 1 <= i < |xs| ==> xs[i] == xs[1..][i - 1];
      if r == -1 then -1 else r + 1
  }

  /** Whether an activity starts within the day of `date`, both ends of the day included. */
  predicate StartsOnDay(a: Activity, date: int) {
    DayStart(date) <= a.start <= DayEnd(date)
  }

  /** The activities of xs, in their order, that start on the day of `date`. */
  function OnDay(xs: seq<Activity>, date: int): (r: seq<Activity>)
    ensures forall a :: a in r <==> a in xs && DayOf(a.start) == DayOf(date)
    ensures forall a {:trigger multiset(r)[a]} ::
      multiset(r)[a] == if DayOf(a.start) == DayOf(date) then multiset(xs)[a] else 0
  {
    forall a ensures StartsOnDay(a, date) <==> DayOf(a.start) == DayOf(date) {
      DayWindow(date, a.start);
    }
    Filter(xs, (a: Activity) => StartsOnDay(a, date))
  }

  /** Adding one activity adds it to the day query of its own day only, at the end. */
  lemma OnDayAppend(xs: seq<Activity>, a: Activity, date: int)
    ensures OnDay(xs + [a], date) == OnDay(xs, date) + (if DayOf(a.start) == DayOf(date) then [a] else [])
  {
    assert (xs + [a])[..|xs|] == xs;
    DayWindow(date, a.start);
  }

  /** The list without the activities carrying id, the others in their order. */
  function WithoutId(xs: seq<Activity>, id: string): (r: seq<Activity>)
    ensures forall a :: a in r <==> a in xs && a.id != id
    ensures forall i :: 0 <= i < |r| ==> r[i].id != id
  {
    var r := Filter(xs, (a: Activity) => a.id != id);
    assert forall i :: 0 <= i < |r| ==> r[i] in r;
    r
  }

  /** Removing an id nobody carries leaves the list as it is. */
  lemma WithoutAbsentId(xs: seq<Activity>, id: string)
    requires FirstIndexOfId(xs, id) == -1
    ensures WithoutId(xs, id) == xs
  {
    FilterAll(xs, (a: Activity) => a.id != id);
  }

  /** After a removal no activity carries the id, so a following update finds nothing. */
  lemma WithoutIdNotFound(xs: seq<Activity>, id: string)
    ensures FirstIndexOfId(WithoutId(xs, id), id) == -1
  {
  }

  /** Removal distributes over appending: the order of the survivors is the original one. */
  lemma WithoutIdAppend(xs: seq<Activity>, ys: seq<Activity>, id: string)
    ensures WithoutId(xs + ys, id) == WithoutId(xs, id) + WithoutId(ys, id)
  {
    FilterConcat(xs, ys, (a: Activity) => a.id != id);
  }

  class ActivityManager {
    /** The activities, in the order they were added. */
    var activities: seq<Activity>

    /** An empty list. */
    constructor ()
      ensures activities == []
    {
      activities := [];
    }

    /** Appends one activity. */
    method AddActivity(activity: Activity)
      modifies this
      ensures activities == old(activities) + [activity]
    {
      activities := activities + [activity];
    }

    /** Appends a batch, keeping its order. */
    method AddActivities(xs: seq<Activity>)
      modifies this
      ensures activities == old(activities) + xs
    {
      activities := activities + xs;
    }

    /** The list itself. */
    function GetActivities(): (r: seq<Activity>)
      reads this
      ensures r == activities
    {
      activities
    }

    /** The activities starting on the day of `date`, in list order. */
    function ActivitiesForDate(date: int): (r: seq<Activity>)
      reads this
      ensures forall a :: a in r <==> a in activities && DayOf(a.start) == DayOf(date)
      ensures |r| <= |activities|
      ensures r == OnDay(activities, date)
    {
      OnDay(activities, date)
    }

    /** Empties the list. */
    method ClearActivities()
      modifies this
      ensures activities == []
    {
      activities := [];
    }

    /** Drops every activity with the given id. */
    method RemoveActivity(id: string)
      modifies this
      ensures activities == WithoutId(old(activities), id)
      ensures FirstIndexOfId(activities, id) == -1
      ensures FirstIndexOfId(old(activities), id) == -1 ==> activities == old(activities)
    {
      WithoutIdNotFound(activities, id);
      if FirstIndexOfId(activities, id) == -1 {
        WithoutAbsentId(activities, id);
      }
      activities := WithoutId(activities, id);
    }

    /**
     * Merges `updates` into the first activity with the given id; reports
     * whether there was one.
     */
    method UpdateActivity(id: string, updates: ActivityUpdate) returns (found: bool)
      modifies this
      ensures found <==> exists i :: 0 <= i < |old(activities)| && old(activities)[i].id == id
      ensures !found ==> activities == old(activities)
      ensures found ==>
        var k := FirstIndexOfId(old(activities), id);
        |activities| == |old(activities)|
        && activities[k] == Merge(old(activities)[k], updates)
        && forall i :: 0 <= i < |activities| && i != k ==> activities[i] == old(activities)[i]
    {
      var index := FirstIndexOfId(activities, id);
      if index == -1 {
        return false;
      }
      activities := activities[index := Merge(activities[index], updates)];
      return true;
    }
  }
}

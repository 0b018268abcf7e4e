/** The dashboard page: the stored events turned into display rows and activity rows,
    the load of the events, and the short task list. */
module Dashboard {
  import opened Wrappers
  import opened Text
  import opened CalendarDate
  import EventStore
  import EventService
  import TaskList

  type Event = EventStore.Event

  /** An upcoming event as the page lists it. */
  datatype UpcomingEvent = UpcomingEvent(id: int, title: string, time: string, date: string, eventType: string)

  /** A row of the recent activity list. */
  datatype Activity = Activity(id: int, title: string, description: string, timestamp: string, eventType: string)

  function ToUpcoming(e: Event, today: Date): UpcomingEvent
    requires Valid(today)
  {
    UpcomingEvent(e.id, e.title, e.time, EventService.FormatDateForDisplay(e.date, today), e.eventType)
  }

  /** `upcomingEvents`: one row per event, in order, with the display date. */
  function UpcomingEvents(events: seq<Event>, today: Date): (rows: seq<UpcomingEvent>)
    requires Valid(today)
    ensures |rows| == |events|
    ensures forall i :: 0 <= i < |events| ==>
              rows[i].id == events[i].id && rows[i].title == events[i].title &&
              rows[i].time == events[i].time && rows[i].eventType == events[i].eventType &&
              rows[i].date == EventService.FormatDateForDisplay(events[i].date, today)
  {
    seq(|events|, i requires 0 <= i < |events| => ToUpcoming(events[i], today))
  }

  /** The timestamp expression of an activity row: `Today`, `Tomorrow`, or the date. */
  function ActivityTimestamp(date: string): string {
    if date == "Today" then "Today" else if date == "Tomorrow" then "Tomorrow" else date
  }

  function ToActivity(u: UpcomingEvent): Activity {
    Activity(u.id, u.title, u.date + " • " + u.time, ActivityTimestamp(u.date), u.eventType)
  }

  /** `recentActivity`: one row per upcoming event, in order. */
  function RecentActivity(rows: seq<UpcomingEvent>): (acts: seq<Activity>)
    ensures |acts| == |rows|
  {
    seq(|rows|, i requires 0 <= i < |rows| => ToActivity(rows[i]))
  }

  /** Each activity row describes its event as `date • time`, and its timestamp is the
      display date in every case: the three-way choice always yields the date. */
  lemma ActivityRows(rows: seq<UpcomingEvent>)
    ensures forall i :: 0 <= i < |rows| ==>
              RecentActivity(rows)[i].description == rows[i].date + " • " + rows[i].time &&
              RecentActivity(rows)[i].timestamp == rows[i].date &&
              RecentActivity(rows)[i].id == rows[i].id && RecentActivity(rows)[i].title == rows[i].title &&
              RecentActivity(rows)[i].eventType == rows[i].eventType
  {
  }

  /** Whether an upcoming row is highlighted as today's. */
  predicate Highlighted(u: UpcomingEvent) { u.date == "Today" }

  /** A row is highlighted exactly when the stored event is dated on today's day. */
  lemma HighlightedIffToday(events: seq<Event>, today: Date, i: int)
    requires Valid(today) && 0 <= i < |events|
    ensures Highlighted(UpcomingEvents(events, today)[i]) <==> ParseIsoDate(events[i].date) == Some(today)
  {
    EventService.DisplayLabels(events[i].date, today);
  }

  /** `tasks.slice(0, 3)`: the tasks the page lists. */
  function TopTasks(tasks: seq<TaskList.Task>): seq<TaskList.Task> {
    Slice(tasks, 0, 3)
  }

  /** At most three tasks are listed, they are the first ones, and when there are at most
      three all are listed. */
  lemma TopTasksPrefix(tasks: seq<TaskList.Task>)
    ensures |TopTasks(tasks)| <= 3
    ensures TopTasks(tasks) <= tasks
    ensures |tasks| <= 3 ==> TopTasks(tasks) == tasks
    ensures |tasks| >= 3 ==> |TopTasks(tasks)| == 3
  {
  }

  /** The events state of the page. */
  class DashboardPage {
    var events: seq<Event>
    var isLoadingEvents: bool

    constructor()
      ensures events == [] && isLoadingEvents
    {
      events := [];
      isLoadingEvents := true;
    }

    /** The load effect: `getEvents` never fails, so the events are always replaced by
        what it returns, and loading ends in every case. */
    method LoadEvents(reply: EventService.Reply)
      modifies this
      ensures events == EventService.GetEvents(reply)
      ensures !isLoadingEvents
    {
      events := EventService.GetEvents(reply);
      isLoadingEvents := false;
    }
  }
}

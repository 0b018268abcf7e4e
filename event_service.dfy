/** The browser-side event service: thin wrappers over `fetch` that turn every failure
    into an empty list, `null` or `false`, and the two date formatting helpers. */
module EventService {
  import opened Wrappers
  import opened Text
  import opened CalendarDate
  import EventStore

  type Event = EventStore.Event

  /** The JSON fields of a response body that the service reads. */
  datatype Payload = Payload(events: Option<seq<Event>>, event: Option<Event>)

  /** How a `fetch` call ends: it throws (network failure), or it delivers a response
      with its `ok` flag and a body that is either JSON (`Some`) or not (`None`, so that
      `response.json()` throws). */
  datatype Reply = NetworkError | Reply(ok: bool, body: Option<Payload>)

  const BaseUrl: string := "/api/events"

  /** `getEvents`: `data.events` of a good response, and `[]` whenever anything fails
      or the field is missing. */
  function GetEvents(reply: Reply): (r: seq<Event>)
    ensures (reply.Reply? && reply.ok && reply.body.Some? && reply.body.value.events.Some?) ==>
              r == reply.body.value.events.value
    ensures !(reply.Reply? && reply.ok && reply.body.Some?) ==> r == []
    ensures reply.Reply? && reply.ok && reply.body.Some? && reply.body.value.events.None? ==> r == []
  {
    match reply
    case NetworkError => []
    case Reply(ok, body) =>
      if !ok then []
      else match body
        case None => []
        case Some(p) => if p.events.Some? then p.events.value else []
  }

  /** The `data.event` of a good response; a missing field reads as `undefined`, which
      the model folds into `None` together with `null`. */
  function EventOf(reply: Reply): (r: Option<Event>)
    ensures r.Some? <==> reply.Reply? && reply.ok && reply.body.Some? && reply.body.value.event.Some?
    ensures r.Some? ==> r == reply.body.value.event
  {
    if reply.Reply? && reply.ok && reply.body.Some? then reply.body.value.event else None
  }

  /** `createEvent`: the created event, or `null` on any failure. */
  function CreateEvent(reply: Reply): (r: Option<Event>)
    ensures r == EventOf(reply)
    ensures reply.NetworkError? || (reply.Reply? && !reply.ok) ==> r == None
  {
    EventOf(reply)
  }

  /** `updateEvent`: the updated event, or `null` on any failure. */
  function UpdateEvent(reply: Reply): (r: Option<Event>)
    ensures r == EventOf(reply)
    ensures reply.NetworkError? || (reply.Reply? && !reply.ok) ==> r == None
  {
    EventOf(reply)
  }

  /** `deleteEvent`: true exactly when the response is ok; the body is never read. */
  function DeleteEvent(reply: Reply): (r: bool)
    ensures r <==> reply.Reply? && reply.ok
  {
    reply.Reply? && reply.ok
  }

  /** The URL `deleteEvent(id)` requests. */
  function DeleteUrl(id: int): string {
    BaseUrl + "?id=" + IntToString(id)
  }

  /** `deleteEvent(id)` targets `/api/events?id=<id>`, and the store's `parseInt` of
      that query value is `id` again. */
  lemma DeleteTargetsId(id: int)
    ensures |DeleteUrl(id)| > |BaseUrl + "?id="|
    ensures DeleteUrl(id)[..|BaseUrl + "?id="|] == BaseUrl + "?id="
    ensures ParseInt(DeleteUrl(id)[|BaseUrl + "?id="|..]) == Int(id)
  {
    var prefix := BaseUrl + "?id=";
    assert DeleteUrl(id)[|prefix|..] == IntToString(id);
    ParseIntOfIntToString(id);
  }

  // ---------------------------------------------------------------- what the store sends

  /** The reply the browser sees for a response of the store. */
  function Transmit(resp: EventStore.Response): Reply {
    Reply(200 <= resp.status < 300,
          Some(Payload(if resp.body.EventList? then Some(resp.body.events) else None,
                       if resp.body.OneEvent? then Some(resp.body.event) else None)))
  }

  /** The responses the store's handlers produce. */
  predicate StoreResponse(resp: EventStore.Response) {
    || (resp.status == 200 && (resp.body.EventList? || resp.body.OneEvent?))
    || (resp.status == 201 && resp.body.OneEvent?)
    || (resp.status in {400, 404, 500} && resp.body.Failure?)
  }

  /** Against the store, `getEvents` loses nothing: it lists exactly the events of a
      list response, and nothing for any other response, failures included. */
  lemma GetEventsReadsStore(resp: EventStore.Response)
    requires StoreResponse(resp)
    ensures GetEvents(Transmit(resp)) == (if resp.body.EventList? then resp.body.events else [])
    ensures resp.status >= 400 ==> GetEvents(Transmit(resp)) == []
  {
  }

  /** Against the store, `createEvent` and `updateEvent` yield the event exactly when the
      store sent one, and `null` for every error status; only the error text is lost. */
  lemma EventReadsStore(resp: EventStore.Response)
    requires StoreResponse(resp)
    ensures CreateEvent(Transmit(resp)) == (if resp.body.OneEvent? then Some(resp.body.event) else None)
    ensures UpdateEvent(Transmit(resp)) == CreateEvent(Transmit(resp))
    ensures CreateEvent(Transmit(resp)).Some? <==> resp.status < 400 && resp.body.OneEvent?
  {
  }

  /** Against the store, `deleteEvent` reports success exactly for a success status,
      whatever the body says. */
  lemma DeleteReadsStore(resp: EventStore.Response)
    requires StoreResponse(resp)
    ensures DeleteEvent(Transmit(resp)) <==> resp.status < 400
    ensures DeleteEvent(Transmit(resp)) <==> !resp.body.Failure?
  {
  }

  // ---------------------------------------------------------------- display dates

  /** The `Mon D` text of `toLocaleDateString('en-US', {month: 'short', day: 'numeric'})`. */
  function MonthDayText(d: Date): (s: string)
    requires Valid(d)
    ensures |s| >= 5 && s[..3] == MonthShort(d.month) && s[3] == ' '
    ensures AllDigits(s[4..]) && DigitsValue(s[4..]) == d.day
  {
    var s := MonthShort(d.month) + " " + NatToString(d.day);
    assert s[..3] == MonthShort(d.month) && s[4..] == NatToString(d.day);
    DigitsValueOfNatToString(d.day);
    s
  }

  /** `formatDateForDisplay(dateString)`, with the calendar day of `new Date()` given as
      `today`. An unparseable string is an Invalid Date, whose locale text is
      `Invalid Date`. */
  function FormatDateForDisplay(dateString: string, today: Date): string
    requires Valid(today)
  {
    var date := ParseIsoDate(dateString);
    if date == Some(today) then "Today"
    else if date == Some(NextDay(today)) then "Tomorrow"
    else if date.Some? then MonthDayText(date.value)
    else "Invalid Date"
  }

  /** Exactly one label applies: `Today` exactly for today's day, `Tomorrow` exactly
      for the next day, and a `Mon D` text for every other valid day. */
  lemma DisplayLabels(dateString: string, today: Date)
    requires Valid(today)
    ensures FormatDateForDisplay(dateString, today) == "Today" <==> ParseIsoDate(dateString) == Some(today)
    ensures FormatDateForDisplay(dateString, today) == "Tomorrow" <==> ParseIsoDate(dateString) == Some(NextDay(today))
    ensures var d := ParseIsoDate(dateString);
            d.Some? && d.value != today && d.value != NextDay(today) ==>
              FormatDateForDisplay(dateString, today) == MonthDayText(d.value)
  {
    DayNumberNextDay(today);
    var d := ParseIsoDate(dateString);
    if d.Some? && d.value != today && d.value != NextDay(today) {
      var s := MonthDayText(d.value);
      assert s != "Today" by { assert "Today"[3] == 'a'; }
      assert s != "Tomorrow" by { assert "Tomorrow"[3] == 'o'; }
    }
  }

  // ---------------------------------------------------------------- storage dates

  datatype TimeOfDay = TimeOfDay(hour: int, minute: int, second: int, millisecond: int)

  predicate ValidTime(t: TimeOfDay) {
    0 <= t.hour < 24 && 0 <= t.minute < 60 && 0 <= t.second < 60 && 0 <= t.millisecond < 1000
  }

  /** The years a JavaScript `Date` can hold. */
  predicate InDateRange(y: int) { -271821 <= y <= 275760 }

  /** The year field of `toISOString`: four digits for years 0 to 9999, else a sign and
      six digits. */
  function IsoYear(y: int): (s: string)
    requires InDateRange(y)
    ensures 'T' !in s
  {
    if 0 <= y <= 9999 then Year4(y)
    else (if y < 0 then "-" else "+") + PadStart(NatToString(if y < 0 then -y else y), 6, '0')
  }

  /** `date.toISOString()` of the instant at time `t` (UTC) on day `d` (UTC). */
  function IsoTimestamp(d: Date, t: TimeOfDay): string
    requires Valid(d) && InDateRange(d.year) && ValidTime(t)
  {
    IsoDay(d) + "T" + IsoTime(t)
  }

  /** The date part of `toISOString`: year, month and day joined by `-`. */
  function IsoDay(d: Date): string
    requires Valid(d) && InDateRange(d.year)
  {
    IsoYear(d.year) + "-" + Pad2(d.month) + "-" + Pad2(d.day)
  }

  /** The time part of `toISOString`: `hh:mm:ss.sssZ`. */
  function IsoTime(t: TimeOfDay): string
    requires ValidTime(t)
  {
    Pad2(t.hour) + ":" + Pad2(t.minute) + ":" + Pad2(t.second) + "." +
      PadStart(NatToString(t.millisecond), 3, '0') + "Z"
  }

  /** `formatDateForStorage(date)`: the part of the ISO timestamp before the first `T`. */
  function FormatDateForStorage(d: Date, t: TimeOfDay): (s: string)
    requires Valid(d) && InDateRange(d.year) && ValidTime(t)
    ensures 'T' !in s
  {
    BeforeFirst(IsoTimestamp(d, t), 'T')
  }

  /** For a year of four digits the stored text is the 10-character `YYYY-MM-DD` of the
      UTC day, whatever the time, and it parses back to that day. */
  lemma StorageDateRoundTrip(d: Date, t: TimeOfDay)
    requires Valid(d) && 0 <= d.year <= 9999 && ValidTime(t)
    ensures FormatDateForStorage(d, t) == IsoDateText(d)
    ensures |FormatDateForStorage(d, t)| == 10
    ensures ParseIsoDate(FormatDateForStorage(d, t)) == Some(d)
  {
    assert IsoDay(d) == IsoDateText(d);
    BeforeFirstAt(IsoDay(d), IsoTime(t), 'T');
  }

  lemma {:induction false} BeforeFirstAt(a: string, b: string, c: char)
    requires c !in a
    ensures BeforeFirst(a + [c] + b, c) == a
  {
    if a != [] {
      assert (a + [c] + b)[1..] == a[1..] + [c] + b;
      BeforeFirstAt(a[1..], b, c);
    }
  }
}

/** The month calendar of the dashboard: the grid of one month, the events of each day
    cell, and the month navigation. */
module Calendar {
  import opened Wrappers
  import opened Text
  import opened CalendarDate
  import Seqs
  import EventStore

  type Event = EventStore.Event

  // ---------------------------------------------------------------- the grid

  /** `new Date(y, m, 0).getDate()` for the month after the shown one: the last day of
      the shown month. */
  function DaysInShownMonth(shown: Date): (n: int)
    requires Valid(shown)
    ensures 28 <= n <= 31
    ensures DayNumber(FirstOfNextMonth(shown.year, shown.month)) == DayNumber(Date(shown.year, shown.month, 1)) + n
  {
    DayNumberNextMonth(shown.year, shown.month);
    DaysInMonth(shown.year, shown.month)
  }

  /** `new Date(y, m, 1).getDay()`: the weekday, 0 for Sunday, of the first of the month. */
  function FirstDayOfMonth(shown: Date): (w: int)
    requires Valid(shown)
    ensures 0 <= w < 7
  {
    Weekday(Date(shown.year, shown.month, 1))
  }

  datatype Cell = Blank | DayCell(day: int)

  /** The cells of the seven-column grid: a blank per weekday before the first, then one
      cell per day of the month. */
  function Grid(shown: Date): seq<Cell>
    requires Valid(shown)
  {
    Layout(FirstDayOfMonth(shown), DaysInShownMonth(shown))
  }

  /** `first` blank cells followed by the cells of days 1 to `n`. */
  function Layout(first: nat, n: nat): seq<Cell> {
    seq(first, _ => Blank) + seq(n, i => DayCell(i + 1))
  }

  /** The grid starts with the leading blanks, then holds days 1 to the month's length in
      order, and it fits in six rows of seven. */
  lemma GridShape(shown: Date)
    requires Valid(shown)
    ensures var g := Grid(shown);
            var first := FirstDayOfMonth(shown);
            |g| == first + DaysInShownMonth(shown) && |g| <= 6 * 7 &&
            (forall i :: 0 <= i < |g| ==> (g[i] == Blank <==> i < first)) &&
            (forall k :: 1 <= k <= DaysInShownMonth(shown) ==> g[first + k - 1] == DayCell(k))
  {
    GridCells(FirstDayOfMonth(shown), DaysInShownMonth(shown));
  }

  /** The cell of day k, at position `first + k - 1`, is in the column of its weekday. */
  lemma GridColumns(shown: Date)
    requires Valid(shown)
    ensures forall k :: 1 <= k <= DaysInShownMonth(shown) ==>
              (FirstDayOfMonth(shown) + k - 1) % 7 == Weekday(Date(shown.year, shown.month, k))
  {
    forall k | 1 <= k <= DaysInShownMonth(shown)
      ensures (FirstDayOfMonth(shown) + k - 1) % 7 == Weekday(Date(shown.year, shown.month, k))
    {
      WeekdayInMonth(shown.year, shown.month, k);
    }
  }

  /** The cell layout for `first` leading blanks and `n` days. */
  lemma GridCells(first: nat, n: nat)
    ensures var g := Layout(first, n);
            |g| == first + n &&
            (forall i :: 0 <= i < |g| ==> (g[i] == Blank <==> i < first)) &&
            (forall k :: 1 <= k <= n ==> g[first + k - 1] == DayCell(k))
  {
    var blanks: seq<Cell> := seq(first, _ => Blank);
    var days := seq(n, i => DayCell(i + 1));
    var g := blanks + days;
    forall i | 0 <= i < |g| ensures (g[i] == Blank <==> i < first) {
      if i >= first {
        assert g[i] == days[i - first];
      }
    }
    forall k | 1 <= k <= n ensures g[first + k - 1] == DayCell(k) {
      assert g[first + k - 1] == days[k - 1];
    }
  }

  // ---------------------------------------------------------------- events of a day

  /** The key of day `day` of the shown month: the year as written by a template
      literal, then the month and the day zero-padded to two digits. */
  function DayKey(year: int, month: int, day: int): string
    requires 1 <= month <= 12 && 1 <= day <= 31
  {
    IntToString(year) + "-" + Pad2(month) + "-" + Pad2(day)
  }

  /** For a four-digit year the key is the `YYYY-MM-DD` text of that day, so it parses
      back to it. */
  lemma DayKeyIsIso(d: Date)
    requires Valid(d) && 1000 <= d.year <= 9999
    ensures DayKey(d.year, d.month, d.day) == IsoDateText(d)
    ensures ParseIsoDate(DayKey(d.year, d.month, d.day)) == Some(d)
  {
  }

  /** The day an event's `date` field stands for: `Today` and `Tomorrow` are taken
      relative to the current day, anything else is parsed (None is an Invalid Date). */
  function Resolve(date: string, today: Date): (r: Option<Date>)
    requires Valid(today)
    ensures date == "Today" ==> r == Some(today)
    ensures date == "Tomorrow" ==> r == Some(NextDay(today))
    ensures date != "Today" && date != "Tomorrow" ==> r == ParseIsoDate(date)
  {
    if date == "Today" then Some(today)
    else if date == "Tomorrow" then Some(NextDay(today))
    else ParseIsoDate(date)
  }

  /** `getDayEvents(day)`: the events whose day, by `toDateString`, is the day of the
      key. Two Invalid Dates print the same text, so the comparison is one of options. */
  function DayEvents(events: seq<Event>, shown: Date, day: int, today: Date): seq<Event>
    requires Valid(today) && 1 <= shown.month <= 12 && 1 <= day <= 31
  {
    var key := ParseIsoDate(DayKey(shown.year, shown.month, day));
    Seqs.Filter(events, (e: Event) => Resolve(e.date, today) == key)
  }

  /** On a real day of a four-digit year, a cell lists, in their original order,
      exactly the events that resolve to that day. */
  lemma DayEventsSelect(events: seq<Event>, shown: Date, day: int, today: Date)
    requires Valid(today) && Valid(Date(shown.year, shown.month, day)) && 1000 <= shown.year <= 9999
    ensures Seqs.IsSubsequence(DayEvents(events, shown, day, today), events)
    ensures forall e :: e in DayEvents(events, shown, day, today) <==>
              e in events && Resolve(e.date, today) == Some(Date(shown.year, shown.month, day))
  {
    var d := Date(shown.year, shown.month, day);
    DayKeyIsIso(d);
    var key := ParseIsoDate(DayKey(shown.year, shown.month, day));
    var p := (e: Event) => Resolve(e.date, today) == key;
    assert DayEvents(events, shown, day, today) == Seqs.Filter(events, p);
    Seqs.FilterIsSubsequence(events, p);
    forall e ensures e in Seqs.Filter(events, p) <==> e in events && p(e) {
      Seqs.FilterMembership(events, p, e);
    }
  }

  /** `isToday(day)`: the shown month and year are today's and the day is today's. */
  predicate IsToday(shown: Date, day: int, today: Date) {
    shown.month == today.month && shown.year == today.year && day == today.day
  }

  /** Exactly one cell of the grid is marked as today when today's month is shown; that
      cell holds exactly the events that resolve to today, so every event dated `Today`
      and none dated `Tomorrow`. */
  lemma TodayCell(events: seq<Event>, shown: Date, today: Date)
    requires Valid(shown) && Valid(today)
    ensures forall k :: IsToday(shown, k, today) <==>
              (shown.year, shown.month) == (today.year, today.month) && k == today.day
    ensures (shown.year, shown.month) == (today.year, today.month) && 1000 <= today.year <= 9999 ==>
              forall e :: e in DayEvents(events, shown, today.day, today) <==>
                e in events && Resolve(e.date, today) == Some(today)
    ensures (shown.year, shown.month) == (today.year, today.month) && 1000 <= today.year <= 9999 ==>
              forall e :: e in events && e.date == "Today" ==> e in DayEvents(events, shown, today.day, today)
    ensures (shown.year, shown.month) == (today.year, today.month) && 1000 <= today.year <= 9999 ==>
              forall e :: e in events && e.date == "Tomorrow" ==> e !in DayEvents(events, shown, today.day, today)
  {
    if (shown.year, shown.month) == (today.year, today.month) && 1000 <= today.year <= 9999 {
      assert Date(shown.year, shown.month, today.day) == today;
      DayEventsSelect(events, shown, today.day, today);
      DayNumberNextDay(today);
      assert NextDay(today) != today;
    }
  }

  // ---------------------------------------------------------------- a day cell

  /** `dayEvents.slice(0, 2)`: the events a cell shows. */
  function ShownEvents(dayEvents: seq<Event>): seq<Event> {
    Slice(dayEvents, 0, 2)
  }

  /** The `+k more` label under the shown events, present only when some are hidden. */
  function MoreLabel(count: nat): Option<string> {
    if count > 2 then Some("+" + NatToString(count - 2) + " more") else None
  }

  /** A cell shows the first two events (or all, when fewer), and the label counts exactly
      the ones it hides. */
  lemma CellSummary(dayEvents: seq<Event>)
    ensures ShownEvents(dayEvents) == dayEvents[..if |dayEvents| < 2 then |dayEvents| else 2]
    ensures MoreLabel(|dayEvents|).Some? <==> |dayEvents| > 2
    ensures MoreLabel(|dayEvents|).Some? ==>
              MoreLabel(|dayEvents|).value == "+" + NatToString(|dayEvents| - |ShownEvents(dayEvents)|) + " more"
    ensures MoreLabel(|dayEvents|).None? ==> ShownEvents(dayEvents) == dayEvents
  {
  }

  // ---------------------------------------------------------------- month navigation

  /** The months counted from January of year 0. */
  function MonthIndex(d: Date): int { d.year * 12 + d.month - 1 }

  /** The first day of the month `setMonth(month0)` aims at: `month0` counts 0-based
      months from January of `d`'s year and may lie outside 0..11. */
  function MonthStart(d: Date, month0: int): (s: Date)
    ensures Valid(s) && s.day == 1
    ensures MonthIndex(s) == d.year * 12 + month0
  {
    Date(d.year + month0 / 12, month0 % 12 + 1, 1)
  }

  /** `d.setMonth(month0)` for a 0-based month that may lie outside 0..11: the year and
      month roll over, the day of the month is kept, and a day past the end of the target
      month runs on into the month after it. */
  function SetMonthAsWritten(d: Date, month0: int): (r: Date)
    requires Valid(d)
    ensures Valid(r)
    ensures var s := MonthStart(d, month0);
            d.day <= DaysInMonth(s.year, s.month) ==> r == Date(s.year, s.month, d.day)
    ensures var s := MonthStart(d, month0);
            d.day > DaysInMonth(s.year, s.month) ==>
              MonthIndex(r) == MonthIndex(s) + 1 && r.day == d.day - DaysInMonth(s.year, s.month)
  {
    var y := d.year + month0 / 12;
    var m := month0 % 12 + 1;
    if d.day <= DaysInMonth(y, m) then Date(y, m, d.day)
    else
      var next := FirstOfNextMonth(y, m);
      Date(next.year, next.month, d.day - DaysInMonth(y, m))
  }

  /** Whether or not the day fits, `setMonth` lands `d.day - 1` days after the first of
      the target month, as JavaScript's `Date` counts. */
  lemma SetMonthCountsFromFirst(d: Date, month0: int)
    requires Valid(d)
    ensures DayNumber(SetMonthAsWritten(d, month0)) == DayNumber(MonthStart(d, month0)) + d.day - 1
  {
    var s := MonthStart(d, month0);
    DayNumberNextMonth(s.year, s.month);
  }

  /** `previousMonth` and `nextMonth` as written: `setMonth(getMonth() - 1)` and
      `setMonth(getMonth() + 1)`, where `getMonth()` is 0-based. */
  function PreviousMonthAsWritten(d: Date): (r: Date)
    requires Valid(d)
    ensures Valid(r)
  {
    SetMonthAsWritten(d, d.month - 2)
  }

  function NextMonthAsWritten(d: Date): (r: Date)
    requires Valid(d)
    ensures Valid(r)
  {
    SetMonthAsWritten(d, d.month)
  }

  /** On 31 January `nextMonth` skips February, and on 31 March `previousMonth` stays in
      March, because 31 February runs on into March. */
  lemma SetMonthOverflow()
    ensures NextMonthAsWritten(Date(2025, 1, 31)) == Date(2025, 3, 3)
    ensures MonthIndex(NextMonthAsWritten(Date(2025, 1, 31))) == MonthIndex(Date(2025, 1, 31)) + 2
    ensures PreviousMonthAsWritten(Date(2025, 3, 31)) == Date(2025, 3, 3)
    ensures MonthIndex(PreviousMonthAsWritten(Date(2025, 3, 31))) == MonthIndex(Date(2025, 3, 31))
  {
  }

  /** The month `delta` months away from `d`'s, on the same day of the month or on the
      last day of that month when it is shorter. */
  function ShiftMonth(d: Date, delta: int): (r: Date)
    requires Valid(d)
    ensures Valid(r)
    ensures MonthIndex(r) == MonthIndex(d) + delta
    ensures r.day == (if d.day <= DaysInMonth(r.year, r.month) then d.day else DaysInMonth(r.year, r.month))
  {
    var k := d.month - 1 + delta;
    var y := d.year + k / 12;
    var m := k % 12 + 1;
    Date(y, m, if d.day <= DaysInMonth(y, m) then d.day else DaysInMonth(y, m))
  }

  /** A month index names one year and month. */
  lemma MonthIndexDetermines(a: Date, b: Date)
    requires 1 <= a.month <= 12 && 1 <= b.month <= 12
    ensures MonthIndex(a) == MonthIndex(b) <==> a.year == b.year && a.month == b.month
  {
  }

  /** Moving by one month rolls the year over between December and January. */
  lemma ShiftMonthRollover(d: Date)
    requires Valid(d)
    ensures var n := ShiftMonth(d, 1);
            (n.year, n.month) == if d.month == 12 then (d.year + 1, 1) else (d.year, d.month + 1)
    ensures var p := ShiftMonth(d, -1);
            (p.year, p.month) == if d.month == 1 then (d.year - 1, 12) else (d.year, d.month - 1)
  {
    var n := ShiftMonth(d, 1);
    var p := ShiftMonth(d, -1);
    if d.month == 12 {
      MonthIndexDetermines(n, Date(d.year + 1, 1, 1));
    } else {
      MonthIndexDetermines(n, Date(d.year, d.month + 1, 1));
    }
    if d.month == 1 {
      MonthIndexDetermines(p, Date(d.year - 1, 12, 1));
    } else {
      MonthIndexDetermines(p, Date(d.year, d.month - 1, 1));
    }
  }

  /** The written navigation moves by exactly the intended month precisely when the day
      of the month exists in the target month, and then it agrees with `ShiftMonth`. */
  lemma AsWrittenAgreesWhenDayFits(d: Date, delta: int)
    requires Valid(d) && (delta == 1 || delta == -1)
    ensures var w := SetMonthAsWritten(d, d.month - 1 + delta);
            var s := ShiftMonth(d, delta);
            (w == s <==> d.day <= DaysInMonth(s.year, s.month)) &&
            (MonthIndex(w) == MonthIndex(d) + delta <==> d.day <= DaysInMonth(s.year, s.month))
  {
    var w := SetMonthAsWritten(d, d.month - 1 + delta);
    var s := ShiftMonth(d, delta);
    if d.day > DaysInMonth(s.year, s.month) {
      var next := FirstOfNextMonth(s.year, s.month);
      assert w.year == next.year && w.month == next.month;
      assert MonthIndex(next) == MonthIndex(s) + 1;
    }
  }

  /** The shown month of the calendar. Only its year and month are read; the day is the
      day of the month the calendar was opened on. */
  class CalendarView {
    var shown: Date

    predicate Valid()
      reads this
    {
      CalendarDate.Valid(shown)
    }

    constructor(today: Date)
      requires CalendarDate.Valid(today)
      ensures Valid() && shown == today
    {
      shown := today;
    }

    /** `previousMonth` as written: it moves back exactly one month precisely when the
        day of the month exists in the month before. */
    method PreviousMonth()
      requires Valid()
      modifies this
      ensures Valid()
      ensures shown == PreviousMonthAsWritten(old(shown))
      ensures var target := ShiftMonth(old(shown), -1);
              MonthIndex(shown) == MonthIndex(old(shown)) - 1 <==> old(shown).day <= DaysInMonth(target.year, target.month)
    {
      AsWrittenAgreesWhenDayFits(shown, -1);
      shown := PreviousMonthAsWritten(shown);
    }

    /** `nextMonth` as written: it moves on exactly one month precisely when the day of
        the month exists in the month after. */
    method NextMonth()
      requires Valid()
      modifies this
      ensures Valid()
      ensures shown == NextMonthAsWritten(old(shown))
      ensures var target := ShiftMonth(old(shown), 1);
              MonthIndex(shown) == MonthIndex(old(shown)) + 1 <==> old(shown).day <= DaysInMonth(target.year, target.month)
    {
      AsWrittenAgreesWhenDayFits(shown, 1);
      shown := NextMonthAsWritten(shown);
    }

    /** `previousMonth` as intended, with the day clamped to the month before. */
    method PreviousMonthClamped()
      requires Valid()
      modifies this
      ensures Valid()
      ensures shown == ShiftMonth(old(shown), -1)
      ensures MonthIndex(shown) == MonthIndex(old(shown)) - 1
    {
      shown := ShiftMonth(shown, -1);
    }

    /** `nextMonth` as intended, with the day clamped to the month after. */
    method NextMonthClamped()
      requires Valid()
      modifies this
      ensures Valid()
      ensures shown == ShiftMonth(old(shown), 1)
      ensures MonthIndex(shown) == MonthIndex(old(shown)) + 1
    {
      shown := ShiftMonth(shown, 1);
    }
  }

  /** Going forward and back again returns to the month started from. */
  lemma NextThenPrevious(d: Date)
    requires Valid(d)
    ensures var back := ShiftMonth(ShiftMonth(d, 1), -1);
            back.year == d.year && back.month == d.month
  {
    var back := ShiftMonth(ShiftMonth(d, 1), -1);
    MonthIndexDetermines(back, d);
  }
}

/** Calendar days of the proleptic Gregorian calendar, which JavaScript's `Date` uses,
    as (year, month, day) triples with a 1-based month. */
module CalendarDate {
  import opened Wrappers
  import opened Text

  datatype Date = Date(year: int, month: int, day: int)

  predicate IsLeapYear(y: int) {
    y % 4 == 0 && (y % 100 != 0 || y % 400 == 0)
  }

  /** The number of days of month `m` of year `y`. */
  function DaysInMonth(y: int, m: int): (n: int)
    requires 1 <= m <= 12
    ensures 28 <= n <= 31
    ensures m == 2 ==> (n == 29 <==> IsLeapYear(y))
    ensures m != 2 ==> (n == 31 <==> m in {1, 3, 5, 7, 8, 10, 12})
  {
    if m == 2 then (if IsLeapYear(y) then 29 else 28)
    else if m == 4 || m == 6 || m == 9 || m == 11 then 30
    else 31
  }

  predicate Valid(d: Date) {
    1 <= d.month <= 12 && 1 <= d.day <= DaysInMonth(d.year, d.month)
  }

  /** The calendar day after `d`. */
  function NextDay(d: Date): (r: Date)
    requires Valid(d)
    ensures Valid(r)
  {
    if d.day < DaysInMonth(d.year, d.month) then Date(d.year, d.month, d.day + 1)
    else if d.month < 12 then Date(d.year, d.month + 1, 1)
    else Date(d.year + 1, 1, 1)
  }

  /** The first day of the month after month `m` of year `y`. */
  function FirstOfNextMonth(y: int, m: int): (r: Date)
    requires 1 <= m <= 12
    ensures Valid(r) && r.day == 1
  {
    if m < 12 then Date(y, m + 1, 1) else Date(y + 1, 1, 1)
  }

  // ---------------------------------------------------------------- day numbers

  /** The number of days from 1 January of year 0 to 1 January of year `y`. */
  function DaysBeforeYear(y: int): int {
    365 * y + (y + 3) / 4 - (y + 99) / 100 + (y + 399) / 400
  }

  function DaysBeforeMonth(y: int, m: int): (n: int)
    requires 1 <= m <= 12
  {
    [0, 31, 59, 90, 120, 151, 181, 212, 243, 273, 304, 334][m - 1]
      + (if m > 2 && IsLeapYear(y) then 1 else 0)
  }

  /** Days elapsed since 1 January of year 0 (negative before it). */
  function DayNumber(d: Date): int
    requires Valid(d)
  {
    DaysBeforeYear(d.year) + DaysBeforeMonth(d.year, d.month) + d.day - 1
  }

  lemma YearLength(y: int)
    ensures DaysBeforeYear(y + 1) == DaysBeforeYear(y) + (if IsLeapYear(y) then 366 else 365)
  {
    QuarterStep(y);
    CenturyStep(y);
    QuadCenturyStep(y);
  }

  /** One more leap day is counted past a year divisible by 4, 100 or 400 respectively. */
  lemma QuarterStep(y: int)
    ensures (y + 4) / 4 - (y + 3) / 4 == (if y % 4 == 0 then 1 else 0)
  {
  }

  lemma CenturyStep(y: int)
    ensures (y + 100) / 100 - (y + 99) / 100 == (if y % 100 == 0 then 1 else 0)
  {
  }

  lemma QuadCenturyStep(y: int)
    ensures (y + 400) / 400 - (y + 399) / 400 == (if y % 400 == 0 then 1 else 0)
  {
  }

  /** Consecutive calendar days have consecutive day numbers. */
  lemma DayNumberNextDay(d: Date)
    requires Valid(d)
    ensures DayNumber(NextDay(d)) == DayNumber(d) + 1
  {
    if d.day == DaysInMonth(d.year, d.month) && d.month == 12 {
      YearLength(d.year);
    }
  }

  /** The first of the next month comes exactly DaysInMonth days after the first. */
  lemma DayNumberNextMonth(y: int, m: int)
    requires 1 <= m <= 12
    ensures DayNumber(FirstOfNextMonth(y, m)) == DayNumber(Date(y, m, 1)) + DaysInMonth(y, m)
  {
    if m == 12 {
      YearLength(y);
    }
  }

  /** `a` comes before `b` in the calendar: by year, then month, then day. */
  predicate Earlier(a: Date, b: Date) {
    a.year < b.year || (a.year == b.year && a.month < b.month) ||
    (a.year == b.year && a.month == b.month && a.day < b.day)
  }

  /** Distinct valid days have distinct day numbers, in calendar order. */
  lemma DayNumberOrder(a: Date, b: Date)
    requires Valid(a) && Valid(b)
    requires Earlier(a, b)
    ensures DayNumber(a) < DayNumber(b)
  {
    if a.year < b.year {
      YearsAfter(a.year, b.year);
      YearLength(a.year);
    }
  }

  lemma {:induction false} YearsAfter(y: int, z: int)
    requires y < z
    ensures DaysBeforeYear(z) >= DaysBeforeYear(y + 1)
    decreases z - y
  {
    if y + 1 < z {
      YearsAfter(y + 1, z);
      YearLength(y + 1);
    }
  }

  // ---------------------------------------------------------------- weekdays

  /** `getDay()`: 0 for Sunday up to 6 for Saturday. 1 January of year 0 was a Saturday. */
  function Weekday(d: Date): (w: int)
    requires Valid(d)
    ensures 0 <= w < 7
  {
    (DayNumber(d) + 6) % 7
  }

  /** The weekday advances by one, cyclically, from each day to the next. */
  lemma WeekdayNextDay(d: Date)
    requires Valid(d)
    ensures Weekday(NextDay(d)) == (Weekday(d) + 1) % 7
  {
    DayNumberNextDay(d);
    WeekdayAfter(d, NextDay(d));
  }

  /** A day whose day number is one more falls on the next weekday. */
  lemma WeekdayAfter(a: Date, b: Date)
    requires Valid(a) && Valid(b) && DayNumber(b) == DayNumber(a) + 1
    ensures Weekday(b) == (Weekday(a) + 1) % 7
  {
    WeekdayStep(DayNumber(a), DayNumber(b));
  }

  lemma WeekdayStep(n: int, m: int)
    requires m == n + 1
    ensures (m + 6) % 7 == ((n + 6) % 7 + 1) % 7
  {
    ModAdd(n + 6, 1);
  }

  lemma ModAdd(a: int, k: int)
    ensures (a + k) % 7 == (a % 7 + k) % 7
  {
    var q := a / 7;
    assert a == 7 * q + a % 7;
    assert a + k == 7 * q + (a % 7 + k);
  }

  /** Days of the same month are laid out on consecutive weekdays. */
  lemma WeekdayInMonth(y: int, m: int, k: int)
    requires 1 <= m <= 12 && 1 <= k <= DaysInMonth(y, m)
    ensures Weekday(Date(y, m, k)) == (Weekday(Date(y, m, 1)) + k - 1) % 7
  {
    var n := DayNumber(Date(y, m, 1));
    assert DayNumber(Date(y, m, k)) == n + k - 1;
    ModAdd(n + 6, k - 1);
  }

  // ---------------------------------------------------------------- text

  /** `new Date(s)` for a date-only ISO string `YYYY-MM-DD`: the day it names, or
      `None` (an Invalid Date) for any other text. */
  function ParseIsoDate(s: string): (r: Option<Date>)
    ensures r.Some? ==> Valid(r.value) && 0 <= r.value.year <= 9999
  {
    if |s| == 10 && AllDigits(s[0..4]) && s[4] == '-' && AllDigits(s[5..7]) && s[7] == '-' && AllDigits(s[8..10])
    then
      var d := Date(DigitsValue(s[0..4]), DigitsValue(s[5..7]), DigitsValue(s[8..10]));
      assert DigitsValue(s[0..4]) <= 9999 by { DigitsBound(s[0..4]); }
      if Valid(d) then Some(d) else None
    else None
  }

  lemma {:induction false} DigitsBound(s: string)
    requires AllDigits(s)
    ensures DigitsValue(s) < Pow10(|s|)
  {
    if s != [] {
      DigitsBound(s[..|s| - 1]);
    }
  }

  /** Four zero-padded digits of a year in 0..9999, as `toISOString` writes it. */
  function Year4(y: int): (s: string)
    requires 0 <= y <= 9999
    ensures |s| == 4 && AllDigits(s) && DigitsValue(s) == y
  {
    DigitsValueOfNatToString(y);
    var t := NatToString(y);
    if y >= 1000 then NatToStringFourDigits(y); t
    else if y >= 100 then NatToStringLength(y, 2, 100); LeadingZeros("0", t); "0" + t
    else if y >= 10 then NatToStringLength(y, 1, 10); LeadingZeros("00", t); "00" + t
    else LeadingZeros("000", t); "000" + t
  }

  /** Reading a padded digit string: the value of `a + b` for digit strings. */
  lemma {:induction false} DigitsValueAppend(a: string, b: string)
    requires AllDigits(a) && AllDigits(b)
    ensures AllDigits(a + b)
    ensures DigitsValue(a + b) == DigitsValue(a) * Pow10(|b|) + DigitsValue(b)
  {
    if b != [] {
      var b' := b[..|b| - 1];
      assert (a + b)[..|a + b| - 1] == a + b';
      DigitsValueAppend(a, b');
      assert (a + b)[|a + b| - 1] == b[|b| - 1];
      assert DigitsValue(a + b) == DigitsValue(a + b') * 10 + DigitValue(b[|b| - 1]);
      assert DigitsValue(b) == DigitsValue(b') * 10 + DigitValue(b[|b| - 1]);
      assert Pow10(|b|) == 10 * Pow10(|b'|);
      Distribute(DigitsValue(a), Pow10(|b'|), DigitsValue(b'), DigitValue(b[|b| - 1]));
    } else {
      assert a + b == a;
    }
  }

  lemma Distribute(va: int, p: int, vb: int, c: int)
    ensures (va * p + vb) * 10 + c == va * (10 * p) + (vb * 10 + c)
  {
  }

  lemma LeadingZeros(z: string, t: string)
    requires AllDigits(t) && forall i :: 0 <= i < |z| ==> z[i] == '0'
    ensures AllDigits(z + t) && DigitsValue(z + t) == DigitsValue(t)
  {
    ZerosValue(z);
    DigitsValueAppend(z, t);
  }

  lemma {:induction false} ZerosValue(z: string)
    requires forall i :: 0 <= i < |z| ==> z[i] == '0'
    ensures AllDigits(z) && DigitsValue(z) == 0
  {
    if z != [] {
      ZerosValue(z[..|z| - 1]);
    }
  }

  /** The `YYYY-MM-DD` text of a day whose year has at most four digits. */
  function IsoDateText(d: Date): (s: string)
    requires Valid(d) && 0 <= d.year <= 9999
    ensures |s| == 10 && 'T' !in s
    ensures ParseIsoDate(s) == Some(d)
  {
    var s := Year4(d.year) + "-" + Pad2(d.month) + "-" + Pad2(d.day);
    assert s[0..4] == Year4(d.year) && s[5..7] == Pad2(d.month) && s[8..10] == Pad2(d.day);
    s
  }

  /** The short English month names `toLocaleDateString('en-US', {month: 'short'})` uses. */
  function MonthShort(m: int): (s: string)
    requires 1 <= m <= 12
    ensures |s| == 3
  {
    ["Jan", "Feb", "Mar", "Apr", "May", "Jun", "Jul", "Aug", "Sep", "Oct", "Nov", "Dec"][m - 1]
  }
}

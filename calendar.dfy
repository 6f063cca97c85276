/** Whole-day calendar arithmetic for the scheduler: proleptic Gregorian civil dates and
    instants made of a date and a time of day in milliseconds. Time zones and daylight
    saving are not modelled, so a day always lasts 24 hours. */
module Calendar {

  const MsPerDay: int := 24 * 60 * 60 * 1000

  datatype Date = Date(year: int, month: int, day: int)

  predicate IsLeapYear(y: int) {
    y % 4 == 0 && (y % 100 != 0 || y % 400 == 0)
  }

  function DaysInMonth(y: int, m: int): (n: int)
    requires 1 <= m <= 12
    ensures 28 <= n <= 31
    ensures m == 2 ==> (n == 29 <==> IsLeapYear(y))
  {
    if m == 2 then (if IsLeapYear(y) then 29 else 28)
    else if m == 4 || m == 6 || m == 9 || m == 11 then 30
    else 31
  }

  predicate ValidDate(d: Date) {
    1 <= d.month <= 12 && 1 <= d.day <= DaysInMonth(d.year, d.month)
  }

  /** Chronological order of civil dates. */
  predicate DateLt(a: Date, b: Date) {
    a.year < b.year
    || (a.year == b.year && a.month < b.month)
    || (a.year == b.year && a.month == b.month && a.day < b.day)
  }

  predicate DateLe(a: Date, b: Date) {
    a == b || DateLt(a, b)
  }

  lemma DateLtTransitive(a: Date, b: Date, c: Date)
    requires DateLt(a, b) && DateLt(b, c)
    ensures DateLt(a, c)
  {
  }

  /** The first day of the month after (y, m). */
  function FirstOfNextMonth(y: int, m: int): (r: Date)
    requires 1 <= m <= 12
    ensures ValidDate(r) && r.day == 1
    ensures DateLt(Date(y, m, DaysInMonth(y, m)), r)
  {
    if m == 12 then Date(y + 1, 1, 1) else Date(y, m + 1, 1)
  }

  /** `setDate(getDate() + 1)`: the following calendar day. */
  function NextDay(d: Date): (r: Date)
    requires ValidDate(d)
    ensures ValidDate(r) && DateLt(d, r)
  {
    if d.day < DaysInMonth(d.year, d.month) then Date(d.year, d.month, d.day + 1)
    else FirstOfNextMonth(d.year, d.month)
  }

  /** No valid date lies strictly between a day and the next one. */
  lemma NextDayAdjacent(d: Date, x: Date)
    requires ValidDate(d) && ValidDate(x)
    ensures DateLt(d, x) <==> DateLe(NextDay(d), x)
  {
    if DateLe(NextDay(d), x) {
      if NextDay(d) != x {
        DateLtTransitive(d, NextDay(d), x);
      }
    }
  }

  /** `setDate(getDate() + n)` for n >= 0: n steps of one day. */
  function AddDays(d: Date, n: nat): (r: Date)
    requires ValidDate(d)
    ensures ValidDate(r)
    decreases n
  {
    if n == 0 then d else AddDays(NextDay(d), n - 1)
  }

  lemma {:induction false} AddDaysIsLater(d: Date, n: nat)
    requires ValidDate(d) && n > 0
    ensures DateLt(d, AddDays(d, n))
    decreases n
  {
    if n > 1 {
      AddDaysIsLater(NextDay(d), n - 1);
      DateLtTransitive(d, NextDay(d), AddDays(d, n));
    }
  }

  /** Adding one more day is taking the next day of the sum. */
  lemma {:induction false} AddDaysStep(d: Date, n: nat)
    requires ValidDate(d)
    ensures AddDays(d, n + 1) == NextDay(AddDays(d, n))
    decreases n
  {
    if n > 0 {
      AddDaysStep(NextDay(d), n - 1);
    }
  }

  /** Days added without leaving the month only move the day of the month. */
  lemma {:induction false} AddDaysWithinMonth(d: Date, n: nat)
    requires ValidDate(d) && d.day + n <= DaysInMonth(d.year, d.month)
    ensures AddDays(d, n) == Date(d.year, d.month, d.day + n)
    decreases n
  {
    if n > 0 {
      AddDaysWithinMonth(NextDay(d), n - 1);
    }
  }

  /** Adding a + b days is adding a days and then b days. */
  lemma {:induction false} AddDaysSplit(d: Date, a: nat, b: nat)
    requires ValidDate(d)
    ensures AddDays(d, a + b) == AddDays(AddDays(d, a), b)
    decreases a
  {
    if a > 0 {
      AddDaysSplit(NextDay(d), a - 1, b);
    }
  }

  /** `setMonth(getMonth() + 1)`: the same day of the following month; a day that the
      following month does not have rolls over into the month after it, as JavaScript's
      Date does (31 January becomes 3 March, or 2 March in a leap year). */
  function AddOneMonth(d: Date): (r: Date)
    requires ValidDate(d)
    ensures ValidDate(r) && DateLt(d, r)
  {
    var target := FirstOfNextMonth(d.year, d.month);
    var len := DaysInMonth(target.year, target.month);
    if d.day <= len then Date(target.year, target.month, d.day)
    else
      var after := FirstOfNextMonth(target.year, target.month);
      Date(after.year, after.month, d.day - len)
  }

  /** JavaScript's month arithmetic: the date one month after d lies d.day - 1 days after
      the first of the following month, whatever the length of that month, so that an
      overflowing day rolls forward into the month after it. */
  lemma AddOneMonthCountsDays(d: Date)
    requires ValidDate(d)
    ensures AddOneMonth(d) == AddDays(FirstOfNextMonth(d.year, d.month), d.day - 1)
  {
    var target := FirstOfNextMonth(d.year, d.month);
    var len := DaysInMonth(target.year, target.month);
    if d.day <= len {
      AddDaysWithinMonth(target, d.day - 1);
    } else {
      var after := FirstOfNextMonth(target.year, target.month);
      AddDaysWithinMonth(target, len - 1);
      AddDaysStep(target, len - 1);
      assert AddDays(target, len) == after;
      AddDaysSplit(target, len, d.day - len - 1);
      AddDaysWithinMonth(after, d.day - len - 1);
    }
  }

  /** A point in time: a civil date and the milliseconds elapsed since its midnight. */
  datatype Instant = Instant(date: Date, ms: int)

  predicate ValidInstant(t: Instant) {
    ValidDate(t.date) && 0 <= t.ms < MsPerDay
  }

  predicate InstantLt(a: Instant, b: Instant) {
    DateLt(a.date, b.date) || (a.date == b.date && a.ms < b.ms)
  }

  predicate InstantLe(a: Instant, b: Instant) {
    a == b || InstantLt(a, b)
  }

  /** The instants a JavaScript Date can hold (an invalid Date is not modelled). */
  type Moment = t: Instant | ValidInstant(t) witness Instant(Date(1970, 1, 1), 0)

  /** `setHours(0, 0, 0, 0)`: midnight at the start of the instant's day. */
  function StartOfDay(t: Instant): Instant {
    Instant(t.date, 0)
  }

  /** Midnight that starts the day after the given one: the instant 24 hours after
      `StartOfDay`. */
  function StartOfNextDay(d: Date): Instant
    requires ValidDate(d)
  {
    Instant(NextDay(d), 0)
  }

  /** The window [start of day D, start of day D + 24h) holds exactly the instants on day D. */
  lemma DayWindow(x: Instant, d: Date)
    requires ValidInstant(x) && ValidDate(d)
    ensures (InstantLe(Instant(d, 0), x) && InstantLt(x, StartOfNextDay(d))) <==> x.date == d
  {
    NextDayAdjacent(d, x.date);
    if x.date == d {
      assert DateLt(d, NextDay(d));
    }
  }

  /** An instant at or after the start of tomorrow lies on a day after today. */
  lemma FromTomorrowIsAfterToday(today: Date, x: Instant)
    requires ValidDate(today) && ValidInstant(x)
    requires InstantLe(StartOfNextDay(today), x)
    ensures DateLt(today, x.date)
  {
    NextDayAdjacent(today, x.date);
  }

  /** An instant before the start of tomorrow lies on today or an earlier day. */
  lemma BeforeTomorrowIsNotAfterToday(today: Date, x: Instant)
    requires ValidDate(today) && ValidInstant(x)
    requires InstantLt(x, StartOfNextDay(today))
    ensures !DateLt(today, x.date)
  {
    NextDayAdjacent(today, x.date);
  }
}

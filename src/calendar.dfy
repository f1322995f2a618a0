/** Gregorian calendar dates, the range of dates a pandas Timestamp can
    hold, and the day numbering used as the row labels of every table. */
module Calendar {

  datatype Date = Date(year: int, month: int, day: int)

  predicate IsLeapYear(y: int) {
    y % 4 == 0 && (y % 100 != 0 || y % 400 == 0)
  }

  function DaysInMonth(y: int, m: int): (n: int)
    requires 1 <= m <= 12
    ensures 28 <= n <= 31
    ensures n == 29 <==> m == 2 && IsLeapYear(y)
  {
    if m == 2 then (if IsLeapYear(y) then 29 else 28)
    else if m == 4 || m == 6 || m == 9 || m == 11 then 30
    else 31
  }

  /** A year, month and day that name a day of the Gregorian calendar. */
  predicate IsCalendarDate(d: Date) {
    1 <= d.month <= 12 && 1 <= d.day <= DaysInMonth(d.year, d.month)
  }

  /** Strict calendar order: year first, then month, then day. */
  predicate Before(a: Date, b: Date) {
    a.year < b.year
    || (a.year == b.year && (a.month < b.month || (a.month == b.month && a.day < b.day)))
  }

  /** The first and last whole days a nanosecond pandas Timestamp can hold
      (Timestamp.min is 1677-09-21 00:12:43, Timestamp.max 2262-04-11 23:47:16);
      parsing a date outside them raises OutOfBoundsDatetime, a ValueError. */
  const FirstTimestampDay := Date(1677, 9, 22)
  const LastTimestampDay := Date(2262, 4, 11)

  predicate Representable(d: Date) {
    IsCalendarDate(d) && !Before(d, FirstTimestampDay) && !Before(LastTimestampDay, d)
  }

  /** A calendar day that a Timestamp can hold. */
  type Timestamp = d: Date | Representable(d) witness Date(2000, 1, 1)

  function DaysInYear(y: int): int {
    if IsLeapYear(y) then 366 else 365
  }

  function DaysBeforeYear(y: int): (n: int)
    requires y >= 1
    ensures n >= 0
    decreases y
  {
    if y == 1 then 0 else DaysBeforeYear(y - 1) + DaysInYear(y - 1)
  }

  function DaysBeforeMonth(y: int, m: int): (n: int)
    requires 1 <= m <= 12
  {
    [0, 31, 59, 90, 120, 151, 181, 212, 243, 273, 304, 334][m - 1]
    + (if m > 2 && IsLeapYear(y) then 1 else 0)
  }

  /** The number of days from 0001-01-01 to the given day; the row labels of
      every date-indexed table are day numbers. */
  function DayNumber(d: Timestamp): int {
    DaysBeforeYear(d.year) + DaysBeforeMonth(d.year, d.month) + d.day - 1
  }

  lemma MonthFitsInYear(y: int, m: int)
    requires 1 <= m <= 12
    ensures DaysBeforeMonth(y, m) + DaysInMonth(y, m) <= DaysInYear(y)
    ensures m < 12 ==> DaysBeforeMonth(y, m + 1) == DaysBeforeMonth(y, m) + DaysInMonth(y, m)
  {
  }

  lemma {:induction false} YearsAccumulate(y1: int, y2: int)
    requires 1 <= y1 < y2
    ensures DaysBeforeYear(y1) + DaysInYear(y1) <= DaysBeforeYear(y2)
    decreases y2 - y1
  {
    if y1 + 1 < y2 {
      YearsAccumulate(y1 + 1, y2);
    }
  }

  lemma MonthsAccumulate(y: int, m1: int, m2: int)
    requires 1 <= m1 < m2 <= 12
    ensures DaysBeforeMonth(y, m1) + DaysInMonth(y, m1) <= DaysBeforeMonth(y, m2)
  {
  }

  /** Day numbers follow the calendar order exactly; in particular two
      different Timestamps never share a day number. */
  lemma DayNumberOrder(a: Timestamp, b: Timestamp)
    ensures Before(a, b) <==> DayNumber(a) < DayNumber(b)
    ensures a == b <==> DayNumber(a) == DayNumber(b)
  {
    forall x: Timestamp, z: Timestamp | Before(x, z)
      ensures DayNumber(x) < DayNumber(z)
    {
      if x.year < z.year {
        MonthFitsInYear(x.year, x.month);
        YearsAccumulate(x.year, z.year);
      } else if x.month < z.month {
        MonthsAccumulate(x.year, x.month, z.month);
      }
    }
  }

  /** The calendar day after d: the next day of the month, else the first of
      the next month, else New Year's Day of the next year. */
  function NextDay(d: Date): (n: Date)
    requires IsCalendarDate(d)
    ensures IsCalendarDate(n) && Before(d, n)
    ensures forall e :: IsCalendarDate(e) && Before(d, e) ==> !Before(e, n)
  {
    if d.day < DaysInMonth(d.year, d.month) then Date(d.year, d.month, d.day + 1)
    else if d.month < 12 then Date(d.year, d.month + 1, 1)
    else Date(d.year + 1, 1, 1)
  }

  /** Consecutive calendar days have consecutive day numbers, so a daily
      date range is a range of consecutive labels. */
  lemma NextDayNumber(d: Timestamp)
    requires Representable(NextDay(d))
    ensures DayNumber(NextDay(d)) == DayNumber(d) + 1
  {
    if d.day == DaysInMonth(d.year, d.month) {
      if d.month < 12 {
        MonthFitsInYear(d.year, d.month);
      } else {
        assert DaysBeforeYear(d.year + 1) == DaysBeforeYear(d.year) + DaysInYear(d.year);
      }
    }
  }

  /** The day k days after d, as pandas.date_range steps from its start. */
  function DayAfter(d: Date, k: nat): (n: Date)
    requires IsCalendarDate(d)
    ensures IsCalendarDate(n)
    ensures k > 0 ==> Before(d, n)
    decreases k
  {
    if k == 0 then d else NextDay(DayAfter(d, k - 1))
  }

  /** The k-th day of a daily range starting at d has label DayNumber(d) + k,
      so a daily date range is a run of consecutive labels. */
  lemma {:induction false} DayAfterNumber(d: Timestamp, k: nat)
    requires Representable(DayAfter(d, k))
    ensures DayNumber(DayAfter(d, k)) == DayNumber(d) + k
  {
    if k > 0 {
      var p := DayAfter(d, k - 1);
      assert Representable(p);
      DayAfterNumber(d, k - 1);
      NextDayNumber(p);
    }
  }
}

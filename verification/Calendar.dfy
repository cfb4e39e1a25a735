/** The proleptic Gregorian calendar by day numbers (day 0 is 1970-01-01), as Date.UTC counts them
    (section 21.4.1 of ECMA-262), and its inverse. */
module Calendar {
  datatype Date = Date(year: int, month: int, day: int)

  predicate IsLeap(y: int) { y % 4 == 0 && (y % 100 != 0 || y % 400 == 0) }

  /** The day number of January 1st. */
  function YearStart(y: int): int { 365 * (y - 1970) + (y - 1969) / 4 - (y - 1901) / 100 + (y - 1601) / 400 }

  function MonthLength(y: int, m: int): int {
    if m == 2 then (if IsLeap(y) then 29 else 28) else if m == 4 || m == 6 || m == 9 || m == 11 then 30 else 31
  }

  function MonthStart(y: int, m: int): int
    requires 1 <= m <= 13
    decreases m
  {
    if m == 1 then 0 else MonthStart(y, m - 1) + MonthLength(y, m - 1)
  }

  predicate IsDate(d: Date) { 1 <= d.month <= 12 && 1 <= d.day <= MonthLength(d.year, d.month) }

  /** A day beyond the end of its month counts on into the next one. */
  function DayNumber(y: int, m: int, d: int): int
    requires 1 <= m <= 12
  {
    YearStart(y) + MonthStart(y, m) + d - 1
  }

  lemma Quarters(y: int)
    ensures (y - 1968) / 4 - (y - 1969) / 4 == (if y % 4 == 0 then 1 else 0)
  {
  }

  lemma Centuries(y: int)
    ensures (y - 1900) / 100 - (y - 1901) / 100 == (if y % 100 == 0 then 1 else 0)
  {
  }

  lemma Cycles(y: int)
    ensures (y - 1600) / 400 - (y - 1601) / 400 == (if y % 400 == 0 then 1 else 0)
  {
  }

  lemma LeapDivisors(y: int)
    ensures y % 400 == 0 ==> y % 100 == 0
    ensures y % 100 == 0 ==> y % 4 == 0
  {
  }

  lemma YearLength(y: int)
    ensures YearStart(y + 1) - YearStart(y) == (if IsLeap(y) then 366 else 365)
  {
    Quarters(y);
    Centuries(y);
    Cycles(y);
    LeapDivisors(y);
  }

  lemma MonthsFillYear(y: int)
    ensures MonthStart(y, 13) == (if IsLeap(y) then 366 else 365)
  {
    assert MonthStart(y, 4) == 90 + MonthLength(y, 2) - 28;
    assert MonthStart(y, 7) == MonthStart(y, 4) + 91;
    assert MonthStart(y, 10) == MonthStart(y, 7) + 92;
  }

  /** The year of day n, searched upwards from y. */
  function YearFrom(n: int, y: int): (r: int)
    requires YearStart(y) <= n
    ensures YearStart(r) <= n < YearStart(r + 1)
    decreases n - YearStart(y)
  {
    YearLength(y);
    if n < YearStart(y + 1) then y else YearFrom(n, y + 1)
  }

  function YearOf(n: int): (r: int)
    ensures YearStart(r) <= n < YearStart(r + 1)
  {
    YearFrom(n, if n < 0 then 1970 + n / 365 else 1970)
  }

  /** The month of the dayth day of a year, counting from 0, searched upwards from m. */
  function MonthFrom(y: int, day: int, m: int): (r: int)
    requires 1 <= m <= 12 && MonthStart(y, m) <= day < MonthStart(y, 13)
    ensures 1 <= r <= 12 && MonthStart(y, r) <= day < MonthStart(y, r + 1)
    decreases 12 - m
  {
    if day < MonthStart(y, m + 1) then m else MonthFrom(y, day, m + 1)
  }

  function DateOf(n: int): (d: Date)
    ensures IsDate(d) && DayNumber(d.year, d.month, d.day) == n
  {
    var y := YearOf(n);
    YearLength(y);
    MonthsFillYear(y);
    var m := MonthFrom(y, n - YearStart(y), 1);
    Date(y, m, n - YearStart(y) - MonthStart(y, m) + 1)
  }

  function WeekdayOf(n: int): int { (n + 4) % 7 }

  /** Apart from February, long and short months alternate, with two long ones in a row in July and August. */
  lemma MonthsAlternate(y: int, m: int)
    requires 1 <= m <= 12 && m != 2
    ensures MonthLength(y, m) == 30 + (m + m / 8) % 2
  {
  }

  lemma CenturiesRepeat(y: int)
    ensures YearStart(y + 400) == YearStart(y) + 7 * 20871 && (IsLeap(y + 400) <==> IsLeap(y))
  {
    assert (y + 400 - 1969) / 4 == (y - 1969) / 4 + 100;
    assert (y + 400 - 1901) / 100 == (y - 1901) / 100 + 4;
    assert (y + 400 - 1601) / 400 == (y - 1601) / 400 + 1;
    assert (y + 400) % 4 == y % 4 && (y + 400) % 100 == y % 100 && (y + 400) % 400 == y % 400;
  }

  lemma {:induction false} MonthsRepeat(y: int, m: int)
    requires 1 <= m <= 13
    ensures MonthStart(y + 400, m) == MonthStart(y, m)
    decreases m
  {
    CenturiesRepeat(y);
    if m > 1 { MonthsRepeat(y, m - 1); }
  }

  /** The first day counted was a Thursday (4; Sunday is 0), and weekdays follow one another. */
  lemma WeekdaysFollow(n: int)
    ensures WeekdayOf(DayNumber(1970, 1, 1)) == 4
    ensures WeekdayOf(n + 1) == if WeekdayOf(n) == 6 then 0 else WeekdayOf(n) + 1
  {
    assert DayNumber(1970, 1, 1) == 0;
    hide DayNumber;
    NextWeekday(n);
  }

  lemma NextWeekday(n: int)
    ensures WeekdayOf(n + 1) == if WeekdayOf(n) == 6 then 0 else WeekdayOf(n) + 1
  {
  }

  /** After 400 years every date has its weekday again. */
  lemma WeekdaysRepeat(d: Date)
    requires IsDate(d)
    ensures WeekdayOf(DayNumber(d.year + 400, d.month, d.day)) == WeekdayOf(DayNumber(d.year, d.month, d.day))
  {
    hide YearStart, MonthStart;
    CenturiesRepeat(d.year);
    MonthsRepeat(d.year, d.month);
  }

  lemma {:induction false} YearsAscend(y: int, z: int)
    requires y <= z
    ensures YearStart(y) + 365 * (z - y) <= YearStart(z)
    decreases z - y
  {
    if y < z {
      YearLength(z - 1);
      YearsAscend(y, z - 1);
    }
  }

  lemma {:induction false} MonthsAscend(y: int, m: int, n: int)
    requires 1 <= m <= n <= 13
    ensures MonthStart(y, m) <= MonthStart(y, n)
    ensures m < n ==> MonthStart(y, m) + MonthLength(y, m) <= MonthStart(y, n)
    decreases n - m
  {
    if m < n { MonthsAscend(y, m, n - 1); }
  }

  lemma DateWithinYear(d: Date)
    requires IsDate(d)
    ensures YearStart(d.year) <= DayNumber(d.year, d.month, d.day) < YearStart(d.year + 1)
  {
    YearLength(d.year);
    MonthsFillYear(d.year);
    MonthsAscend(d.year, 1, d.month);
    MonthsAscend(d.year, d.month, 13);
  }

  /** A day belongs to one year only. */
  lemma YearIsUnique(n: int, y: int, z: int)
    requires YearStart(y) <= n < YearStart(y + 1)
    requires YearStart(z) <= n < YearStart(z + 1)
    ensures y == z
  {
    if y < z { YearsAscend(y + 1, z); }
    if z < y { YearsAscend(z + 1, y); }
  }

  lemma MonthIsUnique(y: int, day: int, m: int, n: int)
    requires 1 <= m <= 12 && MonthStart(y, m) <= day < MonthStart(y, m + 1)
    requires 1 <= n <= 12 && MonthStart(y, n) <= day < MonthStart(y, n + 1)
    ensures m == n
  {
    if m < n { MonthsAscend(y, m + 1, n); }
    if n < m { MonthsAscend(y, n + 1, m); }
  }

  /** Every date is the date of its day number: with DateOf's contract, dates and day numbers
      correspond one to one. */
  lemma DateRoundTrip(d: Date)
    requires IsDate(d)
    ensures DateOf(DayNumber(d.year, d.month, d.day)) == d
  {
    var e := DateOf(DayNumber(d.year, d.month, d.day));
    DateWithinYear(d);
    YearIsUnique(DayNumber(d.year, d.month, d.day), d.year, YearOf(DayNumber(d.year, d.month, d.day)));
    MonthIsUnique(d.year, MonthStart(d.year, d.month) + d.day - 1, d.month, e.month);
  }

  /** The day after, by the rules of the calendar. */
  function Tomorrow(d: Date): Date {
    if d.day < MonthLength(d.year, d.month) then Date(d.year, d.month, d.day + 1)
    else if d.month < 12 then Date(d.year, d.month + 1, 1)
    else Date(d.year + 1, 1, 1)
  }

  lemma TomorrowIsNext(d: Date)
    requires IsDate(d)
    ensures IsDate(Tomorrow(d))
    ensures var e := Tomorrow(d); DayNumber(e.year, e.month, e.day) == DayNumber(d.year, d.month, d.day) + 1
  {
    if d.month == 12 {
      YearLength(d.year);
      MonthsFillYear(d.year);
    }
  }

  /** Counting days on is stepping through the calendar, over month ends and leap days. */
  lemma CountingIsStepping(n: int)
    ensures DateOf(n + 1) == Tomorrow(DateOf(n))
  {
    TomorrowIsNext(DateOf(n));
    DateRoundTrip(Tomorrow(DateOf(n)));
  }
}

/**
 * Dates of the proleptic Gregorian calendar, as Python's `datetime` uses them:
 * an ordinal day count from 0001-01-01 (a Monday), the weekday with Monday = 0,
 * "date + n days", and the comparison of a midnight with a moment of a day.
 */
module Calendar {

  datatype Date = Date(year: int, month: int, day: int)

  datatype TimeOfDay = TimeOfDay(hour: int, minute: int, second: int, micro: int)

  /** What `datetime.now()` returns: a calendar date and a time of that day. */
  datatype Moment = Moment(date: Date, time: TimeOfDay)

  predicate IsLeap(y: int) {
    y % 4 == 0 && (y % 100 != 0 || y % 400 == 0)
  }

  function DaysInMonth(y: int, m: int): (n: int)
    requires 1 <= m <= 12
    ensures 28 <= n <= 31
    ensures n == 29 <==> m == 2 && IsLeap(y)
  {
    if m == 2 then (if IsLeap(y) then 29 else 28)
    else if m == 4 || m == 6 || m == 9 || m == 11 then 30
    else 31
  }

  function DaysInYear(y: int): int {
    if IsLeap(y) then 366 else 365
  }

  predicate Valid(d: Date) {
    d.year >= 1 && 1 <= d.month <= 12 && 1 <= d.day <= DaysInMonth(d.year, d.month)
  }

  predicate ValidTime(t: TimeOfDay) {
    0 <= t.hour < 24 && 0 <= t.minute < 60 && 0 <= t.second < 60 && 0 <= t.micro < 1000000
  }

  predicate ValidMoment(now: Moment) {
    Valid(now.date) && ValidTime(now.time)
  }

  const Midnight := TimeOfDay(0, 0, 0, 0)

  /** Days of the year that lie before the first of month m. */
  function DaysBeforeMonth(y: int, m: int): int
    requires 1 <= m <= 12
  {
    var common :=
      if m == 1 then 0 else if m == 2 then 31 else if m == 3 then 59
      else if m == 4 then 90 else if m == 5 then 120 else if m == 6 then 151
      else if m == 7 then 181 else if m == 8 then 212 else if m == 9 then 243
      else if m == 10 then 273 else if m == 11 then 304 else 334;
    if m > 2 && IsLeap(y) then common + 1 else common
  }

  /** Days from 0001-01-01 to the first of January of year y: the lengths of the years before it. */
  function DaysBeforeYear(y: int): (n: int)
    requires y >= 1
    ensures n >= 0
    decreases y
  {
    if y == 1 then 0 else DaysBeforeYear(y - 1) + DaysInYear(y - 1)
  }

  /** The count agrees with the closed form `_days_before_year` of Python's `datetime`. */
  lemma {:induction false} DaysBeforeYearClosed(y: int)
    requires y >= 1
    ensures var x := y - 1; DaysBeforeYear(y) == 365 * x + x / 4 - x / 100 + x / 400
    decreases y
  {
    if y > 1 {
      DaysBeforeYearClosed(y - 1);
      DivStep(y - 2);
      LeapCount(y - 1);
      assert y - 2 + 1 == y - 1;
    }
  }

  /** A year has 365 days, one more when 4 divides it, one less when 100 does, one more when 400 does. */
  lemma LeapCount(z: int)
    ensures DaysInYear(z) == 365 + (if z % 4 == 0 then 1 else 0) - (if z % 100 == 0 then 1 else 0) + (if z % 400 == 0 then 1 else 0)
  {
    if z % 100 == 0 {
      var q := z / 100;
      assert z == 4 * (25 * q);
    }
    if z % 400 == 0 {
      var q := z / 400;
      assert z == 100 * (4 * q);
    }
  }

  /** The day count of a date, 0 for 0001-01-01 (Python's toordinal() minus one). */
  function Ordinal(d: Date): int
    requires Valid(d)
  {
    DaysBeforeYear(d.year) + DaysBeforeMonth(d.year, d.month) + d.day - 1
  }

  /** The weekday as `date.weekday()` gives it: Monday = 0 ... Sunday = 6. */
  function Weekday(d: Date): (w: int)
    requires Valid(d)
    ensures 0 <= w < 7
  {
    OrdinalNonNegative(d);
    Ordinal(d) % 7
  }

  function NextDay(d: Date): (e: Date)
    requires Valid(d)
    ensures Valid(e)
  {
    if d.day < DaysInMonth(d.year, d.month) then Date(d.year, d.month, d.day + 1)
    else if d.month < 12 then Date(d.year, d.month + 1, 1)
    else Date(d.year + 1, 1, 1)
  }

  /** `d + timedelta(days=n)`: the date whose day count is n more than d's. */
  function AddDays(d: Date, n: nat): (e: Date)
    requires Valid(d)
    ensures Valid(e) && Ordinal(e) == Ordinal(d) + n
    decreases n
  {
    if n == 0 then d
    else
      NextDayOrdinal(d);
      AddDays(NextDay(d), n - 1)
  }

  /** Lexicographic order of dates. */
  predicate Before(a: Date, b: Date) {
    a.year < b.year
    || (a.year == b.year && a.month < b.month)
    || (a.year == b.year && a.month == b.month && a.day < b.day)
  }

  predicate TimeBefore(a: TimeOfDay, b: TimeOfDay) {
    a.hour < b.hour
    || (a.hour == b.hour && a.minute < b.minute)
    || (a.hour == b.hour && a.minute == b.minute && a.second < b.second)
    || (a.hour == b.hour && a.minute == b.minute && a.second == b.second && a.micro < b.micro)
  }

  /** `a > b` on two datetime values. */
  predicate Later(a: Moment, b: Moment) {
    Before(b.date, a.date) || (a.date == b.date && TimeBefore(b.time, a.time))
  }

  /** Midnight of a date is later than a valid moment exactly when the date is a later day. */
  lemma MidnightLater(d: Date, now: Moment)
    requires ValidTime(now.time)
    ensures Later(Moment(d, Midnight), now) <==> Before(now.date, d)
  {
  }

  lemma DivStep(x: int)
    requires x >= 0
    ensures (x + 1) / 4 == x / 4 + (if (x + 1) % 4 == 0 then 1 else 0)
    ensures (x + 1) / 100 == x / 100 + (if (x + 1) % 100 == 0 then 1 else 0)
    ensures (x + 1) / 400 == x / 400 + (if (x + 1) % 400 == 0 then 1 else 0)
  {
  }

  lemma YearStep(y: int)
    requires y >= 1
    ensures DaysBeforeYear(y + 1) == DaysBeforeYear(y) + DaysInYear(y)
  {
  }

  lemma MonthStep(y: int, m: int)
    requires 1 <= m < 12
    ensures DaysBeforeMonth(y, m + 1) == DaysBeforeMonth(y, m) + DaysInMonth(y, m)
  {
  }

  lemma OrdinalNonNegative(d: Date)
    requires Valid(d)
    ensures Ordinal(d) >= 0
  {
  }

  /** The day after d is counted one more than d. */
  lemma NextDayOrdinal(d: Date)
    requires Valid(d)
    ensures Ordinal(NextDay(d)) == Ordinal(d) + 1
  {
    if d.day < DaysInMonth(d.year, d.month) {
    } else if d.month < 12 {
      MonthStep(d.year, d.month);
    } else {
      YearStep(d.year);
    }
  }

  /** Adding n days moves the weekday n steps round the week. */
  lemma WeekdayAfter(d: Date, n: nat)
    requires Valid(d)
    ensures Weekday(AddDays(d, n)) == (Weekday(d) + n) % 7
  {
    var e := AddDays(d, n);
    var o := Ordinal(d);
    OrdinalNonNegative(d);
    ModShift(o, n);
    assert Weekday(e) == (o + n) % 7;
  }

  lemma ModShift(a: int, n: int)
    requires a >= 0 && n >= 0
    ensures (a + n) % 7 == (a % 7 + n) % 7
  {
    var q := a / 7;
    assert a == 7 * q + a % 7;
  }
}

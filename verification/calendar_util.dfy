/**
 * CalendarUtil: instants are milliseconds since the epoch in GMT (the
 * utility's only time zone), so a day is exactly 86 400 000 ms and midnight
 * is a multiple of it. Civil dates use the proleptic Gregorian calendar with
 * a zero-based month, as java.util.Calendar does, and building a date from
 * fields is lenient: month 12 is January of the next year, day 0 is the last
 * day of the previous month.
 */
module CalendarUtil {

  const DAY: int := 86_400_000

  predicate IsLeap(y: int) {
    y % 4 == 0 && (y % 100 != 0 || y % 400 == 0)
  }

  /** Days in month `m` (0 = January) of year `y`. */
  function MonthLength(y: int, m: int): (r: int)
    requires 0 <= m < 12
    ensures 28 <= r <= 31
  {
    if m == 1 then (if IsLeap(y) then 29 else 28)
    else if m == 3 || m == 5 || m == 8 || m == 10 then 30
    else 31
  }

  /** Days of year `y` before the first of month `m`; `m == 12` gives the year's length. */
  function DaysBeforeMonth(y: int, m: int): int
    requires 0 <= m <= 12
  {
    CommonDaysBefore(m) + (if IsLeap(y) && m >= 2 then 1 else 0)
  }

  /** Days before the first of month `m` in a common year. */
  function CommonDaysBefore(m: int): int
    requires 0 <= m <= 12
  {
    if m < 6 then
      (if m == 0 then 0 else if m == 1 then 31 else if m == 2 then 59
       else if m == 3 then 90 else if m == 4 then 120 else 151)
    else
      (if m == 6 then 181 else if m == 7 then 212 else if m == 8 then 243
       else if m == 9 then 273 else if m == 10 then 304 else if m == 11 then 334 else 365)
  }

  lemma DaysBeforeNextMonth(y: int, m: int)
    requires 0 <= m < 12
    ensures DaysBeforeMonth(y, m + 1) == DaysBeforeMonth(y, m) + MonthLength(y, m)
  {
  }

  function YearLength(y: int): int {
    if IsLeap(y) then 366 else 365
  }

  /** Leap years strictly before year `y`, counted from year 1 (negative before it). */
  function LeapsBefore(y: int): int {
    (y - 1) / 4 - (y - 1) / 100 + (y - 1) / 400
  }

  /** Days from 1970-01-01 to January 1 of year `y`. */
  function YearStart(y: int): int {
    365 * (y - 1970) + LeapsBefore(y) - 477
  }

  lemma DivStep4(y: int)
    ensures y / 4 - (y - 1) / 4 == (if y % 4 == 0 then 1 else 0)
  {
  }

  lemma DivStep100(y: int)
    ensures y / 100 - (y - 1) / 100 == (if y % 100 == 0 then 1 else 0)
  {
  }

  lemma DivStep400(y: int)
    ensures y / 400 - (y - 1) / 400 == (if y % 400 == 0 then 1 else 0)
  {
  }

  /** A multiple of 400 is a multiple of 100, and a multiple of 100 is a multiple of 4. */
  lemma CenturyMultiples(y: int)
    ensures y % 400 == 0 ==> y % 100 == 0
    ensures y % 100 == 0 ==> y % 4 == 0
  {
    if y % 400 == 0 {
      var j := 4 * (y / 400);
      assert y == 100 * j;
    }
    if y % 100 == 0 {
      var j := 25 * (y / 100);
      assert y == 4 * j;
    }
  }

  lemma LeapsStep(y: int)
    ensures LeapsBefore(y + 1) - LeapsBefore(y) == if IsLeap(y) then 1 else 0
  {
    DivStep4(y);
    DivStep100(y);
    DivStep400(y);
    CenturyMultiples(y);
  }

  lemma YearStartStep(y: int)
    ensures YearStart(y + 1) == YearStart(y) + YearLength(y)
  {
    LeapsStep(y);
  }

  lemma {:induction false} YearStartMonotone(a: int, b: int)
    requires a < b
    ensures YearStart(a) + 365 * (b - a) <= YearStart(b)
    decreases b - a
  {
    YearStartStep(a);
    if a + 1 < b {
      YearStartMonotone(a + 1, b);
    }
  }

  /**
   * Days since the epoch of the lenient date (`y`, `m`, `d`): the month is
   * first normalised into the year, then the day is counted from the first.
   */
  function DaysFromCivil(y: int, m: int, d: int): int {
    var yy := y + m / 12;
    var mm := m % 12;
    YearStart(yy) + DaysBeforeMonth(yy, mm) + d - 1
  }

  /** With the month already in range, no normalisation happens. */
  lemma DaysFromCivilInRange(y: int, m: int, d: int)
    requires 0 <= m < 12
    ensures DaysFromCivil(y, m, d) == YearStart(y) + DaysBeforeMonth(y, m) + d - 1
  {
    assert m / 12 == 0 && m % 12 == m;
  }

  datatype Civil = Civil(year: int, month: int, day: int)

  predicate ValidCivil(c: Civil) {
    0 <= c.month < 12 && 1 <= c.day <= MonthLength(c.year, c.month)
  }

  function YearUp(n: int, y: int): (r: int)
    requires YearStart(y) <= n
    ensures YearStart(r) <= n < YearStart(r + 1)
    decreases n - YearStart(y)
  {
    YearStartStep(y);
    if n < YearStart(y + 1) then y else YearUp(n, y + 1)
  }

  function YearDown(n: int, y: int): (r: int)
    requires n < YearStart(y + 1)
    ensures YearStart(r) <= n < YearStart(r + 1)
    decreases YearStart(y) - n
  {
    YearStartStep(y - 1);
    if YearStart(y) <= n then y else YearDown(n, y - 1)
  }

  /** The year holding day number `n`. */
  function YearOf(n: int): (r: int)
    ensures YearStart(r) <= n < YearStart(r + 1)
  {
    if n >= 0 then YearUp(n, 1970) else YearDown(n, 1969)
  }

  /** The month holding day `doy` (zero-based) of year `y`, searching down from `m`. */
  function MonthOf(y: int, doy: int, m: int): (r: int)
    requires 0 <= m < 12
    requires 0 <= doy < DaysBeforeMonth(y, m + 1)
    ensures 0 <= r <= m
    ensures DaysBeforeMonth(y, r) <= doy < DaysBeforeMonth(y, r + 1)
  {
    if DaysBeforeMonth(y, m) <= doy then m else MonthOf(y, doy, m - 1)
  }

  /** The civil date of day number `n` (the fields `get(YEAR)`, `get(MONTH)`, `get(DATE)` read). */
  function CivilFromDays(n: int): (c: Civil)
    ensures ValidCivil(c)
    ensures YearStart(c.year) <= n < YearStart(c.year + 1)
    ensures n == YearStart(c.year) + DaysBeforeMonth(c.year, c.month) + c.day - 1
  {
    var y := YearOf(n);
    YearStartStep(y);
    var doy := n - YearStart(y);
    var m := MonthOf(y, doy, 11);
    DaysBeforeNextMonth(y, m);
    Civil(y, m, doy - DaysBeforeMonth(y, m) + 1)
  }

  /** Reading the fields of a day and rebuilding it gives the same day. */
  lemma CivilRoundTrip(n: int)
    ensures var c := CivilFromDays(n); DaysFromCivil(c.year, c.month, c.day) == n
  {
    var c := CivilFromDays(n);
    DaysFromCivilInRange(c.year, c.month, c.day);
  }

  lemma YearUnique(y1: int, y2: int, n: int)
    requires YearStart(y1) <= n < YearStart(y1 + 1)
    requires YearStart(y2) <= n < YearStart(y2 + 1)
    ensures y1 == y2
  {
    if y1 < y2 {
      YearStartMonotone(y1 + 1, y2 + 1);
      if y1 + 1 < y2 { YearStartMonotone(y1 + 1, y2); }
    } else if y2 < y1 {
      if y2 + 1 < y1 { YearStartMonotone(y2 + 1, y1); }
    }
  }

  lemma MonthUnique(y: int, doy: int, m1: int, m2: int)
    requires 0 <= m1 < 12 && 0 <= m2 < 12
    requires DaysBeforeMonth(y, m1) <= doy < DaysBeforeMonth(y, m1 + 1)
    requires DaysBeforeMonth(y, m2) <= doy < DaysBeforeMonth(y, m2 + 1)
    ensures m1 == m2
  {
  }

  /** A valid date's day number lies in its year, within its month. */
  lemma ValidDayNumber(c: Civil)
    requires ValidCivil(c)
    ensures var n := DaysFromCivil(c.year, c.month, c.day);
            var doy := n - YearStart(c.year);
            YearStart(c.year) <= n < YearStart(c.year + 1) &&
            DaysBeforeMonth(c.year, c.month) <= doy < DaysBeforeMonth(c.year, c.month + 1)
  {
    DaysFromCivilInRange(c.year, c.month, c.day);
    DaysBeforeNextMonth(c.year, c.month);
    assert DaysBeforeMonth(c.year, c.month + 1) <= DaysBeforeMonth(c.year, 12);
    YearStartStep(c.year);
  }

  /** A valid date survives the trip to a day number and back. */
  lemma CivilFromDaysOfValid(c: Civil)
    requires ValidCivil(c)
    ensures CivilFromDays(DaysFromCivil(c.year, c.month, c.day)) == c
  {
    var n := DaysFromCivil(c.year, c.month, c.day);
    CivilUnique(c, CivilFromDays(n), n);
  }

  /** Two valid dates with the same day number are the same date. */
  lemma CivilUnique(c: Civil, r: Civil, n: int)
    requires ValidCivil(c) && ValidCivil(r)
    requires n == DaysFromCivil(c.year, c.month, c.day)
    requires YearStart(r.year) <= n < YearStart(r.year + 1)
    requires n == YearStart(r.year) + DaysBeforeMonth(r.year, r.month) + r.day - 1
    ensures r == c
  {
    ValidDayNumber(c);
    DaysFromCivilInRange(c.year, c.month, c.day);
    YearUnique(r.year, c.year, n);
    DaysBeforeNextMonth(c.year, r.month);
    MonthUnique(c.year, n - YearStart(c.year), r.month, c.month);
  }

  function DayNumber(t: int): int {
    t / DAY
  }

  function TimeOfDay(t: int): int {
    t % DAY
  }

  lemma MidnightDayNumber(k: int)
    ensures (k * DAY) / DAY == k && (k * DAY) % DAY == 0
  {
  }

  /** `getCalendar(year, month, day)`: midnight of the lenient date, month zero-based. */
  function GetCalendar(year: int, month: int, day: int): (r: int)
    ensures r % DAY == 0
    ensures DayNumber(r) == DaysFromCivil(year, month, day)
  {
    MidnightDayNumber(DaysFromCivil(year, month, day));
    DaysFromCivil(year, month, day) * DAY
  }

  /** `getDateResolution`: rebuild the instant from its year, month and day fields. */
  function DateResolution(t: int): (r: int)
    ensures r % DAY == 0
    ensures r <= t < r + DAY
  {
    var c := CivilFromDays(DayNumber(t));
    CivilRoundTrip(DayNumber(t));
    GetCalendar(c.year, c.month, c.day)
  }

  /** Midnight is a fixed point: resolving twice is resolving once. */
  lemma DateResolutionIdempotent(t: int)
    ensures DateResolution(DateResolution(t)) == DateResolution(t)
  {
    var m := DateResolution(t);
    DateResolutionOfDay(m, m);
  }

  /** Every instant of a day resolves to that day's midnight. */
  lemma DateResolutionOfDay(t: int, midnight: int)
    requires midnight % DAY == 0
    requires midnight <= t < midnight + DAY
    ensures DateResolution(t) == midnight
  {
    var m := DateResolution(t);
    assert m / DAY == t / DAY;
    assert midnight / DAY == t / DAY;
  }

  /** `getMonthResolution`: midnight of the first of the instant's month. */
  function MonthResolution(t: int): (r: int)
    ensures r % DAY == 0
    ensures var c := CivilFromDays(DayNumber(t));
            CivilFromDays(DayNumber(r)) == Civil(c.year, c.month, 1)
  {
    var c := CivilFromDays(DayNumber(t));
    CivilFromDaysOfValid(Civil(c.year, c.month, 1));
    GetCalendar(c.year, c.month, 1)
  }

  /** `getYearResolution`: midnight of January 1 of the instant's year. */
  function YearResolution(t: int): (r: int)
    ensures r % DAY == 0
    ensures CivilFromDays(DayNumber(r)) == Civil(CivilFromDays(DayNumber(t)).year, 0, 1)
  {
    var c := CivilFromDays(DayNumber(t));
    CivilFromDaysOfValid(Civil(c.year, 0, 1));
    GetCalendar(c.year, 0, 1)
  }

  /** The midnights from `m` (inclusive), one day apart, that lie before `e`. */
  function DaysFrom(m: int, e: int): (r: seq<int>)
    ensures forall i :: 0 <= i < |r| ==> r[i] == m + i * DAY && r[i] < e
    ensures |r| == 0 <==> e <= m
    ensures |r| > 0 ==> e <= r[|r| - 1] + DAY
    decreases e - m
  {
    if m < e then [m] + DaysFrom(m + DAY, e) else []
  }

  lemma DaysFromMember(m: int, e: int, x: int)
    requires m % DAY == 0
    ensures x in DaysFrom(m, e) <==> x % DAY == 0 && m <= x < e
  {
    var r := DaysFrom(m, e);
    if x in r {
      var i :| 0 <= i < |r| && r[i] == x;
      assert x == m + i * DAY;
    }
    if x % DAY == 0 && m <= x < e {
      var i := (x - m) / DAY;
      assert x == m + i * DAY;
      if |r| > 0 {
        assert r[|r| - 1] + DAY == m + |r| * DAY;
      }
      assert i < |r|;
      assert r[i] == x;
    }
  }

  /**
   * `getDaysInRange`: midnight of the start's day, then every following
   * midnight strictly before the end.
   */
  function DaysInRange(s: int, e: int): (r: seq<int>)
    ensures |r| > 0 ==> r[0] == DateResolution(s)
    ensures forall i :: 0 <= i < |r| ==> r[i] % DAY == 0 && r[i] < e
    ensures forall i :: 0 < i < |r| ==> r[i] == r[i - 1] + DAY
    ensures |r| == 0 <==> e <= DateResolution(s)
    ensures forall x :: x in r <==> x % DAY == 0 && DateResolution(s) <= x < e
  {
    var m := DateResolution(s);
    var r := DaysFrom(m, e);
    forall x
      ensures x in r <==> x % DAY == 0 && m <= x < e
    {
      DaysFromMember(m, e, x);
    }
    forall i | 0 <= i < |r|
      ensures r[i] % DAY == 0
    {
      DaysFromMember(m, e, r[i]);
    }
    r
  }

  /** Every instant of the range has its day in the list (the 15:23 to 04:14 example gives both days). */
  lemma DaysInRangeCovers(s: int, e: int, t: int)
    requires s <= t < e
    ensures DateResolution(t) in DaysInRange(s, e)
  {
    var ms := DateResolution(s);
    var mt := DateResolution(t);
    assert mt / DAY >= ms / DAY;
  }

  /** A listed day overlaps the range: it starts before the end and ends after the start. */
  lemma DaysInRangeOverlap(s: int, e: int, x: int)
    requires x in DaysInRange(s, e)
    ensures x < e && s < x + DAY
  {
  }

  /** `getCalendar` of a valid date is midnight of that date and reads back as it. */
  lemma GetCalendarOfValid(c: Civil)
    requires ValidCivil(c)
    ensures GetCalendar(c.year, c.month, c.day) == DaysFromCivil(c.year, c.month, c.day) * DAY
    ensures CivilFromDays(DayNumber(GetCalendar(c.year, c.month, c.day))) == c
  {
    CivilFromDaysOfValid(c);
  }

  /** The range from a midnight to the next midnight lists just that day. */
  lemma DaysInRangeOneDay(m: int)
    requires m % DAY == 0
    ensures DaysInRange(m, AddDays(m, 1)) == [m]
  {
    DateResolutionOfDay(m, m);
    assert m in DaysInRange(m, AddDays(m, 1));
  }

  /** Two overlapping non-empty ranges list a common day. */
  lemma OverlapDay(a: int, b: int, start: int, end: int) returns (d: int)
    requires a < b && start < end && a < end && start < b
    ensures d in DaysInRange(a, b) && d in DaysInRange(start, end)
  {
    var t := if a < start then start else a;
    d := DateResolution(t);
    DaysInRangeCovers(start, end, t);
    DaysInRangeCovers(a, b, t);
  }

  /** `add(Calendar.DATE, k)` in GMT. */
  function AddDays(t: int, k: int): int {
    t + k * DAY
  }

  /**
   * The day number of the same date one month on: the next month of the same
   * year (or January of the next), the day of month clamped to that month's
   * length.
   */
  function NextMonthDayNumber(c: Civil): int
    requires ValidCivil(c)
  {
    var y2 := if c.month == 11 then c.year + 1 else c.year;
    var m2 := if c.month == 11 then 0 else c.month + 1;
    var len2 := MonthLength(y2, m2);
    var d2 := if c.day <= len2 then c.day else len2;
    DaysFromCivil(y2, m2, d2)
  }

  /** `add(Calendar.MONTH, 1)`: the same date one month on, the time of day kept. */
  function AddMonth(t: int): int {
    NextMonthDayNumber(CivilFromDays(DayNumber(t))) * DAY + TimeOfDay(t)
  }

  /** December to January: the two dates are 31 days apart. */
  lemma DecemberToJanuary(c: Civil)
    requires ValidCivil(c) && c.month == 11
    ensures DaysFromCivil(c.year + 1, 0, c.day) - DaysFromCivil(c.year, 11, c.day) == 31
  {
    YearStartStep(c.year);
    assert DaysBeforeMonth(c.year + 1, 0) == 0;
    DaysBeforeNextMonth(c.year, 11);
    assert DaysBeforeMonth(c.year, 12) == YearLength(c.year);
  }

  /** Within a year: the next month's date, clamped to its length, is 28 to 31 days on. */
  lemma WithinYear(c: Civil, d2: int)
    requires ValidCivil(c) && c.month < 11
    requires d2 == if c.day <= MonthLength(c.year, c.month + 1) then c.day else MonthLength(c.year, c.month + 1)
    ensures 28 <= DaysFromCivil(c.year, c.month + 1, d2) - DaysFromCivil(c.year, c.month, c.day) <= 31
  {
    DaysBeforeNextMonth(c.year, c.month);
    assert (c.month + 1) / 12 == 0 && (c.month + 1) % 12 == c.month + 1;
    assert c.month / 12 == 0 && c.month % 12 == c.month;
  }

  /** The day numbers of a date and of the same date one month on differ by 28 to 31. */
  lemma NextMonthDays(c: Civil)
    requires ValidCivil(c)
    ensures 28 <= NextMonthDayNumber(c) - DaysFromCivil(c.year, c.month, c.day) <= 31
  {
    if c.month == 11 {
      DecemberToJanuary(c);
    } else {
      var len2 := MonthLength(c.year, c.month + 1);
      WithinYear(c, if c.day <= len2 then c.day else len2);
    }
  }

  /** Day `n` and the same date one month on are 28 to 31 days apart. */
  lemma MonthStep(n: int)
    ensures 28 <= NextMonthDayNumber(CivilFromDays(n)) - n <= 31
  {
    CivilRoundTrip(n);
    NextMonthDays(CivilFromDays(n));
  }

  /** Moving 28 to 31 whole days on moves the instant 28 to 31 days of milliseconds on. */
  lemma ShiftBounds(n: int, n2: int, r: int)
    requires 28 <= n2 - n <= 31
    ensures n * DAY + r + 28 * DAY <= n2 * DAY + r <= n * DAY + r + 31 * DAY
  {
  }

  /** One month later is between 28 and 31 days later. */
  lemma AddMonthBounds(t: int)
    ensures t + 28 * DAY <= AddMonth(t) <= t + 31 * DAY
  {
    var n := DayNumber(t);
    MonthStep(n);
    ShiftBounds(n, NextMonthDayNumber(CivilFromDays(n)), TimeOfDay(t));
  }
}

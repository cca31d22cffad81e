/** The Gregorian calendar from 1970 on, as day numbers, and fixed-offset local time over it. */
module Calendar {
  import opened Cron

  predicate IsLeap(y: int) {
    y % 4 == 0 && (y % 100 != 0 || y % 400 == 0)
  }

  function YearLength(y: int): nat {
    if IsLeap(y) then 366 else 365
  }

  function MonthLength(leap: bool, m: int): nat {
    if m == 2 then (if leap then 29 else 28)
    else if m == 4 || m == 6 || m == 9 || m == 11 then 30
    else 31
  }

  function DaysBeforeMonth(leap: bool, m: int): nat
    requires 1 <= m <= 13
  {
    if m == 1 then 0 else DaysBeforeMonth(leap, m - 1) + MonthLength(leap, m - 1)
  }

  function DaysBeforeYear(y: int): nat
    requires 1970 <= y
  {
    if y == 1970 then 0 else DaysBeforeYear(y - 1) + YearLength(y - 1)
  }

  datatype Date = Date(year: int, month: int, day: int)

  predicate IsDate(d: Date) {
    1970 <= d.year && 1 <= d.month <= 12 && 1 <= d.day <= MonthLength(IsLeap(d.year), d.month)
  }

  /** Days from 1970-01-01 to `d`. */
  function DayNumber(d: Date): nat
    requires IsDate(d)
  {
    DaysBeforeYear(d.year) + DaysBeforeMonth(IsLeap(d.year), d.month) + d.day - 1
  }

  /** 1970-01-01 was a Thursday. */
  function Weekday(day: nat): nat { (day + 4) % 7 }

  /** Two fixed points: 1 January 1970 is day 0, a Thursday; 1 January 2000 is day 10957, a Saturday. */
  lemma KnownDates()
    ensures DayNumber(Date(1970, 1, 1)) == 0 && Weekday(0) == 4
    ensures DaysBeforeYear(2000) == 10957 && DayNumber(Date(2000, 1, 1)) == 10957 && Weekday(10957) == 6
  {
    LeapYearStart(7);
  }

  lemma YearIsItsMonths(leap: bool)
    ensures DaysBeforeMonth(leap, 13) == if leap then 366 else 365
  {
    assert DaysBeforeMonth(leap, 2) == 31;
    assert DaysBeforeMonth(leap, 3) == 31 + MonthLength(leap, 2);
    assert DaysBeforeMonth(leap, 5) == DaysBeforeMonth(leap, 3) + 61;
    assert DaysBeforeMonth(leap, 7) == DaysBeforeMonth(leap, 5) + 61;
    assert DaysBeforeMonth(leap, 9) == DaysBeforeMonth(leap, 7) + 62;
    assert DaysBeforeMonth(leap, 11) == DaysBeforeMonth(leap, 9) + 61;
    assert DaysBeforeMonth(leap, 13) == DaysBeforeMonth(leap, 11) + 61;
  }

  lemma {:induction false} MonthsInOrder(leap: bool, m: int, n: int)
    requires 1 <= m < n <= 13
    ensures DaysBeforeMonth(leap, m) + MonthLength(leap, m) <= DaysBeforeMonth(leap, n)
    decreases n
  {
    if m < n - 1 {
      MonthsInOrder(leap, m, n - 1);
    }
  }

  lemma {:induction false} YearsInOrder(y: int, z: int)
    requires 1970 <= y < z
    ensures DaysBeforeYear(y) + YearLength(y) <= DaysBeforeYear(z)
    decreases z
  {
    if y < z - 1 {
      YearsInOrder(y, z - 1);
    }
  }

  lemma DateWithinYear(d: Date)
    requires IsDate(d)
    ensures DaysBeforeYear(d.year) <= DayNumber(d) < DaysBeforeYear(d.year) + YearLength(d.year)
  {
    YearIsItsMonths(IsLeap(d.year));
    MonthsInOrder(IsLeap(d.year), d.month, 13);
  }

  lemma DayNumberInjective(d: Date, e: Date)
    requires IsDate(d) && IsDate(e) && DayNumber(d) == DayNumber(e)
    ensures d == e
  {
    DateWithinYear(d);
    DateWithinYear(e);
    if d.year < e.year { YearsInOrder(d.year, e.year); }
    if e.year < d.year { YearsInOrder(e.year, d.year); }
    if d.month < e.month { MonthsInOrder(IsLeap(d.year), d.month, e.month); }
    if e.month < d.month { MonthsInOrder(IsLeap(d.year), e.month, d.month); }
  }

  function NextDate(d: Date): Date
    requires IsDate(d)
  {
    if d.day < MonthLength(IsLeap(d.year), d.month) then d.(day := d.day + 1)
    else if d.month < 12 then Date(d.year, d.month + 1, 1)
    else Date(d.year + 1, 1, 1)
  }

  lemma NextDateIsNextDay(d: Date)
    requires IsDate(d)
    ensures IsDate(NextDate(d)) && DayNumber(NextDate(d)) == DayNumber(d) + 1
  {
    YearIsItsMonths(IsLeap(d.year));
  }

  lemma {:induction false} DateExists(day: nat)
    ensures exists d :: IsDate(d) && DayNumber(d) == day
  {
    if day == 0 {
      assert IsDate(Date(1970, 1, 1)) && DayNumber(Date(1970, 1, 1)) == 0;
    } else {
      DateExists(day - 1);
      var d :| IsDate(d) && DayNumber(d) == day - 1;
      NextDateIsNextDay(d);
      assert DayNumber(NextDate(d)) == day;
    }
  }

  /** The calendar date of a day number: the inverse of `DayNumber`. */
  ghost function CivilDate(day: nat): (d: Date)
    ensures IsDate(d) && DayNumber(d) == day
  {
    DateExists(day);
    var d :| IsDate(d) && DayNumber(d) == day;
    d
  }

  const DAY := 86400

  /** Broken-down time of `local` seconds of local time since 1970. */
  ghost function CivilTm(local: nat): Tm {
    var date := CivilDate(local / DAY);
    var rest := local % DAY;
    Tm(rest % 3600 / 60, rest / 3600, date.day, date.month - 1, Weekday(local / DAY))
  }

  lemma CivilTmProper(local: nat)
    ensures ProperTm(CivilTm(local))
  {
    var rest := local % DAY;
    assert 0 <= rest < DAY;
    assert 0 <= rest / 3600 < 24 && 0 <= rest % 3600 < 3600;
  }

  /** `lt` is the Gregorian calendar at a fixed whole-minute distance from UTC. */
  ghost predicate FixedOffset(lt: LocalTime, offset: int) {
    offset % 60 == 0 && forall t {:trigger lt(t)} :: 0 <= t + offset ==> lt(t) == CivilTm(t + offset)
  }

  /** A clock of that kind for a given offset (it stands still before 1970). */
  ghost function FixedOffsetClock(offset: int): LocalTime {
    t => if 0 <= t + offset then CivilTm(t + offset) else Tm(0, 0, 1, 0, 0)
  }

  lemma FixedOffsetClockWorks(offset: int)
    requires offset % 60 == 0
    ensures FixedOffset(FixedOffsetClock(offset), offset) && ProperClock(FixedOffsetClock(offset))
  {
    forall t ensures ProperTm(FixedOffsetClock(offset)(t)) {
      if 0 <= t + offset { CivilTmProper(t + offset); }
    }
  }

  // ----- 1970 to 2099: one leap year in four -----

  const DAYS_TO_2100 := 47482

  lemma LeapInWindow(y: int)
    requires 1970 <= y < 2100
    ensures IsLeap(y) <==> y % 4 == 0
  {
  }

  lemma {:induction false} LeapYearStart(q: nat)
    requires q <= 32
    ensures DaysBeforeYear(1972 + 4 * q) == 730 + 1461 * q
  {
    if q == 0 {
      assert DaysBeforeYear(1971) == 365;
    } else {
      var y := 1972 + 4 * (q - 1);
      LeapYearStart(q - 1);
      LeapInWindow(y);
      LeapInWindow(y + 1);
      LeapInWindow(y + 2);
      LeapInWindow(y + 3);
      assert DaysBeforeYear(y + 2) == DaysBeforeYear(y) + 731;
      assert DaysBeforeYear(y + 4) == DaysBeforeYear(y + 2) + 730;
    }
  }

  lemma {:induction false} LeapOccurrence(m: int, d: int, from: nat, q: nat) returns (date: Date)
    requires 1 <= m <= 12 && 1 <= d <= MonthLength(true, m) && q <= 31
    requires from <= 730 + 1461 * q + DaysBeforeMonth(true, m) + d - 1
    ensures IsDate(date) && date.month == m && date.day == d
    ensures from <= DayNumber(date) < from + 1461
    decreases q
  {
    var first := 730 + 1461 * q + DaysBeforeMonth(true, m) + d - 1;
    if first < from + 1461 {
      date := Date(1972 + 4 * q, m, d);
      LeapInWindow(1972 + 4 * q);
      LeapYearStart(q);
    } else {
      YearIsItsMonths(true);
      MonthsInOrder(true, m, 13);
      date := LeapOccurrence(m, d, from, q - 1);
    }
  }

  /** Between 1970 and 2099 every day of every month, 29 February included, comes round within
      any 1461 days. */
  lemma MonthDayComesRound(m: int, d: int, from: nat) returns (date: Date)
    requires 1 <= m <= 12 && 1 <= d <= MonthLength(true, m)
    requires from + 1461 <= DAYS_TO_2100
    ensures IsDate(date) && date.month == m && date.day == d
    ensures from <= DayNumber(date) < from + 1461
  {
    date := LeapOccurrence(m, d, from, 31);
  }

  /** Every weekday of every month comes round within any 732 days. */
  lemma MonthWeekdayComesRound(m: int, w: int, from: nat) returns (date: Date)
    requires 1 <= m <= 12 && 0 <= w < 7
    ensures IsDate(date) && date.month == m && Weekday(DayNumber(date)) == w
    ensures from <= DayNumber(date) < from + 732
  {
    var y := CivilDate(from).year + 1;
    DateWithinYear(CivilDate(from));
    var first := DayNumber(Date(y, m, 1));
    date := Date(y, m, 1 + (w - Weekday(first)) % 7);
    DateWithinYear(date);
  }

  /** Every day of a month but 29 February comes round within any 732 days, in any century. */
  lemma OrdinaryDayComesRound(m: int, d: int, from: nat) returns (date: Date)
    requires 1 <= m <= 12 && 1 <= d <= MonthLength(false, m)
    ensures IsDate(date) && date.month == m && date.day == d
    ensures from <= DayNumber(date) < from + 732
  {
    var y := CivilDate(from).year + 1;
    DateWithinYear(CivilDate(from));
    date := Date(y, m, d);
    DateWithinYear(date);
  }
}

/** Exactly when the four-year search horizon is long enough on the Gregorian calendar. */
module Horizon {
  import opened Basics
  import opened Cron
  import opened CronParser
  import opened Calendar

  /** Some minute of this calendar date is due: month and day rule, as for a day's times. */
  ghost predicate DateMatches(s: CronSchedule, date: Date)
    requires IsDate(date)
  {
    var domOk := date.day in s.doms;
    var dowOk := Weekday(DayNumber(date)) in s.dows;
    && date.month in s.months
    && (if s.domWildcard && s.dowWildcard then true
        else if s.domWildcard then dowOk
        else if s.dowWildcard then domOk
        else domOk || dowOk)
  }

  ghost predicate SomeDateMatches(s: CronSchedule) {
    exists date :: IsDate(date) && DateMatches(s, date)
  }

  /** What can be read off the fields: a weekday restriction can always be met, a bare day of
      month only where one of the months is long enough in a leap year. */
  ghost predicate Satisfiable(s: CronSchedule) {
    s.domWildcard || !s.dowWildcard || exists m, d :: m in s.months && d in s.doms && d <= MonthLength(true, m)
  }

  lemma SearchedDay(s: CronSchedule, lt: LocalTime, offset: int, t: int)
    requires FixedOffset(lt, offset) && 0 <= t + offset && Matches(s, lt(t))
    ensures DateMatches(s, CivilDate((t + offset) / DAY))
  {
  }

  function LocalMinute(day: nat, hh: nat, mm: nat): nat { day * DAY + hh * 3600 + mm * 60 }

  lemma LocalMinuteInDay(day: nat, hh: nat, mm: nat)
    requires hh < 24 && mm < 60
    ensures day * DAY <= LocalMinute(day, hh, mm) < (day + 1) * DAY
    ensures LocalMinute(day, hh, mm) % 60 == 0
  {
  }

  lemma DayParts(date: Date, hh: nat, mm: nat)
    requires IsDate(date) && hh < 24 && mm < 60
    ensures CivilTm(LocalMinute(DayNumber(date), hh, mm)) ==
            Tm(mm, hh, date.day, date.month - 1, Weekday(DayNumber(date)))
  {
    var day, rest := DayNumber(date), hh * 3600 + mm * 60;
    assert (day * DAY + rest) / DAY == day && (day * DAY + rest) % DAY == rest;
    DayNumberInjective(CivilDate(day), date);
  }

  lemma OffsetKeepsMinutes(local: int, offset: int)
    requires local % 60 == 0 && offset % 60 == 0
    ensures (local - offset) % 60 == 0 && local - offset + offset == local
  {
  }

  lemma DateMinuteMatches(s: CronSchedule, date: Date, hh: nat, mm: nat)
    requires IsDate(date) && DateMatches(s, date) && hh in s.hours && mm in s.minutes && hh < 24 && mm < 60
    ensures Matches(s, CivilTm(LocalMinute(DayNumber(date), hh, mm)))
  {
    DayParts(date, hh, mm);
  }

  /** The due minute of a matching date, as a Unix time. */
  lemma MinuteOfDate(s: CronSchedule, lt: LocalTime, offset: int, date: Date) returns (t: int)
    requires WellFormed(s) && FixedOffset(lt, offset) && IsDate(date) && DateMatches(s, date)
    ensures Hit(s, lt, t) && DayNumber(date) * DAY <= t + offset < (DayNumber(date) + 1) * DAY
  {
    var hh :| hh in s.hours;
    var mm :| mm in s.minutes;
    assert hh in Range(0, 23) && mm in Range(0, 59);
    var local := LocalMinute(DayNumber(date), hh, mm);
    t := local - offset;
    LocalMinuteInDay(DayNumber(date), hh, mm);
    DateMinuteMatches(s, date, hh, mm);
    OffsetKeepsMinutes(local, offset);
    assert lt(t) == CivilTm(local);
  }

  /** The only day the fields allow is 29 February. */
  ghost predicate OnlyLeapDay(s: CronSchedule) {
    && !s.domWildcard && s.dowWildcard
    && forall m, d :: m in s.months && d in s.doms && d <= MonthLength(true, m) ==> m == 2 && d == 29
  }

  /** A due minute of some 29 February lies in the search window. */
  ghost predicate LeapMinuteInWindow(s: CronSchedule, local: int) {
    exists y, hh, mm :: LeapMinute(s, y, hh, mm) && local <= MinuteOfLeapDay(y, hh, mm) < local + 60 * MAX_MINUTES
  }

  ghost predicate LeapMinute(s: CronSchedule, y: int, hh: int, mm: int) {
    IsDate(Date(y, 2, 29)) && hh in s.hours && mm in s.minutes && Between(hh, 0, 23) && Between(mm, 0, 59)
  }

  ghost function MinuteOfLeapDay(y: int, hh: int, mm: int): nat
    requires IsDate(Date(y, 2, 29)) && Between(hh, 0, 23) && Between(mm, 0, 59)
  {
    LocalMinute(DayNumber(Date(y, 2, 29)), hh, mm)
  }

  /** A schedule with another day matches a date within any 732 days. */
  lemma MatchingDateComesRound(s: CronSchedule, from: nat) returns (date: Date)
    requires WellFormed(s) && Satisfiable(s) && !OnlyLeapDay(s)
    ensures IsDate(date) && DateMatches(s, date) && from <= DayNumber(date) < from + 732
  {
    if s.domWildcard && s.dowWildcard {
      var m :| m in s.months;
      assert Between(m, 1, 12);
      date := OrdinaryDayComesRound(m, 1, from);
    } else if s.dowWildcard {
      var m, d :| m in s.months && d in s.doms && d <= MonthLength(true, m) && !(m == 2 && d == 29);
      assert Between(m, 1, 12) && Between(d, 1, 31);
      date := OrdinaryDayComesRound(m, d, from);
    } else {
      var m, w :| m in s.months && w in s.dows && 0 <= w < 7;
      assert Between(m, 1, 12);
      date := MonthWeekdayComesRound(m, w, from);
    }
  }

  /** The start of the first whole local day of a window. */
  function WholeDayFrom(local: nat): nat { (local + DAY - 1) / DAY }

  lemma WholeDayStart(local: nat, day: nat, n: nat)
    requires WholeDayFrom(local) <= day < WholeDayFrom(local) + n
    ensures local <= day * DAY && (day + 1) * DAY <= local + DAY - 1 + n * DAY
  {
  }

  /** A date well inside the window gives a run. */
  lemma DateGivesRun(s: CronSchedule, lt: LocalTime, offset: int, after: int, date: Date)
    requires WellFormed(s) && FixedOffset(lt, offset) && 0 <= ForwardStart(after) + offset
    requires IsDate(date) && DateMatches(s, date)
    requires var from := WholeDayFrom(ForwardStart(after) + offset); from <= DayNumber(date) < from + 1461
    ensures NextAfter(s, lt, after).Some?
  {
    var local := ForwardStart(after) + offset;
    var t := MinuteOfDate(s, lt, offset, date);
    WholeDayStart(local, DayNumber(date), 1461);
    assert ForwardStart(after) <= t < ForwardStart(after) + 60 * MAX_MINUTES;
  }

  lemma OnlyLeapDates(s: CronSchedule, date: Date)
    requires OnlyLeapDay(s) && IsDate(date) && DateMatches(s, date)
    ensures date == Date(date.year, 2, 29)
  {
    assert date.day <= MonthLength(true, date.month);
  }

  lemma MatchedParts(s: CronSchedule, lt: LocalTime, offset: int, t: int)
    requires FixedOffset(lt, offset) && 0 <= t + offset && Matches(s, lt(t))
    ensures (t + offset) % DAY / 3600 in s.hours && (t + offset) % DAY % 3600 / 60 in s.minutes
  {
    assert lt(t) == CivilTm(t + offset);
  }

  /** Where only 29 February is allowed, the due minutes are its due minutes. */
  lemma LeapHit(s: CronSchedule, lt: LocalTime, offset: int, t: int)
    requires OnlyLeapDay(s) && FixedOffset(lt, offset) && 0 <= t + offset && t % 60 == 0 && Matches(s, lt(t))
    ensures exists y, hh, mm :: LeapMinute(s, y, hh, mm) && MinuteOfLeapDay(y, hh, mm) == t + offset
  {
    var local := t + offset;
    var date := CivilDate(local / DAY);
    SearchedDay(s, lt, offset, t);
    OnlyLeapDates(s, date);
    MatchedParts(s, lt, offset, t);
    assert local % 60 == 0 by { OffsetAddsMinutes(t, offset); }
    MinuteFromParts(local);
    assert LeapMinute(s, date.year, local % DAY / 3600, local % DAY % 3600 / 60);
  }

  lemma OffsetAddsMinutes(t: int, offset: int)
    requires t % 60 == 0 && offset % 60 == 0
    ensures (t + offset) % 60 == 0
  {
  }

  lemma MinuteFromParts(local: nat)
    requires local % 60 == 0
    ensures var hh, mm := local % DAY / 3600, local % DAY % 3600 / 60;
            Between(hh, 0, 23) && Between(mm, 0, 59) && LocalMinute(local / DAY, hh, mm) == local
  {
    var day, rest := local / DAY, local % DAY;
    assert local == day * DAY + rest;
    assert rest % 60 == 0 by { RestOfDay(local, day, rest); }
    HoursAndMinutes(rest);
  }

  lemma RestOfDay(local: int, day: int, rest: int)
    requires local == day * DAY + rest && local % 60 == 0
    ensures rest % 60 == 0
  {
    assert rest == 60 * (local / 60 - 1440 * day);
  }

  lemma HoursAndMinutes(rest: nat)
    requires rest < DAY && rest % 60 == 0
    ensures 0 <= rest / 3600 < 24 && 0 <= rest % 3600 / 60 < 60
    ensures rest == rest / 3600 * 3600 + rest % 3600 / 60 * 60
  {
    var hh, minutes := rest / 3600, rest % 3600;
    assert rest == hh * 3600 + minutes;
    assert minutes == 60 * (rest / 60 - 60 * hh);
  }

  lemma LeapMinuteMatches(s: CronSchedule, lt: LocalTime, offset: int, y: int, hh: int, mm: int)
    requires WellFormed(s) && FixedOffset(lt, offset) && Satisfiable(s) && OnlyLeapDay(s) && LeapMinute(s, y, hh, mm)
    ensures Hit(s, lt, MinuteOfLeapDay(y, hh, mm) - offset)
  {
    var date, local := Date(y, 2, 29), MinuteOfLeapDay(y, hh, mm);
    LeapDateMatches(s, date);
    DateMinuteMatches(s, date, hh, mm);
    LocalMinuteInDay(DayNumber(date), hh, mm);
    OffsetKeepsMinutes(local, offset);
    assert lt(local - offset) == CivilTm(local);
  }

  lemma LeapDateMatches(s: CronSchedule, date: Date)
    requires Satisfiable(s) && OnlyLeapDay(s) && IsDate(date) && date.month == 2 && date.day == 29
    ensures DateMatches(s, date)
  {
    var m, d :| m in s.months && d in s.doms && d <= MonthLength(true, m);
  }

  lemma LeapRunIff(s: CronSchedule, lt: LocalTime, offset: int, after: int)
    requires WellFormed(s) && FixedOffset(lt, offset) && 0 <= ForwardStart(after) + offset
    requires Satisfiable(s) && OnlyLeapDay(s)
    ensures NextAfter(s, lt, after).Some? <==> LeapMinuteInWindow(s, ForwardStart(after) + offset)
  {
    var local := ForwardStart(after) + offset;
    if NextAfter(s, lt, after).Some? {
      LeapHit(s, lt, offset, NextAfter(s, lt, after).value);
    }
    if LeapMinuteInWindow(s, local) {
      var y, hh, mm :| LeapMinute(s, y, hh, mm) && local <= MinuteOfLeapDay(y, hh, mm) < local + 60 * MAX_MINUTES;
      LeapMinuteMatches(s, lt, offset, y, hh, mm);
    }
  }

  /** The horizon, exactly: from every start since 1970, however late, the search finds a run of a
      well-formed schedule if and only if some real date matches and, where 29 February is the only
      day the fields allow, a due minute of a 29 February lies in the window. */
  lemma HorizonExact(s: CronSchedule, lt: LocalTime, offset: int, after: int)
    requires WellFormed(s) && FixedOffset(lt, offset) && 0 <= ForwardStart(after) + offset
    ensures NextAfter(s, lt, after).Some? <==>
            Satisfiable(s) && (OnlyLeapDay(s) ==> LeapMinuteInWindow(s, ForwardStart(after) + offset))
  {
    SomeDateMatchesIff(s);
    if !Satisfiable(s) {
      NoDateNoRun(s, lt, offset, after);
    } else if OnlyLeapDay(s) {
      LeapRunIff(s, lt, offset, after);
    } else {
      var date := MatchingDateComesRound(s, WholeDayFrom(ForwardStart(after) + offset));
      DateGivesRun(s, lt, offset, after, date);
    }
  }

  /** The same for every parsed expression. */
  lemma ParsedHorizonExact(expr: string, lt: LocalTime, offset: int, after: int)
    requires ExpressionValue(expr).Some? && FixedOffset(lt, offset) && 0 <= ForwardStart(after) + offset
    ensures var s := ExpressionValue(expr).value;
            NextAfter(s, lt, after).Some? <==>
            Satisfiable(s) && (OnlyLeapDay(s) ==> LeapMinuteInWindow(s, ForwardStart(after) + offset))
  {
    ParsedIsWellFormed(expr);
    HorizonExact(ExpressionValue(expr).value, lt, offset, after);
  }

  /** The search from `after` looks only at local time between 1970 and the end of 2099. */
  ghost predicate WindowBefore2100(after: int, offset: int) {
    0 <= ForwardStart(after) + offset && ForwardStart(after) + offset + 60 * MAX_MINUTES <= DAYS_TO_2100 * DAY
  }

  lemma LeapDayBefore2100(s: CronSchedule, local: nat)
    requires WellFormed(s) && local + 60 * MAX_MINUTES <= DAYS_TO_2100 * DAY
    ensures LeapMinuteInWindow(s, local)
  {
    var from := WholeDayFrom(local);
    var date := MonthDayComesRound(2, 29, from);
    var hh :| hh in s.hours;
    var mm :| mm in s.minutes;
    assert Between(hh, 0, 23) && Between(mm, 0, 59);
    assert LeapMinute(s, date.year, hh, mm);
    WholeDayStart(local, DayNumber(date), 1461);
    LocalMinuteInDay(DayNumber(date), hh, mm);
    assert local <= MinuteOfLeapDay(date.year, hh, mm) < local + 60 * MAX_MINUTES;
  }

  /** Inside 1970 to 2099 the horizon always suffices: a run is found exactly when the expression
      matches some real calendar date, 29 February included. */
  lemma HorizonSuffices(expr: string, lt: LocalTime, offset: int, after: int)
    requires ExpressionValue(expr).Some? && FixedOffset(lt, offset) && WindowBefore2100(after, offset)
    ensures NextAfter(ExpressionValue(expr).value, lt, after).Some? <==> SomeDateMatches(ExpressionValue(expr).value)
  {
    var s := ExpressionValue(expr).value;
    ParsedIsWellFormed(expr);
    SomeDateMatchesIff(s);
    LeapDayBefore2100(s, ForwardStart(after) + offset);
    HorizonExact(s, lt, offset, after);
  }

  /** A schedule that matches no real date never gets a run, however late the start. */
  lemma NoDateNoRun(s: CronSchedule, lt: LocalTime, offset: int, after: int)
    requires FixedOffset(lt, offset) && 0 <= ForwardStart(after) + offset
    requires !SomeDateMatches(s)
    ensures NextAfter(s, lt, after) == None
  {
  }

  /** Whether some real date matches can be decided from the fields. */
  lemma SomeDateMatchesIff(s: CronSchedule)
    requires WellFormed(s)
    ensures SomeDateMatches(s) <==> Satisfiable(s)
  {
    if SomeDateMatches(s) && !s.domWildcard && s.dowWildcard {
      var d :| IsDate(d) && DateMatches(s, d);
      assert d.month in s.months && d.day in s.doms && d.day <= MonthLength(true, d.month);
    }
    if Satisfiable(s) {
      if s.domWildcard && s.dowWildcard {
        var m :| m in s.months;
        assert Between(m, 1, 12);
        assert DateMatches(s, Date(1972, m, 1));
      } else if s.dowWildcard {
        var m, d :| m in s.months && d in s.doms && d <= MonthLength(true, m);
        assert Between(m, 1, 12) && Between(d, 1, 31);
        assert DateMatches(s, Date(1972, m, d));
      } else {
        var m, w :| m in s.months && w in s.dows && 0 <= w < 7;
        assert Between(m, 1, 12);
        var date := MonthWeekdayComesRound(m, w, 0);
        assert DateMatches(s, date);
      }
    }
  }

  /** Around a century year that is not a leap year the leap days are eight years apart. */
  ghost predicate LeapGap(y: int) {
    1970 <= y && IsLeap(y) && !IsLeap(y + 4) && IsLeap(y + 8)
  }

  /** All due minutes of 29 February `y` lie before `local`, or none does. */
  ghost predicate AllBefore(s: CronSchedule, y: int, local: int) {
    forall hh, mm :: LeapMinute(s, y, hh, mm) ==> MinuteOfLeapDay(y, hh, mm) < local
  }

  ghost predicate AllFrom(s: CronSchedule, y: int, local: int) {
    forall hh, mm :: LeapMinute(s, y, hh, mm) ==> local <= MinuteOfLeapDay(y, hh, mm)
  }

  /** The window from `local` lies in the gap after `y`. */
  ghost predicate InGap(s: CronSchedule, local: int, y: int) {
    LeapGap(y) && AllBefore(s, y, local) && AllFrom(s, y + 8, local + 60 * MAX_MINUTES)
  }

  function LeapDay(y: int): nat
    requires 1970 <= y && IsLeap(y)
  {
    DayNumber(Date(y, 2, 29))
  }

  lemma LeapDaysInOrder(y: int, z: int)
    requires 1970 <= y < z && IsLeap(y) && IsLeap(z)
    ensures LeapDay(y) < LeapDay(z)
  {
    YearsInOrder(y, z);
    DateWithinYear(Date(y, 2, 29));
    DateWithinYear(Date(z, 2, 29));
  }

  lemma FourYearsOn(y: int)
    requires 1970 <= y && IsLeap(y) && IsLeap(y + 4)
    ensures LeapDay(y + 4) == LeapDay(y) + 1461
  {
    assert !IsLeap(y + 1) && !IsLeap(y + 2) && !IsLeap(y + 3);
    assert DaysBeforeYear(y + 2) == DaysBeforeYear(y) + 731;
    assert DaysBeforeYear(y + 4) == DaysBeforeYear(y + 2) + 730;
  }

  /** Some due minute of that day, and where all of them are. */
  lemma MinuteOfLeapYear(s: CronSchedule, y: int) returns (hh: int, mm: int)
    requires WellFormed(s) && 1970 <= y && IsLeap(y)
    ensures LeapMinute(s, y, hh, mm)
  {
    hh :| hh in s.hours;
    mm :| mm in s.minutes;
    assert Between(hh, 0, 23) && Between(mm, 0, 59);
  }

  lemma LeapMinuteInDay(s: CronSchedule, y: int, hh: int, mm: int)
    requires LeapMinute(s, y, hh, mm)
    ensures 1970 <= y && IsLeap(y) && LeapDay(y) * DAY <= MinuteOfLeapDay(y, hh, mm) < LeapDay(y) * DAY + DAY
  {
    LocalMinuteInDay(LeapDay(y), hh, mm);
  }

  lemma EarlierAllBefore(s: CronSchedule, y: int, z: int, local: int)
    requires WellFormed(s) && 1970 <= z < y && IsLeap(y) && IsLeap(z) && AllBefore(s, y, local)
    ensures AllBefore(s, z, local)
  {
    var h, m := MinuteOfLeapYear(s, y);
    LeapMinuteInDay(s, y, h, m);
    LeapDaysInOrder(z, y);
    forall hh, mm | LeapMinute(s, z, hh, mm) ensures MinuteOfLeapDay(z, hh, mm) < local {
      LeapMinuteInDay(s, z, hh, mm);
    }
  }

  lemma LaterAllFrom(s: CronSchedule, y: int, z: int, local: int)
    requires WellFormed(s) && 1970 <= y < z && IsLeap(y) && IsLeap(z) && AllFrom(s, y, local)
    ensures AllFrom(s, z, local)
  {
    var h, m := MinuteOfLeapYear(s, y);
    LeapMinuteInDay(s, y, h, m);
    LeapDaysInOrder(y, z);
    forall hh, mm | LeapMinute(s, z, hh, mm) ensures local <= MinuteOfLeapDay(z, hh, mm) {
      LeapMinuteInDay(s, z, hh, mm);
    }
  }

  lemma GapHasNone(s: CronSchedule, local: int, y: int)
    requires WellFormed(s) && InGap(s, local, y)
    ensures !LeapMinuteInWindow(s, local)
  {
    forall z, hh, mm | LeapMinute(s, z, hh, mm)
      ensures !(local <= MinuteOfLeapDay(z, hh, mm) < local + 60 * MAX_MINUTES)
    {
      if z < y {
        EarlierAllBefore(s, y, z, local);
      } else if z > y + 8 {
        LaterAllFrom(s, y + 8, z, local + 60 * MAX_MINUTES);
      } else {
        assert z == y || z == y + 8;
      }
    }
  }

  /** Without a due minute in the window, the minutes of one day lie all on one side of it. */
  lemma OneSide(s: CronSchedule, local: int, y: int)
    requires 1970 <= y && IsLeap(y) && !LeapMinuteInWindow(s, local)
    ensures AllBefore(s, y, local) || AllFrom(s, y, local + 60 * MAX_MINUTES)
  {
    if h, m :| LeapMinute(s, y, h, m) && local <= MinuteOfLeapDay(y, h, m) {
      LeapMinuteInDay(s, y, h, m);
      forall hh, mm | LeapMinute(s, y, hh, mm) ensures local + 60 * MAX_MINUTES <= MinuteOfLeapDay(y, hh, mm) {
        LeapMinuteInDay(s, y, hh, mm);
      }
    }
  }

  lemma NextLeapYear(y: int)
    requires 1970 <= y && IsLeap(y)
    ensures IsLeap(y + 4) || LeapGap(y)
  {
  }

  /** Leap days four years apart cannot enclose a window of 1464 days. */
  lemma FourYearsTooShort(s: CronSchedule, local: int, y: int)
    requires WellFormed(s) && 1970 <= y && IsLeap(y) && IsLeap(y + 4) && AllBefore(s, y, local)
    ensures !AllFrom(s, y + 4, local + 60 * MAX_MINUTES)
  {
    var h, m := MinuteOfLeapYear(s, y);
    FourYearsOn(y);
    assert LeapMinute(s, y + 4, h, m);
    assert MinuteOfLeapDay(y + 4, h, m) == MinuteOfLeapDay(y, h, m) + 1461 * DAY;
  }

  lemma {:induction false} GapFrom(s: CronSchedule, local: int, y: int) returns (gap: int)
    requires WellFormed(s) && !LeapMinuteInWindow(s, local) && 1970 <= y && IsLeap(y) && AllBefore(s, y, local)
    ensures InGap(s, local, gap)
    decreases local - LeapDay(y) * DAY
  {
    var h, m := MinuteOfLeapYear(s, y);
    LeapMinuteInDay(s, y, h, m);
    NextLeapYear(y);
    var next := if IsLeap(y + 4) then y + 4 else y + 8;
    OneSide(s, local, next);
    if AllBefore(s, next, local) {
      LeapDaysInOrder(y, next);
      gap := GapFrom(s, local, next);
    } else if IsLeap(y + 4) {
      FourYearsTooShort(s, local, y);
      assert false;
    } else {
      gap := y;
    }
  }

  lemma LeapDay1972()
    ensures IsLeap(1972) && LeapDay(1972) == 789
  {
    assert DaysBeforeYear(1971) == 365 && DaysBeforeYear(1972) == 730;
    assert DaysBeforeMonth(true, 2) == 31;
  }

  lemma FirstWindow(s: CronSchedule, local: nat)
    requires WellFormed(s) && !LeapMinuteInWindow(s, local)
    ensures AllBefore(s, 1972, local)
  {
    LeapDay1972();
    OneSide(s, local, 1972);
    var h, m := MinuteOfLeapYear(s, 1972);
    LeapMinuteInDay(s, 1972, h, m);
    assert MinuteOfLeapDay(1972, h, m) < local + 60 * MAX_MINUTES;
  }

  /** Exactly when a schedule that allows only 29 February gets no run: if and only if the start lies
      after the last due minute of a 29 February and the window ends by the first due minute of the
      next one, eight years later. */
  lemma LeapDayLostIff(s: CronSchedule, lt: LocalTime, offset: int, after: int)
    requires WellFormed(s) && FixedOffset(lt, offset) && Satisfiable(s) && OnlyLeapDay(s)
    requires 0 <= ForwardStart(after) + offset
    ensures NextAfter(s, lt, after) == None <==> InSomeGap(s, ForwardStart(after) + offset)
  {
    HorizonExact(s, lt, offset, after);
    WindowMissesIff(s, ForwardStart(after) + offset);
  }

  ghost predicate InSomeGap(s: CronSchedule, local: int) {
    exists y :: InGap(s, local, y)
  }

  lemma WindowMissesIff(s: CronSchedule, local: nat)
    requires WellFormed(s)
    ensures !LeapMinuteInWindow(s, local) <==> InSomeGap(s, local)
  {
    if y :| InGap(s, local, y) {
      GapHasNone(s, local, y);
    }
    if !LeapMinuteInWindow(s, local) {
      FirstWindow(s, local);
      LeapDay1972();
      var y := GapFrom(s, local, 1972);
    }
  }

  /** In particular from every start between the two leap days whose window ends before the second. */
  lemma LeapDayLost(s: CronSchedule, lt: LocalTime, offset: int, after: int, y: int)
    requires WellFormed(s) && FixedOffset(lt, offset) && Satisfiable(s) && OnlyLeapDay(s) && LeapGap(y)
    requires DayNumber(Date(y, 3, 1)) * DAY <= ForwardStart(after) + offset
    requires ForwardStart(after) + offset + 60 * MAX_MINUTES <= LeapDay(y + 8) * DAY
    ensures NextAfter(s, lt, after) == None && SomeDateMatches(s)
  {
    var local := ForwardStart(after) + offset;
    assert 0 <= local && InSomeGap(s, local) by { BetweenLeapDays(s, local, y); }
    assert NextAfter(s, lt, after) == None by { LeapDayLostIff(s, lt, offset, after); }
    SomeDateMatchesIff(s);
  }

  lemma BetweenLeapDays(s: CronSchedule, local: int, y: int)
    requires LeapGap(y) && DayNumber(Date(y, 3, 1)) * DAY <= local
    requires local + 60 * MAX_MINUTES <= LeapDay(y + 8) * DAY
    ensures 0 <= local && InSomeGap(s, local)
  {
    assert DaysBeforeMonth(true, 3) == DaysBeforeMonth(true, 2) + 29;
    assert DayNumber(Date(y, 3, 1)) == LeapDay(y) + 1;
    forall hh, mm | LeapMinute(s, y, hh, mm) ensures MinuteOfLeapDay(y, hh, mm) < local {
      LeapMinuteInDay(s, y, hh, mm);
    }
    var z := y + 8;
    forall hh, mm | LeapMinute(s, z, hh, mm) ensures local + 60 * MAX_MINUTES <= MinuteOfLeapDay(z, hh, mm) {
      LeapMinuteInDay(s, z, hh, mm);
    }
    assert InGap(s, local, y);
  }

  /** 2100 opens the first gap: from 1 March 2096 on, and for four years, such a schedule finds
      nothing although 29 February 2104 exists. */
  lemma LeapDayLostAfter2096(s: CronSchedule, lt: LocalTime, offset: int, after: int)
    requires WellFormed(s) && FixedOffset(lt, offset) && Satisfiable(s) && OnlyLeapDay(s)
    requires DayNumber(Date(2096, 3, 1)) * DAY <= ForwardStart(after) + offset <= DayNumber(Date(2100, 2, 25)) * DAY
    ensures NextAfter(s, lt, after) == None && SomeDateMatches(s)
  {
    assert LeapGap(2096);
    YearsFrom2100();
    assert DaysBeforeMonth(true, 2) == 31 && DaysBeforeMonth(false, 2) == 31;
    LeapDayLost(s, lt, offset, after, 2096);
  }

  lemma YearsFrom2100()
    ensures DaysBeforeYear(2104) == DaysBeforeYear(2100) + 1460
  {
    assert !IsLeap(2100) && !IsLeap(2101) && !IsLeap(2102) && !IsLeap(2103);
    assert DaysBeforeYear(2102) == DaysBeforeYear(2100) + 730;
  }

  /** "0 0 29 2 *" is such a schedule. */
  lemma LeapDayExpression()
    ensures exists s :: ExpressionValue("0 0 29 2 *") == Some(s) && WellFormed(s) && Satisfiable(s) && OnlyLeapDay(s)
  {
    var t := seq(5, (i: nat) => LeapText(i));
    var s := LeapDayParses(t);
    LeapDayJoined(t);
  }

  function LeapText(i: nat): string {
    if i == 2 then "29" else if i == 3 then "2" else if i == 4 then "*" else "0"
  }

  function LeapSet(i: nat): set<int> {
    if i == 2 then {29} else if i == 3 then {2} else if i == 4 then Range(0, 7) else {0}
  }

  lemma LeapField(i: nat)
    requires i < 5
    ensures IsWord(LeapText(i)) && FieldValue(LeapText(i), FieldLo(i), FieldHi(i)) == Some(LeapSet(i))
  {
    if i == 4 {
      StarIsFullRange(0, 7);
    } else {
      var n := if i == 2 then 29 else if i == 3 then 2 else 0;
      NumberField(n, FieldLo(i), FieldHi(i));
      assert LeapText(i) == Decimal(n);
    }
  }

  lemma LeapDayParses(t: seq<string>) returns (s: CronSchedule)
    requires |t| == 5 && forall i: nat :: i < 5 ==> t[i] == LeapText(i)
    ensures ExpressionValue(Join(t)) == Some(s) && WellFormed(s) && Satisfiable(s) && OnlyLeapDay(s)
  {
    var f := seq(5, (i: nat) => LeapSet(i));
    forall i | 0 <= i < 5 ensures IsWord(t[i]) && FieldValue(t[i], FieldLo(i), FieldHi(i)) == Some(f[i]) {
      LeapField(i);
    }
    ExpressionOfFive(f, t);
    s := CronSchedule(f[0], f[1], f[2], f[3], SundayNormalised(f[4]), t[2] == "*", t[4] == "*");
    ParsedIsWellFormed(Join(t));
    OnlyTheLeapDay(s);
  }

  lemma LeapDayJoined(t: seq<string>)
    requires |t| == 5 && forall i: nat :: i < 5 ==> t[i] == LeapText(i)
    ensures Join(t) == "0 0 29 2 *"
  {
    JoinFive(t);
  }

  lemma OnlyTheLeapDay(s: CronSchedule)
    requires s.doms == {29} && s.months == {2} && !s.domWildcard && s.dowWildcard
    ensures Satisfiable(s) && OnlyLeapDay(s)
  {
    assert 2 in s.months && 29 in s.doms && 29 <= MonthLength(true, 2);
  }
}

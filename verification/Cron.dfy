/** Cron schedules: the day rule and the two bounded searches over local time. */
module Cron {
  import opened Basics

  /** The parts of a broken-down local time that a schedule looks at
      (`mon` counts from 0 and `wday` from Sunday = 0). */
  datatype Tm = Tm(min: int, hour: int, mday: int, mon: int, wday: int)

  /** The C library's localtime_r: a total function of the Unix time. */
  type LocalTime = int -> Tm

  datatype CronSchedule = CronSchedule(
    minutes: set<int>, hours: set<int>, doms: set<int>, months: set<int>, dows: set<int>,
    domWildcard: bool, dowWildcard: bool)

  predicate Matches(s: CronSchedule, tm: Tm) {
    if tm.min !in s.minutes then false
    else if tm.hour !in s.hours then false
    else if tm.mon + 1 !in s.months then false
    else
      var domOk := tm.mday in s.doms;
      var dowOk := tm.wday in s.dows;
      if s.domWildcard && s.dowWildcard then true
      else if s.domWildcard then dowOk
      else if s.dowWildcard then domOk
      else domOk || dowOk
  }

  /** About four years of minutes. */
  const MAX_MINUTES: nat := 4 * 366 * 24 * 60

  /** C++ remainder: truncates toward zero. */
  function TruncRem(a: int, b: int): int
    requires b > 0
  {
    if a >= 0 then a % b else -((-a) % b)
  }

  /** First minute the forward search looks at, and last one the backward search does. */
  function ForwardStart(after: int): int { after - TruncRem(after, 60) + 60 }
  function BackwardStart(at: int): int { at - TruncRem(at, 60) }

  /** `t` is a whole minute at which the schedule is due. */
  ghost predicate Hit(s: CronSchedule, lt: LocalTime, t: int) {
    t % 60 == 0 && Matches(s, lt(t))
  }

  ghost predicate NoHit(s: CronSchedule, lt: LocalTime, from: int, to: int) {
    forall t :: from <= t < to ==> !Hit(s, lt, t)
  }

  ghost predicate IsFirstHit(s: CronSchedule, lt: LocalTime, from: int, v: int) {
    from <= v < from + 60 * MAX_MINUTES && Hit(s, lt, v) && NoHit(s, lt, from, v)
  }

  ghost predicate IsLastHit(s: CronSchedule, lt: LocalTime, from: int, v: int) {
    from - 60 * MAX_MINUTES < v <= from && Hit(s, lt, v) && NoHit(s, lt, v + 1, from + 1)
  }

  lemma {:induction false} LeastHitExists(s: CronSchedule, lt: LocalTime, from: int, t: int)
    requires from <= t && Hit(s, lt, t)
    ensures exists v :: from <= v <= t && Hit(s, lt, v) && NoHit(s, lt, from, v)
    decreases t - from
  {
    if u :| from <= u < t && Hit(s, lt, u) {
      LeastHitExists(s, lt, from, u);
    } else {
      assert NoHit(s, lt, from, t);
    }
  }

  lemma {:induction false} GreatestHitExists(s: CronSchedule, lt: LocalTime, from: int, t: int)
    requires t <= from && Hit(s, lt, t)
    ensures exists v :: t <= v <= from && Hit(s, lt, v) && NoHit(s, lt, v + 1, from + 1)
    decreases from - t
  {
    if u :| t < u <= from && Hit(s, lt, u) {
      GreatestHitExists(s, lt, from, u);
    } else {
      assert NoHit(s, lt, t + 1, from + 1);
    }
  }

  /** What `next_after` is for: the least due minute of the forward window. */
  ghost function NextAfter(s: CronSchedule, lt: LocalTime, after: int): (r: Option<int>)
    ensures r.Some? ==> IsFirstHit(s, lt, ForwardStart(after), r.value)
    ensures r.None? ==> NoHit(s, lt, ForwardStart(after), ForwardStart(after) + 60 * MAX_MINUTES)
  {
    var from := ForwardStart(after);
    if v :| IsFirstHit(s, lt, from, v) then Some(v)
    else
      assert NoHit(s, lt, from, from + 60 * MAX_MINUTES) by {
        forall t | from <= t < from + 60 * MAX_MINUTES ensures !Hit(s, lt, t) {
          if Hit(s, lt, t) {
            LeastHitExists(s, lt, from, t);
            var v :| from <= v <= t && Hit(s, lt, v) && NoHit(s, lt, from, v);
            assert IsFirstHit(s, lt, from, v);
          }
        }
      }
      None
  }

  /** What `prev_before` is for: the greatest due minute of the backward window. */
  ghost function PrevBefore(s: CronSchedule, lt: LocalTime, at: int): (r: Option<int>)
    ensures r.Some? ==> IsLastHit(s, lt, BackwardStart(at), r.value)
    ensures r.None? ==> NoHit(s, lt, BackwardStart(at) - 60 * MAX_MINUTES + 1, BackwardStart(at) + 1)
  {
    var from := BackwardStart(at);
    if v :| IsLastHit(s, lt, from, v) then Some(v)
    else
      assert NoHit(s, lt, from - 60 * MAX_MINUTES + 1, from + 1) by {
        forall t | from - 60 * MAX_MINUTES < t <= from ensures !Hit(s, lt, t) {
          if Hit(s, lt, t) {
            GreatestHitExists(s, lt, from, t);
            var v :| t <= v <= from && Hit(s, lt, v) && NoHit(s, lt, v + 1, from + 1);
            assert IsLastHit(s, lt, from, v);
          }
        }
      }
      None
  }

  lemma StartsAreWholeMinutes(a: int)
    ensures ForwardStart(a) % 60 == 0 && BackwardStart(a) % 60 == 0
    ensures ForwardStart(a) == BackwardStart(a) + 60
  {
  }

  lemma NextUnique(s: CronSchedule, lt: LocalTime, after: int, v: int)
    requires IsFirstHit(s, lt, ForwardStart(after), v)
    ensures NextAfter(s, lt, after) == Some(v)
  {
  }

  lemma PrevUnique(s: CronSchedule, lt: LocalTime, at: int, v: int)
    requires IsLastHit(s, lt, BackwardStart(at), v)
    ensures PrevBefore(s, lt, at) == Some(v)
  {
  }

  /** The forward search loop computes `NextAfter`. */
  method FindNext(s: CronSchedule, lt: LocalTime, after: int) returns (r: Option<int>)
    ensures r == NextAfter(s, lt, after)
  {
    var t := after - TruncRem(after, 60) + 60;
    var i := 0;
    while i < MAX_MINUTES
      invariant 0 <= i <= MAX_MINUTES
      invariant t == ForwardStart(after) + 60 * i
      invariant NoHit(s, lt, ForwardStart(after), t)
    {
      StartsAreWholeMinutes(after);
      assert t % 60 == 0;
      if Matches(s, lt(t)) {
        NextUnique(s, lt, after, t);
        return Some(t);
      }
      assert NoHit(s, lt, t, t + 60);
      i := i + 1;
      t := t + 60;
    }
    return None;
  }

  /** The backward search loop computes `PrevBefore`. */
  method FindPrev(s: CronSchedule, lt: LocalTime, at: int) returns (r: Option<int>)
    ensures r == PrevBefore(s, lt, at)
  {
    var t := at - TruncRem(at, 60);
    var i := 0;
    while i < MAX_MINUTES
      invariant 0 <= i <= MAX_MINUTES
      invariant t == BackwardStart(at) - 60 * i
      invariant NoHit(s, lt, t + 1, BackwardStart(at) + 1)
    {
      StartsAreWholeMinutes(at);
      assert t % 60 == 0;
      if Matches(s, lt(t)) {
        PrevUnique(s, lt, at, t);
        return Some(t);
      }
      assert NoHit(s, lt, t - 59, t + 1);
      i := i + 1;
      t := t - 60;
    }
    return None;
  }

  /** The times for which truncating `%` rounds down to the minute, as the searches need it. */
  predicate RoundsDown(a: int) {
    0 <= a || a % 60 == 0
  }

  lemma StartsRoundDown(a: int)
    requires RoundsDown(a)
    ensures BackwardStart(a) <= a < ForwardStart(a) == BackwardStart(a) + 60
    ensures forall t :: t % 60 == 0 && a < t ==> ForwardStart(a) <= t
    ensures forall t :: t % 60 == 0 && t <= a ==> t <= BackwardStart(a)
  {
    StartsAreWholeMinutes(a);
  }

  /** What the header promises of `next_after`: the smallest due minute strictly after `a`, or
      nothing when there is none up to the end of the window. */
  ghost predicate NextPromise(s: CronSchedule, lt: LocalTime, a: int) {
    match NextAfter(s, lt, a)
    case Some(v) => a < v && Hit(s, lt, v) && NoHit(s, lt, a + 1, v)
    case None => NoHit(s, lt, a + 1, ForwardStart(a) + 60 * MAX_MINUTES)
  }

  /** What it promises of `prev_before`: the largest due minute at or before `a`. */
  ghost predicate PrevPromise(s: CronSchedule, lt: LocalTime, a: int) {
    match PrevBefore(s, lt, a)
    case Some(v) => v <= a && Hit(s, lt, v) && NoHit(s, lt, v + 1, a + 1)
    case None => NoHit(s, lt, BackwardStart(a) - 60 * MAX_MINUTES + 1, a + 1)
  }

  lemma NextExact(s: CronSchedule, lt: LocalTime, after: int)
    requires RoundsDown(after)
    ensures NextPromise(s, lt, after)
  {
    StartsRoundDown(after);
    assert NoHit(s, lt, after + 1, ForwardStart(after));
  }

  lemma PrevExact(s: CronSchedule, lt: LocalTime, at: int)
    requires RoundsDown(at)
    ensures PrevPromise(s, lt, at)
  {
    StartsRoundDown(at);
    assert NoHit(s, lt, BackwardStart(at) + 1, at + 1);
  }

  /** Broken-down times with all fields in the ranges the C library keeps them in. */
  ghost predicate ProperTm(tm: Tm) {
    0 <= tm.min < 60 && 0 <= tm.hour < 24 && 1 <= tm.mday <= 31 && 0 <= tm.mon < 12 && 0 <= tm.wday < 7
  }

  ghost predicate ProperClock(lt: LocalTime) {
    forall t :: ProperTm(lt(t))
  }

  lemma WholeMinuteStarts(v: int)
    requires v % 60 == 0
    ensures BackwardStart(v) == v && ForwardStart(v) == v + 60
  {
    assert v < 0 ==> (-v) % 60 == 0;
  }

  /** A minute found going forward is found again going backward from it. */
  lemma PrevOfNext(s: CronSchedule, lt: LocalTime, after: int)
    requires NextAfter(s, lt, after).Some?
    ensures PrevBefore(s, lt, NextAfter(s, lt, after).value) == NextAfter(s, lt, after)
  {
    var v := NextAfter(s, lt, after).value;
    WholeMinuteStarts(v);
    assert NoHit(s, lt, v + 1, v + 1);
    assert IsLastHit(s, lt, v, v);
    PrevUnique(s, lt, v, v);
  }

  lemma WholeMinutesApart(b: int, v: int)
    requires b % 60 == 0 && v % 60 == 0 && b < v
    ensures b + 60 <= v
  {
  }

  /** The first hit of a search is that of any later search which has skipped no hit. */
  lemma FirstHitLater(s: CronSchedule, lt: LocalTime, from: int, b: int, v: int)
    requires IsFirstHit(s, lt, from, v) && b % 60 == 0 && from <= b + 60 && NoHit(s, lt, from, b + 1)
    ensures IsFirstHit(s, lt, b + 60, v)
  {
    assert b < v;
    WholeMinutesApart(b, v);
  }

  /** Going back to the latest due minute and forward again from there lands where going
      forward from the start does. */
  lemma NextOfPrev(s: CronSchedule, lt: LocalTime, a: int)
    requires PrevBefore(s, lt, a).Some?
    requires NextAfter(s, lt, PrevBefore(s, lt, a).value).Some?
    ensures NextAfter(s, lt, a) == NextAfter(s, lt, PrevBefore(s, lt, a).value)
  {
    var p := PrevBefore(s, lt, a).value;
    var v := NextAfter(s, lt, p).value;
    StartsAreWholeMinutes(a);
    WholeMinuteStarts(p);
    FirstHitLater(s, lt, p + 60, BackwardStart(a), v);
    NextUnique(s, lt, a, v);
  }

  /** The missed-run decision of the scheduler. */
  ghost function MissedRun(s: CronSchedule, lt: LocalTime, lastRun: int, now: int): Option<int> {
    match PrevBefore(s, lt, now)
    case None => None
    case Some(p) => if lastRun >= p then None else Some(p)
  }

  method DetectMissedRun(s: CronSchedule, lt: LocalTime, lastRun: int, now: int) returns (r: Option<int>)
    ensures r == MissedRun(s, lt, lastRun, now)
  {
    var prev := FindPrev(s, lt, now);
    if prev.None? {
      return None;
    }
    if lastRun >= prev.value {
      return None;
    }
    return prev;
  }

  /** A missed run is reported exactly when some due minute of the horizon lies after the last
      run and not after now, and the report is the latest of them. */
  lemma MissedRunExact(s: CronSchedule, lt: LocalTime, lastRun: int, now: int)
    requires RoundsDown(now)
    ensures MissedRun(s, lt, lastRun, now).Some? <==>
            exists t :: lastRun < t <= now && BackwardStart(now) - 60 * MAX_MINUTES < t && Hit(s, lt, t)
    ensures MissedRun(s, lt, lastRun, now).Some? ==>
              var v := MissedRun(s, lt, lastRun, now).value;
              lastRun < v <= now && Hit(s, lt, v) && NoHit(s, lt, v + 1, now + 1)
  {
    PrevExact(s, lt, now);
    if MissedRun(s, lt, lastRun, now).None? {
      forall t | lastRun < t <= now && BackwardStart(now) - 60 * MAX_MINUTES < t
        ensures !Hit(s, lt, t)
      {
      }
    }
  }
}

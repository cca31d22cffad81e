/** Scheduled jobs: when a tick finds them due, over whole runs. */
module SchedulerDue {
  import opened Basics
  import opened Cron
  import opened SchedulerModel
  import opened SchedulerRuns
  import opened SchedulerStore
  import opened SchedulerSafety

  function At(m: map<string, int>, name: string): Option<int> {
    if name in m then Some(m[name]) else None
  }

  ghost predicate ArmedBy(job: Job, lt: LocalTime, armedAt: map<string, int>, next: int) {
    && job.schedule.Some? && job.name in armedAt && 0 <= armedAt[job.name]
    && NextAfter(job.schedule.value, lt, armedAt[job.name]) == Some(next)
  }

  ghost predicate ArmedFor(jobs: seq<Job>, lt: LocalTime, armedAt: map<string, int>, name: string, next: int) {
    exists job :: job in jobs && job.name == name && ArmedBy(job, lt, armedAt, next)
  }

  /** Every stored next run is the first due minute after the time it was computed at. */
  ghost predicate Clocked(s: System, lt: LocalTime) {
    forall n :: n in s.shared.nextRun ==> ArmedFor(s.shared.jobs, lt, s.past.armedAt, n, s.shared.nextRun[n])
  }

  lemma {:induction false} AdvancedOwn(jobs: seq<Job>, nextRun: map<string, int>, lt: LocalTime, now: int, job: Job)
    requires UniqueNames(jobs) && job in jobs
    ensures At(Advanced(jobs, nextRun, lt, now), job.name) ==
            if IsDue(job, nextRun, now) then NextAfter(job.schedule.value, lt, now) else At(nextRun, job.name)
  {
    var front, last := jobs[..|jobs| - 1], jobs[|jobs| - 1];
    if job == last {
      AdvancedOthers(front, nextRun, lt, now, last.name);
    } else {
      assert job in front;
      AdvancedOwn(front, nextRun, lt, now, job);
      assert last.name != job.name;
    }
  }

  lemma UnknownNotAdvanced(s: System, lt: LocalTime, now: int, n: string)
    requires !Known(s.shared.jobs, n)
    ensures At(Advanced(s.shared.jobs, s.shared.nextRun, lt, now), n) == At(s.shared.nextRun, n)
  {
    var jobs := s.shared.jobs;
    assert forall i :: 0 <= i < |jobs| ==> jobs[i] in jobs;
    AdvancedOthers(jobs, s.shared.nextRun, lt, now, n);
  }

  lemma RearmedIffDue(jobs: seq<Job>, nextRun: map<string, int>, lt: LocalTime, now: int, job: Job)
    requires UniqueNames(jobs) && job in jobs
    ensures IsDue(job, nextRun, now) <==> exists j :: j in DueJobs(jobs, nextRun, lt, now) && j.name == job.name
  {
    DueJobsExact(jobs, nextRun, lt, now);
    var due := DueJobs(jobs, nextRun, lt, now);
    if j :| j in due && j.name == job.name {
      UniqueMember(jobs, j, job);
    }
    assert IsDue(job, nextRun, now) ==> job in due;
  }

  /** What a tick does to one job's entry and to the time it was computed at. */
  lemma TickEntry(s: System, lt: LocalTime, now: int, job: Job)
    requires UniqueNames(s.shared.jobs) && job in s.shared.jobs && s.batch == [] && now >= 0
    requires job.schedule.Some? ==> job.name in s.past.armedAt
    ensures var t := DoTick(s, lt, now);
            if IsDue(job, s.shared.nextRun, now)
            then At(t.shared.nextRun, job.name) == NextAfter(job.schedule.value, lt, now) &&
                 At(t.past.armedAt, job.name) == Some(now)
            else At(t.shared.nextRun, job.name) == At(s.shared.nextRun, job.name) &&
                 At(t.past.armedAt, job.name) == At(s.past.armedAt, job.name)
  {
    var sh := s.shared;
    AdvancedOwn(sh.jobs, sh.nextRun, lt, now, job);
    RearmedIffDue(sh.jobs, sh.nextRun, lt, now, job);
  }

  lemma TickClocked(s: System, lt: LocalTime, now: int)
    requires UniqueNames(s.shared.jobs) && Clocked(s, lt) && s.batch == [] && now >= 0
    ensures Clocked(DoTick(s, lt, now), lt)
  {
    var t := DoTick(s, lt, now);
    forall n | n in t.shared.nextRun
      ensures ArmedFor(t.shared.jobs, lt, t.past.armedAt, n, t.shared.nextRun[n])
    {
      if !Known(s.shared.jobs, n) {
        UnknownNotAdvanced(s, lt, now, n);
      }
      NextRunWasThere(s, lt, now, n);
      var job :| job in s.shared.jobs && job.name == n && ArmedBy(job, lt, s.past.armedAt, s.shared.nextRun[n]);
      TickEntry(s, lt, now, job);
      assert ArmedBy(job, lt, t.past.armedAt, t.shared.nextRun[n]);
    }
  }

  /** A tick creates no entries. */
  lemma NextRunWasThere(s: System, lt: LocalTime, now: int, n: string)
    requires UniqueNames(s.shared.jobs) && n in Advanced(s.shared.jobs, s.shared.nextRun, lt, now)
    ensures n in s.shared.nextRun
  {
    if Known(s.shared.jobs, n) {
      var job :| job in s.shared.jobs && job.name == n;
      AdvancedOwn(s.shared.jobs, s.shared.nextRun, lt, now, job);
    } else {
      UnknownNotAdvanced(s, lt, now, n);
    }
  }

  lemma AddCommitClocked(s: System, lt: LocalTime, now: int)
    requires Clocked(s, lt) && ApiOk(s.shared.jobs, s.defs, s.api)
    ensures Clocked(DoAddCommit(s, lt, now), lt)
  {
  }

  lemma RemoveCommitClocked(s: System, lt: LocalTime)
    requires Clocked(s, lt)
    ensures Clocked(DoRemoveCommit(s), lt)
  {
  }

  lemma StepClocked(config: seq<Job>, s: System, lt: LocalTime, step: Step)
    requires Stored(config, s) && Clocked(s, lt)
    ensures Clocked(Do(s, lt, step), lt)
  {
    if MovesClock(step) {
      match step
      case Tick(now) => if s.batch == [] && now >= 0 { TickClocked(s, lt, now); }
      case AddCommit(now) => AddCommitClocked(s, lt, now);
      case RemoveCommit => RemoveCommitClocked(s, lt);
    } else {
      StepFrame(s, lt, step);
    }
  }

  lemma {:induction false} InitialNextRunArmed(jobs: seq<Job>, lt: LocalTime, now: int)
    requires UniqueNames(jobs)
    ensures forall n :: n in InitialNextRun(jobs, lt, now) ==>
              exists job :: job in jobs && job.name == n && job.schedule.Some? &&
                            NextAfter(job.schedule.value, lt, now) == Some(InitialNextRun(jobs, lt, now)[n])
  {
    if jobs != [] {
      var front, last := jobs[..|jobs| - 1], jobs[|jobs| - 1];
      InitialNextRunArmed(front, lt, now);
      assert jobs == front + [last];
      forall n | n in InitialNextRun(jobs, lt, now)
        ensures exists job :: job in jobs && job.name == n && job.schedule.Some? &&
                              NextAfter(job.schedule.value, lt, now) == Some(InitialNextRun(jobs, lt, now)[n])
      {
        if n in InitialNextRun(front, lt, now) {
          var job :| job in front && job.name == n && job.schedule.Some? &&
                     NextAfter(job.schedule.value, lt, now) == Some(InitialNextRun(front, lt, now)[n]);
          assert job in jobs && job.name != last.name;
        } else {
          assert last in jobs && last.name == n;
        }
      }
    }
  }

  lemma InitClocked(u: Setup, lt: LocalTime)
    requires ValidSetup(u)
    ensures Clocked(Init(u, lt), lt)
  {
    var s := Init(u, lt);
    MergedExact(u.config, u.stored);
    InitialNextRunArmed(s.shared.jobs, lt, u.now);
    forall n | n in s.shared.nextRun ensures ArmedFor(s.shared.jobs, lt, s.past.armedAt, n, s.shared.nextRun[n]) {
      var job :| job in s.shared.jobs && job.name == n && job.schedule.Some? &&
                 NextAfter(job.schedule.value, lt, u.now) == Some(s.shared.nextRun[n]);
      assert ArmedBy(job, lt, s.past.armedAt, s.shared.nextRun[n]);
    }
  }

  // ----- Every scheduled job is armed -----

  /** A job without a schedule has no entry; one with a schedule has a time at which its next run was
      computed, and the entry is what the search from there gives. */
  ghost predicate EntryExact(s: System, lt: LocalTime, job: Job) {
    if job.schedule.None? then job.name !in s.shared.nextRun
    else
      && job.name in s.past.armedAt && 0 <= s.past.armedAt[job.name]
      && At(s.shared.nextRun, job.name) == NextAfter(job.schedule.value, lt, s.past.armedAt[job.name])
  }

  ghost predicate AllArmed(s: System, lt: LocalTime) {
    forall job :: job in s.shared.jobs ==> EntryExact(s, lt, job)
  }

  lemma {:induction false} InitialEntry(jobs: seq<Job>, lt: LocalTime, now: int, job: Job)
    requires UniqueNames(jobs) && job in jobs
    ensures At(InitialNextRun(jobs, lt, now), job.name) ==
            if job.schedule.None? then None else NextAfter(job.schedule.value, lt, now)
  {
    var front, last := jobs[..|jobs| - 1], jobs[|jobs| - 1];
    InitialNextRunArmed(front, lt, now);
    if job == last {
      assert job.name !in InitialNextRun(front, lt, now);
    } else {
      assert job in front && job.name != last.name;
      InitialEntry(front, lt, now, job);
    }
  }

  lemma InitArmed(u: Setup, lt: LocalTime)
    requires ValidSetup(u)
    ensures AllArmed(Init(u, lt), lt)
  {
    var s := Init(u, lt);
    MergedExact(u.config, u.stored);
    forall job | job in s.shared.jobs ensures EntryExact(s, lt, job) {
      InitialEntry(s.shared.jobs, lt, u.now, job);
      assert s.past.armedAt[job.name] == u.now;
    }
  }

  lemma TickArmed(s: System, lt: LocalTime, now: int)
    requires UniqueNames(s.shared.jobs) && AllArmed(s, lt) && s.batch == [] && now >= 0
    ensures AllArmed(DoTick(s, lt, now), lt)
  {
    forall job | job in s.shared.jobs ensures EntryExact(DoTick(s, lt, now), lt, job) {
      assert EntryExact(s, lt, job);
      TickEntry(s, lt, now, job);
    }
  }

  lemma AddCommitArmed(s: System, lt: LocalTime, now: int)
    requires Clocked(s, lt) && AllArmed(s, lt) && ApiOk(s.shared.jobs, s.defs, s.api)
    ensures AllArmed(DoAddCommit(s, lt, now), lt)
  {
    if s.api.AddStored? && now >= 0 {
      var t, added := DoAddCommit(s, lt, now), s.api.job;
      assert added.name !in s.shared.nextRun;
      forall job | job in t.shared.jobs ensures EntryExact(t, lt, job) {
        if job in s.shared.jobs {
          assert EntryExact(s, lt, job) && job.name != added.name;
        } else {
          assert job == added;
        }
      }
    }
  }

  lemma RemoveCommitArmed(s: System, lt: LocalTime)
    requires AllArmed(s, lt)
    ensures AllArmed(DoRemoveCommit(s), lt)
  {
    if s.api.RemoveDeleted? {
      var t := DoRemoveCommit(s);
      forall job | job in t.shared.jobs ensures EntryExact(t, lt, job) {
        assert EntryExact(s, lt, job);
      }
    }
  }

  lemma FrameArmed(s: System, t: System, lt: LocalTime)
    requires AllArmed(s, lt) && ClockFrame(s, t)
    ensures AllArmed(t, lt)
  {
    forall job | job in t.shared.jobs ensures EntryExact(t, lt, job) {
      assert EntryExact(s, lt, job);
    }
  }

  lemma StepArmed(config: seq<Job>, s: System, lt: LocalTime, step: Step)
    requires Stored(config, s) && Clocked(s, lt) && AllArmed(s, lt)
    ensures AllArmed(Do(s, lt, step), lt)
  {
    if s.aborted {
    } else if step.Tick? {
      if s.batch == [] && step.now >= 0 { TickArmed(s, lt, step.now); }
    } else if step.AddCommit? {
      AddCommitArmed(s, lt, step.now);
    } else if step.RemoveCommit? {
      RemoveCommitArmed(s, lt);
    } else {
      StepFrame(s, lt, step);
      FrameArmed(s, Do(s, lt, step), lt);
    }
  }

  ghost predicate Timed(config: seq<Job>, s: System, lt: LocalTime) {
    Stored(config, s) && Clocked(s, lt) && AllArmed(s, lt)
  }

  lemma {:induction false} RunTimed(config: seq<Job>, s: System, lt: LocalTime, steps: seq<Step>)
    requires Timed(config, s, lt)
    ensures Timed(config, RunFrom(s, lt, steps), lt)
  {
    if steps != [] {
      var front, last := steps[..|steps| - 1], steps[|steps| - 1];
      RunTimed(config, s, lt, front);
      StepStored(config, RunFrom(s, lt, front), lt, last);
      StepClocked(config, RunFrom(s, lt, front), lt, last);
      StepArmed(config, RunFrom(s, lt, front), lt, last);
    }
  }

  lemma ReachableTimed(u: Setup, lt: LocalTime, steps: seq<Step>)
    requires ValidSetup(u)
    ensures Timed(u.config, Run(u, lt, steps), lt)
  {
    InitStored(u, lt);
    InitClocked(u, lt);
    InitArmed(u, lt);
    RunTimed(u.config, Init(u, lt), lt, steps);
  }

  /** In every reachable state - after start-up, additions and ticks alike - every registered job with
      a schedule has a time at which its next run was last computed, and its stored next run is the
      first due minute of the window from there; it has none exactly when that window holds none. A
      job without a schedule has none. */
  lemma ArmingExact(u: Setup, lt: LocalTime, steps: seq<Step>, job: Job)
    requires ValidSetup(u) && job in Run(u, lt, steps).shared.jobs
    ensures var s := Run(u, lt, steps);
            if job.schedule.None? then job.name !in s.shared.nextRun
            else
              && job.name in s.past.armedAt && 0 <= s.past.armedAt[job.name]
              && var from := ForwardStart(s.past.armedAt[job.name]);
                 if job.name in s.shared.nextRun
                 then IsFirstHit(job.schedule.value, lt, from, s.shared.nextRun[job.name])
                 else NoHit(job.schedule.value, lt, from, from + 60 * MAX_MINUTES)
  {
    ReachableTimed(u, lt, steps);
    assert EntryExact(Run(u, lt, steps), lt, job);
  }

  /** In every reachable state a tick at `now` finds a registered scheduled job due exactly when some
      due minute of the search window lies after the time its next run was computed at and not after
      `now`. */
  lemma DueIff(u: Setup, lt: LocalTime, steps: seq<Step>, job: Job, now: int)
    requires ValidSetup(u) && job in Run(u, lt, steps).shared.jobs && job.schedule.Some?
    ensures var s := Run(u, lt, steps);
            && job.name in s.past.armedAt
            && var armed := s.past.armedAt[job.name];
               IsDue(job, s.shared.nextRun, now) <==>
               exists t :: armed < t <= now && t < ForwardStart(armed) + 60 * MAX_MINUTES && Hit(job.schedule.value, lt, t)
  {
    var s := Run(u, lt, steps);
    ReachableTimed(u, lt, steps);
    assert EntryExact(s, lt, job);
    NextExact(job.schedule.value, lt, s.past.armedAt[job.name]);
  }

  /** Where the job has a stored next run the end of the window does not matter. */
  lemma DueExact(u: Setup, lt: LocalTime, steps: seq<Step>, job: Job, now: int)
    requires ValidSetup(u)
    requires job in Run(u, lt, steps).shared.jobs && job.name in Run(u, lt, steps).shared.nextRun
    ensures var s := Run(u, lt, steps);
            && job.schedule.Some? && job.name in s.past.armedAt
            && (IsDue(job, s.shared.nextRun, now) <==>
                exists t :: s.past.armedAt[job.name] < t <= now && Hit(job.schedule.value, lt, t))
  {
    var s := Run(u, lt, steps);
    ReachableTimed(u, lt, steps);
    assert EntryExact(s, lt, job);
    NextExact(job.schedule.value, lt, s.past.armedAt[job.name]);
  }

  // ----- A job that stays registered -----

  /** The tick at this state finds the job due (and is one the loop can take). */
  predicate DueTick(s: System, step: Step, name: string) {
    && !s.aborted && step.Tick? && s.batch == [] && step.now >= 0
    && name in s.shared.nextRun && s.shared.nextRun[name] <= step.now
  }

  ghost predicate HasEntry(s: System, name: string) {
    name in s.shared.nextRun && name in s.past.armedAt
  }

  /** What a step does to a registered job's entry, seen from the outside. */
  ghost predicate MovedForward(s: System, t: System, step: Step, name: string)
    requires HasEntry(s, name)
  {
    && HasEntry(t, name)
    && if DueTick(s, step, name)
       then s.past.armedAt[name] < step.now == t.past.armedAt[name] &&
            s.shared.nextRun[name] <= step.now < t.shared.nextRun[name]
       else t.past.armedAt[name] == s.past.armedAt[name] && t.shared.nextRun[name] == s.shared.nextRun[name]
  }

  lemma TickMovesForward(s: System, lt: LocalTime, now: int, name: string)
    requires UniqueNames(s.shared.jobs) && Clocked(s, lt) && HasEntry(s, name) && s.batch == [] && now >= 0
    requires name in DoTick(s, lt, now).shared.nextRun && !s.aborted
    ensures MovedForward(s, DoTick(s, lt, now), Tick(now), name)
  {
    assert ArmedFor(s.shared.jobs, lt, s.past.armedAt, name, s.shared.nextRun[name]);
    var job :| job in s.shared.jobs && job.name == name && ArmedBy(job, lt, s.past.armedAt, s.shared.nextRun[name]);
    TickEntry(s, lt, now, job);
    NextExact(job.schedule.value, lt, now);
    NextExact(job.schedule.value, lt, s.past.armedAt[name]);
  }

  lemma AddMovesNothing(s: System, lt: LocalTime, now: int, name: string)
    requires Clocked(s, lt) && HasEntry(s, name) && ApiOk(s.shared.jobs, s.defs, s.api)
    ensures MovedForward(s, DoAddCommit(s, lt, now), AddCommit(now), name)
  {
    assert ArmedFor(s.shared.jobs, lt, s.past.armedAt, name, s.shared.nextRun[name]);
    if s.api.AddStored? {
      assert s.api.job.name != name;
    }
  }

  lemma RemoveMovesNothing(s: System, name: string)
    requires HasEntry(s, name) && name in DoRemoveCommit(s).shared.nextRun
    ensures MovedForward(s, DoRemoveCommit(s), RemoveCommit, name)
  {
  }

  lemma KeptClockMovesNothing(s: System, t: System, step: Step, name: string)
    requires HasEntry(s, name) && ClockFrame(s, t) && !DueTick(s, step, name)
    ensures MovedForward(s, t, step, name)
  {
  }

  /** The step that recomputes a job's next run moves it strictly forward, past `now`, whatever
      the clock did before; no other step changes it. */
  lemma StepMovesForward(config: seq<Job>, s: System, lt: LocalTime, step: Step, name: string)
    requires Timed(config, s, lt) && HasEntry(s, name) && name in Do(s, lt, step).shared.nextRun
    ensures MovedForward(s, Do(s, lt, step), step, name)
  {
    StepFrame(s, lt, step);
    if s.aborted || (step.Tick? && (s.batch != [] || step.now < 0)) {
      KeptClockMovesNothing(s, s, step, name);
    } else if step.Tick? {
      TickMovesForward(s, lt, step.now, name);
    } else if step.AddCommit? {
      AddMovesNothing(s, lt, step.now, name);
    } else if step.RemoveCommit? {
      RemoveMovesNothing(s, name);
    } else {
      KeptClockMovesNothing(s, Do(s, lt, step), step, name);
    }
  }

  ghost predicate StaysRegistered(s: System, lt: LocalTime, steps: seq<Step>, name: string) {
    forall i :: 0 <= i <= |steps| ==> name in RunFrom(s, lt, steps[..i]).shared.nextRun
  }

  /** Minute `t` lies in the window that the due tick at step `i` closes. */
  ghost predicate InWindow(s: System, lt: LocalTime, steps: seq<Step>, name: string, i: nat, t: int)
    requires i < |steps|
  {
    var x := RunFrom(s, lt, steps[..i]);
    DueTick(x, steps[i], name) && name in x.past.armedAt && x.past.armedAt[name] < t <= steps[i].now
  }

  lemma {:induction false} ForwardThroughout(config: seq<Job>, s: System, lt: LocalTime, steps: seq<Step>, name: string)
    requires Timed(config, s, lt) && HasEntry(s, name) && StaysRegistered(s, lt, steps, name)
    ensures var t := RunFrom(s, lt, steps);
            && HasEntry(t, name)
            && s.past.armedAt[name] <= t.past.armedAt[name]
            && s.shared.nextRun[name] <= t.shared.nextRun[name]
    decreases |steps|, 1
  {
    if steps != [] {
      LastStepForward(config, s, lt, steps, name);
    }
  }

  lemma {:induction false} LastStepForward(config: seq<Job>, s: System, lt: LocalTime, steps: seq<Step>, name: string)
    requires Timed(config, s, lt) && HasEntry(s, name) && StaysRegistered(s, lt, steps, name) && steps != []
    ensures var x := RunFrom(s, lt, steps[..|steps| - 1]);
            && HasEntry(x, name)
            && s.past.armedAt[name] <= x.past.armedAt[name] && s.shared.nextRun[name] <= x.shared.nextRun[name]
            && MovedForward(x, RunFrom(s, lt, steps), steps[|steps| - 1], name)
    decreases |steps|, 0
  {
    var front := steps[..|steps| - 1];
    StaysInFront(s, lt, steps, name);
    ForwardThroughout(config, s, lt, front, name);
    RunTimed(config, s, lt, front);
    assert steps[..|steps|] == steps;
    StepMovesForward(config, RunFrom(s, lt, front), lt, steps[|steps| - 1], name);
  }

  /** A window closed during the run lies within what the run covers. */
  lemma {:induction false} WindowWithinRun(config: seq<Job>, s: System, lt: LocalTime, steps: seq<Step>, name: string,
                                           i: nat, t: int)
    requires Timed(config, s, lt) && HasEntry(s, name) && StaysRegistered(s, lt, steps, name)
    requires i < |steps| && InWindow(s, lt, steps, name, i, t)
    ensures HasEntry(RunFrom(s, lt, steps), name)
    ensures s.past.armedAt[name] < t <= RunFrom(s, lt, steps).past.armedAt[name]
  {
    LastStepForward(config, s, lt, steps, name);
    if i < |steps| - 1 {
      StaysInFront(s, lt, steps, name);
      WindowsOfFront(s, lt, steps, name, i, t);
      WindowWithinRun(config, s, lt, steps[..|steps| - 1], name, i, t);
    }
  }

  lemma StaysInFront(s: System, lt: LocalTime, steps: seq<Step>, name: string)
    requires steps != [] && StaysRegistered(s, lt, steps, name)
    ensures StaysRegistered(s, lt, steps[..|steps| - 1], name)
  {
    var front := steps[..|steps| - 1];
    forall i | 0 <= i <= |front| ensures name in RunFrom(s, lt, front[..i]).shared.nextRun {
      assert front[..i] == steps[..i];
    }
  }

  lemma WindowsOfFront(s: System, lt: LocalTime, steps: seq<Step>, name: string, i: nat, t: int)
    requires i < |steps| - 1
    ensures InWindow(s, lt, steps[..|steps| - 1], name, i, t) == InWindow(s, lt, steps, name, i, t)
  {
    assert steps[..|steps| - 1][..i] == steps[..i];
  }

  lemma {:induction false} WindowsCover(config: seq<Job>, s: System, lt: LocalTime, steps: seq<Step>, name: string, t: int)
    requires Timed(config, s, lt) && HasEntry(s, name) && StaysRegistered(s, lt, steps, name)
    requires HasEntry(RunFrom(s, lt, steps), name)
    requires s.past.armedAt[name] < t <= RunFrom(s, lt, steps).past.armedAt[name]
    ensures exists i :: 0 <= i < |steps| && InWindow(s, lt, steps, name, i, t)
  {
    var front := steps[..|steps| - 1];
    var x := RunFrom(s, lt, front);
    StaysInFront(s, lt, steps, name);
    LastStepForward(config, s, lt, steps, name);
    if t <= x.past.armedAt[name] {
      WindowsCover(config, s, lt, front, name, t);
      var i :| 0 <= i < |front| && InWindow(s, lt, front, name, i, t);
      WindowsOfFront(s, lt, steps, name, i, t);
    } else {
      assert InWindow(s, lt, steps, name, |front|, t);
    }
  }

  lemma {:induction false} WindowsDisjoint(config: seq<Job>, s: System, lt: LocalTime, steps: seq<Step>, name: string,
                                           i: nat, j: nat, t: int)
    requires Timed(config, s, lt) && HasEntry(s, name) && StaysRegistered(s, lt, steps, name)
    requires i < j < |steps| && InWindow(s, lt, steps, name, i, t)
    ensures !InWindow(s, lt, steps, name, j, t)
  {
    var front := steps[..|steps| - 1];
    StaysInFront(s, lt, steps, name);
    WindowsOfFront(s, lt, steps, name, i, t);
    if j < |front| {
      WindowsDisjoint(config, s, lt, front, name, i, j, t);
      WindowsOfFront(s, lt, steps, name, j, t);
    } else {
      WindowWithinRun(config, s, lt, front, name, i, t);
      assert steps[..j] == front;
    }
  }

  /** The windows between successive due ticks tile time. From any reachable point on, as long as
      the job stays registered: its stored next run never moves back, every minute after its
      first computation and up to its last one lies in the window of some due tick, and in only one. */
  lemma EveryMinuteInOneWindow(u: Setup, lt: LocalTime, before: seq<Step>, steps: seq<Step>, name: string, t: int)
    requires ValidSetup(u) && StaysRegistered(Run(u, lt, before), lt, steps, name)
    ensures var s := Run(u, lt, before);
            && HasEntry(s, name) && HasEntry(RunFrom(s, lt, steps), name)
            && s.shared.nextRun[name] <= RunFrom(s, lt, steps).shared.nextRun[name]
            && (s.past.armedAt[name] < t <= RunFrom(s, lt, steps).past.armedAt[name] ==>
                  exists i :: 0 <= i < |steps| && InWindow(s, lt, steps, name, i, t))
            && (forall i, j :: 0 <= i < j < |steps| && InWindow(s, lt, steps, name, i, t) ==>
                  !InWindow(s, lt, steps, name, j, t))
  {
    var s := Run(u, lt, before);
    ReachableTimed(u, lt, before);
    assert steps[..0] == [];
    assert name in RunFrom(s, lt, steps[..0]).shared.nextRun;
    assert ArmedFor(s.shared.jobs, lt, s.past.armedAt, name, s.shared.nextRun[name]);
    ForwardThroughout(u.config, s, lt, steps, name);
    if s.past.armedAt[name] < t <= RunFrom(s, lt, steps).past.armedAt[name] {
      WindowsCover(u.config, s, lt, steps, name, t);
    }
    forall i, j | 0 <= i < j < |steps| && InWindow(s, lt, steps, name, i, t)
      ensures !InWindow(s, lt, steps, name, j, t)
    {
      WindowsDisjoint(u.config, s, lt, steps, name, i, j, t);
    }
  }
}

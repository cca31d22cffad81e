/** What recovering a missed run leads to: the recovered job is due as well. */
module SchedulerRecovery {
  import opened Basics
  import opened Cron
  import opened CronParser
  import opened SchedulerModel
  import opened SchedulerRuns
  import opened SchedulerStore
  import opened SchedulerSafety
  import opened SchedulerDue
  import opened SchedulerScans

  lemma DueByUniqueName(s: Shared, now: int, job: Job)
    requires UniqueNames(s.jobs) && job in s.jobs
    ensures DueAt(s, now, job.name) <==> IsDue(job, s.nextRun, now)
  {
    if j :| j in s.jobs && j.name == job.name && IsDue(j, s.nextRun, now) {
      UniqueMember(s.jobs, j, job);
    }
  }

  /** In every reachable state an idle requested job with a due minute since its next run was
      computed makes the next tick clash. */
  lemma RequestedAndDueClashes(u: Setup, lt: LocalTime, steps: seq<Step>, job: Job, now: int, t: int)
    requires ValidSetup(u)
    requires var s := Run(u, lt, steps);
             && job in s.shared.jobs && job.name in s.shared.nextRun && job.name in s.past.armedAt
             && Ready(s.shared, job.name) && RequestedIn(s.shared.queue, job.name)
             && job.schedule.Some? && s.past.armedAt[job.name] < t <= now && Hit(job.schedule.value, lt, t)
    ensures !NoClash(Run(u, lt, steps).shared, now)
  {
    DueExact(u, lt, steps, job, now);
    assert DueAt(Run(u, lt, steps).shared, now, job.name);
    ClashOf(Run(u, lt, steps).shared, now, job.name);
  }

  // ----- What one recovery does -----

  /** A scanner has claimed the missed occurrence `occ` of a job that is still registered and idle. */
  ghost predicate AboutToRecover(s: System, who: Who, job: Job, occ: int) {
    var c := ScannerOf(s, who);
    && c.Scanning? && c.phase == ToEnqueue(occ) && c.index < |c.candidates| && c.candidates[c.index] == job
    && job in s.shared.jobs && !IsRunning(s.shared, job.name)
  }

  /** The job's next run was computed before `occ`, as it is when the machine slept through `occ`. */
  ghost predicate ArmedBefore(s: System, name: string, occ: int) {
    name in s.shared.nextRun && name in s.past.armedAt && s.past.armedAt[name] < occ
  }

  /** The occurrence a scanner is about to queue is the latest due minute up to the scan. */
  lemma ClaimIsLatestHit(u: Setup, lt: LocalTime, steps: seq<Step>, who: Who, job: Job, occ: int)
    requires AboutToRecover(Run(u, lt, steps), who, job, occ)
    ensures job.schedule.Some? && Hit(job.schedule.value, lt, occ)
    ensures NoHit(job.schedule.value, lt, occ + 1, ScannerOf(Run(u, lt, steps), who).now + 1)
  {
    MissedRunsRecoveredOnce(u, lt, steps);
    var s := Run(u, lt, steps);
    var c := ScannerOf(s, who);
    assert ScanOk(s.shared, lt, c);
    assert Found(lt, c, occ);
    PrevExact(job.schedule.value, lt, c.now);
  }

  /** At a tick between the occurrence and the scan, the job to be recovered is due exactly when its
      next run was computed before the occurrence. */
  lemma RecoveredDueIff(u: Setup, lt: LocalTime, steps: seq<Step>, who: Who, job: Job, occ: int, now: int)
    requires ValidSetup(u) && AboutToRecover(Run(u, lt, steps), who, job, occ)
    requires occ <= now <= ScannerOf(Run(u, lt, steps), who).now
    ensures IsDue(job, Run(u, lt, steps).shared.nextRun, now) <==> ArmedBefore(Run(u, lt, steps), job.name, occ)
  {
    ClaimIsLatestHit(u, lt, steps, who, job, occ);
    if job.name in Run(u, lt, steps).shared.nextRun {
      DueExact(u, lt, steps, job, now);
    }
  }

  lemma EnqueueRequests(s: System, lt: LocalTime, who: Who, job: Job, occ: int)
    requires !s.aborted && AboutToRecover(s, who, job, occ)
    ensures var t := Do(s, lt, ScanEnqueue(who));
            && !t.aborted && TaskFrame(s, t) && ClockFrame(s, t)
            && t.shared.queue == s.shared.queue + [Request(job.name, "missed", s.shared.issued)]
  {
    StepFrame(s, lt, ScanEnqueue(who));
  }

  lemma OneMoreRequest(q: seq<Request>, r: Request)
    ensures RequestedIn(q + [r], r.name)
    ensures RequestedTwice(q + [r], r.name) <==> RequestedIn(q, r.name)
  {
    var n, more := |q|, q + [r];
    assert more[n] == r;
    if i :| 0 <= i < n && q[i].name == r.name {
      assert more[i].name == r.name && more[n].name == r.name;
    }
    if i, j :| 0 <= i < j < |more| && more[i].name == r.name && more[j].name == r.name {
      assert q[i].name == r.name;
    }
  }

  /** Exactly when a recovery is fatal: at a tick between the occurrence and the scan, queueing it
      makes the tick fatal because of this job if and only if the job's next run was computed before
      the occurrence, or it was requested already, or its last entry has not been reaped. */
  lemma RecoveryFatalIff(u: Setup, lt: LocalTime, steps: seq<Step>, who: Who, job: Job, occ: int, now: int)
    requires ValidSetup(u) && !Run(u, lt, steps).aborted && AboutToRecover(Run(u, lt, steps), who, job, occ)
    requires occ <= now <= ScannerOf(Run(u, lt, steps), who).now
    ensures var s := Run(u, lt, steps);
            FatalFor(Do(s, lt, ScanEnqueue(who)).shared, now, job.name) <==>
            || ArmedBefore(s, job.name, occ)
            || RequestedIn(s.shared.queue, job.name)
            || job.name in s.shared.running
  {
    var s := Run(u, lt, steps);
    var t := Do(s, lt, ScanEnqueue(who)).shared;
    EnqueueRequests(s, lt, who, job, occ);
    OneMoreRequest(s.shared.queue, Request(job.name, "missed", s.shared.issued));
    RecoveredDueIff(u, lt, steps, who, job, occ, now);
    RunStored(u, lt, steps);
    DueByUniqueName(t, now, job);
    KnownIffFound(t.jobs, job.name);
    assert Ready(t, job.name);
  }

  // ----- Whatever happens before the tick -----

  /** The job is registered, idle, requested, and was armed before `occ`. */
  ghost predicate Doomed(s: System, job: Job, occ: int) {
    && !s.aborted && s.batch == []
    && job in s.shared.jobs && !IsRunning(s.shared, job.name)
    && RequestedIn(s.shared.queue, job.name) && ArmedBefore(s, job.name, occ)
  }

  lemma StillRequested(q: seq<Request>, more: seq<Request>, name: string)
    requires RequestedIn(q, name)
    ensures RequestedIn(q + more, name)
  {
    var i :| 0 <= i < |q| && q[i].name == name;
    assert (q + more)[i] == q[i];
  }

  lemma QueueGrows(s: System, lt: LocalTime, step: Step)
    requires !step.Tick? && s.batch == []
    ensures exists more :: Do(s, lt, step).shared.queue == s.shared.queue + more
  {
    StepFrame(s, lt, step);
    var t := Do(s, lt, step);
    if t.shared.queue == s.shared.queue {
      assert t.shared.queue == s.shared.queue + [];
    } else if step.RunEnqueue? {
      assert t.shared.queue == s.shared.queue + [Request(s.api.name, "manual", s.shared.issued)];
    } else {
      var c := ScannerOf(s, step.who);
      assert t.shared.queue == s.shared.queue + [Request(c.candidates[c.index].name, "missed", s.shared.issued)];
    }
  }

  lemma TasksStayIdle(s: System, lt: LocalTime, step: Step, name: string)
    requires !step.Tick? && s.batch == [] && !s.aborted && !IsRunning(s.shared, name)
    ensures var t := Do(s, lt, step); !t.aborted && t.batch == [] && !IsRunning(t.shared, name)
  {
    StepFrame(s, lt, step);
  }

  lemma JobStays(s: System, lt: LocalTime, step: Step, job: Job)
    requires job in s.shared.jobs && job.name in s.shared.nextRun && job.name in Do(s, lt, step).shared.nextRun
    ensures job in Do(s, lt, step).shared.jobs
  {
    StepFrame(s, lt, step);
  }

  lemma DoomedStays(config: seq<Job>, s: System, lt: LocalTime, step: Step, job: Job, occ: int)
    requires Timed(config, s, lt) && Doomed(s, job, occ) && !step.Tick?
    requires job.name in Do(s, lt, step).shared.nextRun
    ensures Doomed(Do(s, lt, step), job, occ)
  {
    TasksStayIdle(s, lt, step, job.name);
    JobStays(s, lt, step, job);
    StepMovesForward(config, s, lt, step, job.name);
    QueueGrows(s, lt, step);
    var more :| Do(s, lt, step).shared.queue == s.shared.queue + more;
    StillRequested(s.shared.queue, more, job.name);
  }

  lemma {:induction false} DoomedThroughout(config: seq<Job>, s: System, lt: LocalTime, between: seq<Step>, job: Job, occ: int)
    requires Timed(config, s, lt) && Doomed(s, job, occ) && NoTick(between)
    requires StaysRegistered(s, lt, between, job.name)
    ensures Doomed(RunFrom(s, lt, between), job, occ)
  {
    if between != [] {
      var front, last := between[..|between| - 1], between[|between| - 1];
      StaysInFront(s, lt, between, job.name);
      DoomedThroughout(config, s, lt, front, job, occ);
      RunTimed(config, s, lt, front);
      assert between[..|between|] == between;
      DoomedStays(config, RunFrom(s, lt, front), lt, last, job, occ);
    }
  }

  lemma DoomedTick(u: Setup, lt: LocalTime, steps: seq<Step>, job: Job, occ: int, now: int, more: seq<Step>)
    requires ValidSetup(u) && 0 <= now && occ <= now && NoTick(more) && Doomed(Run(u, lt, steps), job, occ)
    requires job.schedule.Some? && Hit(job.schedule.value, lt, occ)
    ensures var x := Run(u, lt, steps);
            && !NoClash(x.shared, now)
            && (Launches(more) >= |TickBatch(x.shared, lt, now)| ==> RunFrom(Do(x, lt, Tick(now)), lt, more).aborted)
  {
    KnownIffFound(Run(u, lt, steps).shared.jobs, job.name);
    RequestedAndDueClashes(u, lt, steps, job, now, occ);
    TickAbortsIff(u, lt, steps, now, more);
  }

  /** Over every run: once a scanner queues the recovery of an idle job whose next run was computed
      before the missed occurrence, then - whatever the threads do before the next tick, as long as
      the job stays registered - that tick, at any `now` from the occurrence on, finds the job
      requested and due, and its launches end the process. */
  lemma RecoveryAborts(u: Setup, lt: LocalTime, steps: seq<Step>, who: Who, job: Job, occ: int, between: seq<Step>,
                       now: int, more: seq<Step>)
    requires ValidSetup(u) && 0 <= now && occ <= now && NoTick(between) && NoTick(more)
    requires var s := Run(u, lt, steps);
             !s.aborted && s.batch == [] && AboutToRecover(s, who, job, occ) && ArmedBefore(s, job.name, occ)
    requires StaysRegistered(Do(Run(u, lt, steps), lt, ScanEnqueue(who)), lt, between, job.name)
    ensures var x := RunFrom(Do(Run(u, lt, steps), lt, ScanEnqueue(who)), lt, between);
            && !NoClash(x.shared, now)
            && (Launches(more) >= |TickBatch(x.shared, lt, now)| ==> RunFrom(Do(x, lt, Tick(now)), lt, more).aborted)
  {
    var s := Run(u, lt, steps);
    var queued := steps + [ScanEnqueue(who)];
    RunSnoc(Init(u, lt), lt, steps, ScanEnqueue(who));
    EnqueueRequests(s, lt, who, job, occ);
    OneMoreRequest(s.shared.queue, Request(job.name, "missed", s.shared.issued));
    ClaimIsLatestHit(u, lt, steps, who, job, occ);
    ReachableTimed(u, lt, queued);
    DoomedThroughout(u.config, Run(u, lt, queued), lt, between, job, occ);
    RunConcat(Init(u, lt), lt, queued, between);
    DoomedTick(u, lt, queued + between, job, occ, now, more);
  }

  // ----- Such a state is reached -----

  lemma DueAtMinute(lt: LocalTime, t: int)
    requires ProperClock(lt) && t % 60 == 0
    ensures NextAfter(EVERY_MINUTE, lt, t) == Some(t + 60) && PrevBefore(EVERY_MINUTE, lt, t) == Some(t)
  {
    WholeMinuteStarts(t);
    AlwaysDue(lt, t);
    AlwaysDue(lt, t + 60);
    NextUnique(EVERY_MINUTE, lt, t, t + 60);
    PrevUnique(EVERY_MINUTE, lt, t, t);
  }

  ghost function WakeSetup(job: Job): Setup { Setup([job], [], map[], 0) }

  /** A configured job "* * * * *" that is to be recovered on wake. */
  ghost predicate EveryMinuteJob(job: Job) {
    && job.source == "config" && job.policy == RunOnWake
    && job.scheduleExpr == "* * * * *" && job.schedule == ScheduleOf(job.scheduleExpr)
  }

  lemma StartedState(job: Job, lt: LocalTime)
    requires ProperClock(lt) && job.source == "config" && job.policy == RunOnWake && job.schedule == Some(EVERY_MINUTE)
    ensures var s := Init(WakeSetup(job), lt);
            && ValidSetup(WakeSetup(job)) && s.shared.jobs == [job] && s.shared.nextRun == map[job.name := 60]
            && s.past.armedAt == map[job.name := 0] && s.shared.lastRuns == map[]
            && Candidates(s.shared.jobs) == [job]
  {
    DueAtMinute(lt, 0);
    assert Merged([job], []) == [job];
    assert [job][..0] == [] && InitialNextRun([], lt, 0) == map[] && Candidates([]) == [];
    assert InitialNextRun([job], lt, 0) == map[job.name := 60];
  }

  lemma ScanReads(s: System, lt: LocalTime, job: Job)
    requires !s.aborted && job.schedule.Some? && LastStart(s.shared, job.name) == 0
    requires MissedRun(job.schedule.value, lt, 0, 120) == Some(120)
    requires s.looper == Scanning(120, [job], 0, [], ToRead, {})
    ensures var t := Do(s, lt, ScanRead(Looper));
            !t.aborted && t.shared == s.shared && t.past == s.past && t.batch == s.batch &&
            t.looper == Scanning(120, [job], 0, [0], ToClaim(120), {})
  {
    assert [] + [0] == [0];
    assert [job][0] == job;
  }

  lemma ScanClaims(s: System, lt: LocalTime, job: Job)
    requires !s.aborted && Handled(s.shared, job.name) == 0
    requires s.looper == Scanning(120, [job], 0, [0], ToClaim(120), {})
    ensures var t := Do(s, lt, ScanClaim(Looper));
            Framed(s, t, ScanClaim(Looper)) && t.looper == Scanning(120, [job], 0, [0], ToEnqueue(120), {})
  {
    StepFrame(s, lt, ScanClaim(Looper));
  }

  lemma ScanGetsThere(s: System, lt: LocalTime, job: Job)
    requires !s.aborted && s.batch == [] && s.looper == Resting && s.shared.running == map[]
    requires job.schedule.Some? && MissedRun(job.schedule.value, lt, 0, 120) == Some(120)
    requires s.shared.jobs == [job] && Candidates(s.shared.jobs) == [job] && s.shared.nextRun == map[job.name := 60]
    requires s.past.armedAt == map[job.name := 0] && s.shared.lastRuns == map[] && s.shared.missedHandled == map[]
    ensures var t := Do(Do(Do(s, lt, ScanStart(Looper, 120)), lt, ScanRead(Looper)), lt, ScanClaim(Looper));
            !t.aborted && t.batch == [] && AboutToRecover(t, Looper, job, 120) && ArmedBefore(t, job.name, 120)
  {
    var started := Do(s, lt, ScanStart(Looper, 120));
    StepFrame(s, lt, ScanStart(Looper, 120));
    assert started.looper == Scanning(120, [job], 0, [], ToRead, {}) && started.shared == s.shared;
    ScanReads(started, lt, job);
    ScanClaims(Do(started, lt, ScanRead(Looper)), lt, job);
  }

  /** On every clock: start at time 0, sleep, wake at 120, and the scan is about to recover the run
      due at 120 of a job whose next run was computed before. */
  lemma RecoveryHappens(job: Job, lt: LocalTime)
    requires EveryMinuteJob(job) && ProperClock(lt)
    ensures var s := Run(WakeSetup(job), lt, [] + [ScanStart(Looper, 120)] + [ScanRead(Looper)] + [ScanClaim(Looper)]);
            && ValidSetup(WakeSetup(job)) && !s.aborted && s.batch == []
            && AboutToRecover(s, Looper, job, 120) && ArmedBefore(s, job.name, 120)
  {
    assert job.schedule == Some(EVERY_MINUTE) by { EveryMinuteParses(); }
    StartedState(job, lt);
    DueAtMinute(lt, 120);
    ScanGetsThere(Init(WakeSetup(job), lt), lt, job);
    RunThree(Init(WakeSetup(job), lt), lt, ScanStart(Looper, 120), ScanRead(Looper), ScanClaim(Looper));
  }
}

/** What last start a missed-run scan goes by: the one recorded last, and nothing executed is claimed. */
module SchedulerStarts {
  import opened Basics
  import opened Cron
  import opened SchedulerModel
  import opened SchedulerRuns
  import opened SchedulerStore
  import opened SchedulerScans

  /** The table holds the last of the starts recorded for the name, if there is any. */
  ghost predicate StartKept(s: System, n: string) {
    var starts := StartsOf(s.past, n);
    if starts == [] then n !in s.shared.lastRuns
    else n in s.shared.lastRuns && s.shared.lastRuns[n] == starts[|starts| - 1]
  }

  ghost predicate StartsKept(s: System) {
    forall n :: StartKept(s, n)
  }

  lemma RecordKeepsStarts(s: System, id: nat, startedAt: int)
    requires StartsKept(s)
    ensures StartsKept(DoRecord(s, id, startedAt))
  {
    forall n ensures StartKept(DoRecord(s, id, startedAt), n) {
      assert StartKept(s, n);
    }
  }

  lemma RemoveKeepsStarts(s: System)
    requires StartsKept(s)
    ensures StartsKept(DoRemoveCommit(s))
  {
    forall n ensures StartKept(DoRemoveCommit(s), n) {
      assert StartKept(s, n);
    }
  }

  lemma StepKeepsStarts(s: System, lt: LocalTime, step: Step)
    requires StartsKept(s)
    ensures StartsKept(Do(s, lt, step))
  {
    if s.aborted {
    } else if step.Record? {
      RecordKeepsStarts(s, step.id, step.startedAt);
    } else if step.RemoveCommit? {
      RemoveKeepsStarts(s);
    } else {
      StepFrame(s, lt, step);
      forall n ensures StartKept(Do(s, lt, step), n) {
        assert StartKept(s, n);
      }
    }
  }

  lemma InitKeepsStarts(u: Setup, lt: LocalTime)
    ensures StartsKept(Init(u, lt))
  {
    var s := Init(u, lt);
    forall n ensures StartKept(s, n) {
      KnownIffFound(s.shared.jobs, n);
      assert Known(s.shared.jobs, n) <==> exists j :: j in s.shared.jobs && j.name == n;
    }
  }

  /** Over every run: the last start the scheduler knows of a job is the one recorded last since the
      job was last removed - by the database at start-up or by a worker since. */
  lemma {:induction false} LastStartsKept(u: Setup, lt: LocalTime, steps: seq<Step>)
    ensures StartsKept(Run(u, lt, steps))
  {
    if steps == [] {
      InitKeepsStarts(u, lt);
    } else {
      LastStartsKept(u, lt, steps[..|steps| - 1]);
      StepKeepsStarts(Run(u, lt, steps[..|steps| - 1]), lt, steps[|steps| - 1]);
    }
  }

  /** A record made by a live worker is the last one of its job from then on, registered or not. */
  lemma RecordIsLast(u: Setup, lt: LocalTime, steps: seq<Step>, id: nat, startedAt: int)
    requires var s := Run(u, lt, steps); !s.aborted && id < |s.shared.owner| && id < |s.shared.done| && !s.shared.done[id]
    ensures var s := Run(u, lt, steps);
            var name, t := s.shared.owner[id], Do(s, lt, Record(id, startedAt));
            && StartsOf(t.past, name) == StartsOf(s.past, name) + [startedAt]
            && t.shared.lastRuns == s.shared.lastRuns[name := startedAt]
            && forall n :: n != name ==> StartsOf(t.past, n) == StartsOf(s.past, n)
  {
  }

  /** A scan at `now` finds `occ` missing for a job last started at `last`. */
  ghost predicate Misses(s: CronSchedule, lt: LocalTime, last: int, now: int, occ: int) {
    && last < occ <= now && BackwardStart(now) - 60 * MAX_MINUTES < occ
    && Hit(s, lt, occ) && NoHit(s, lt, occ + 1, now + 1)
  }

  lemma MissedIff(s: CronSchedule, lt: LocalTime, last: int, now: int, occ: int)
    requires 0 <= now
    ensures MissedRun(s, lt, last, now) == Some(occ) <==> Misses(s, lt, last, now, occ)
  {
    PrevExact(s, lt, now);
    StartsRoundDown(now);
    if Misses(s, lt, last, now, occ) {
      assert NoHit(s, lt, occ + 1, BackwardStart(now) + 1);
      PrevUnique(s, lt, now, occ);
    }
  }

  lemma ReadGoesOn(s: System, lt: LocalTime, who: Who, last: int)
    requires var c := ScannerOf(s, who);
             !s.aborted && c.Scanning? && c.phase.ToRead? && c.index < |c.candidates| && 0 <= c.now &&
             LastStart(s.shared, c.candidates[c.index].name) == last
    ensures var c, d := ScannerOf(s, who), ScannerOf(Do(s, lt, ScanRead(who)), who);
            var job := c.candidates[c.index];
            && d.Scanning? && d.read == c.read + [last]
            && forall occ :: d.phase == ToClaim(occ) <==>
                             job.schedule.Some? && Misses(job.schedule.value, lt, last, c.now, occ)
  {
    var c := ScannerOf(s, who);
    var job := c.candidates[c.index];
    if job.schedule.Some? {
      forall occ ensures MissedRun(job.schedule.value, lt, last, c.now) == Some(occ) <==>
                         Misses(job.schedule.value, lt, last, c.now, occ) {
        MissedIff(job.schedule.value, lt, last, c.now, occ);
      }
    }
  }

  /** In every reachable state: a scan reads the start recorded last for its candidate (0 if there is
      none), and goes on to claim an occurrence exactly when it is the latest due minute up to the
      scan and later than that start. */
  lemma ScanReadExact(u: Setup, lt: LocalTime, steps: seq<Step>, who: Who)
    requires var s := Run(u, lt, steps);
             var c := ScannerOf(s, who);
             !s.aborted && c.Scanning? && c.phase.ToRead? && c.index < |c.candidates|
    ensures var s := Run(u, lt, steps);
            var c, d := ScannerOf(s, who), ScannerOf(Do(s, lt, ScanRead(who)), who);
            var job := c.candidates[c.index];
            var last := LastOr0(StartsOf(s.past, job.name));
            && d.Scanning? && d.read == c.read + [last]
            && forall occ :: d.phase == ToClaim(occ) <==>
                             job.schedule.Some? && Misses(job.schedule.value, lt, last, c.now, occ)
  {
    var s := Run(u, lt, steps);
    var c := ScannerOf(s, who);
    LastStartsKept(u, lt, steps);
    assert StartKept(s, c.candidates[c.index].name);
    MissedRunsRecoveredOnce(u, lt, steps);
    assert ScanOk(s.shared, lt, c);
    ReadGoesOn(s, lt, who, LastOr0(StartsOf(s.past, c.candidates[c.index].name)));
  }

  // ----- Claims, over whole runs -----

  /** The scan has found `occ` for `job` and not finished with it. */
  ghost predicate WorksOn(c: Scanner, job: Job, occ: int) {
    && c.Scanning? && c.index < |c.candidates| && c.candidates[c.index] == job
    && (c.phase == ToClaim(occ) || c.phase == ToEnqueue(occ))
  }

  /** A scan comes to work on an occurrence only by reading. */
  lemma OnlyReadsFind(s: System, lt: LocalTime, step: Step, who: Who, job: Job, occ: int)
    requires WorksOn(ScannerOf(Do(s, lt, step), who), job, occ) && step != ScanRead(who)
    ensures WorksOn(ScannerOf(s, who), job, occ)
  {
    if !s.aborted {
      if step.ScanClaim? {
        ClaimFinds(s, step.who, who, job, occ);
      } else if step.ScanEnqueue? {
        EnqueueFinds(s, step.who, who, job, occ);
      } else if step.ScanRead? || step.ScanStart? {
      } else if step.RemoveCommit? {
      } else {
        StepFrame(s, lt, step);
      }
    }
  }

  lemma ClaimFinds(s: System, other: Who, who: Who, job: Job, occ: int)
    requires WorksOn(ScannerOf(DoScanClaim(s, other), who), job, occ)
    ensures WorksOn(ScannerOf(s, who), job, occ)
  {
  }

  lemma EnqueueFinds(s: System, other: Who, who: Who, job: Job, occ: int)
    requires WorksOn(ScannerOf(DoScanEnqueue(s, other), who), job, occ)
    ensures WorksOn(ScannerOf(s, who), job, occ)
  {
  }

  /** At step `i` the scan read a last start of the job, and it lies before `occ`. */
  ghost predicate ReadBefore(u: Setup, lt: LocalTime, steps: seq<Step>, who: Who, i: nat, name: string, occ: int) {
    i < |steps| && steps[i] == ScanRead(who) && LastOr0(StartsOf(Run(u, lt, steps[..i]).past, name)) < occ
  }

  /** No scan claims what was executed: whatever it claims or queues is later than the start that was
      on record for the job when it read. */
  lemma {:induction false} NothingExecutedIsClaimed(u: Setup, lt: LocalTime, steps: seq<Step>, who: Who, job: Job, occ: int)
    requires WorksOn(ScannerOf(Run(u, lt, steps), who), job, occ)
    ensures exists i :: 0 <= i < |steps| && ReadBefore(u, lt, steps, who, i, job.name, occ)
  {
    if steps != [] {
      var n := |steps| - 1;
      var front, s := steps[..n], Run(u, lt, steps[..n]);
      if WorksOn(ScannerOf(s, who), job, occ) {
        NothingExecutedIsClaimed(u, lt, front, who, job, occ);
        var i :| 0 <= i < n && ReadBefore(u, lt, front, who, i, job.name, occ);
        assert front[..i] == steps[..i];
        assert ReadBefore(u, lt, steps, who, i, job.name, occ);
      } else {
        if steps[n] != ScanRead(who) {
          OnlyReadsFind(s, lt, steps[n], who, job, occ);
        }
        FoundByRead(u, lt, front, who, job, occ);
        assert ReadBefore(u, lt, steps, who, n, job.name, occ);
      }
    }
  }

  lemma FoundByRead(u: Setup, lt: LocalTime, steps: seq<Step>, who: Who, job: Job, occ: int)
    requires var s := Run(u, lt, steps);
             !WorksOn(ScannerOf(s, who), job, occ) && WorksOn(ScannerOf(Do(s, lt, ScanRead(who)), who), job, occ)
    ensures LastOr0(StartsOf(Run(u, lt, steps).past, job.name)) < occ
  {
    var c := ScannerOf(Run(u, lt, steps), who);
    assert c.Scanning? && c.phase.ToRead? && c.index < |c.candidates| && c.candidates[c.index] == job;
    ScanReadExact(u, lt, steps, who);
  }
}

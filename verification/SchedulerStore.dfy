/** The job list and its persisted definitions, over all runs of add and remove with failures. */
module SchedulerStore {
  import opened Basics
  import opened Cron
  import opened SchedulerModel
  import opened SchedulerRuns

  /** The UI job is what its persisted definition reloads to. */
  ghost predicate Reloads(defs: map<string, JobDef>, j: Job) {
    j.name in defs && JobFromDef(defs[j.name]) == j
  }

  ghost predicate Known(jobs: seq<Job>, name: string) {
    exists j :: j in jobs && j.name == name
  }

  lemma KnownIffFound(jobs: seq<Job>, name: string)
    ensures Known(jobs, name) <==> FindJob(jobs, name).Some?
  {
  }

  /** What holds while the API thread is at its various places. */
  ghost predicate ApiOk(jobs: seq<Job>, defs: map<string, JobDef>, api: Api) {
    match api
    case Idle => true
    case AddChecked(job) => !Known(jobs, job.name) && JobFromDef(DefFromJob(job)) == job
    case AddStored(job) => !Known(jobs, job.name) && job.source == "ui" && Reloads(defs, job)
    case RemoveChecked(name) => exists j :: j in jobs && j.name == name && j.source == "ui"
    case RemoveDeleted(name) => name !in defs && exists j :: j in jobs && j.name == name && j.source == "ui"
    case RunChecked(name) => Known(jobs, name)
  }

  /** The configured jobs are all there and are the only jobs that are not UI-managed. */
  ghost predicate ConfigOk(config: seq<Job>, jobs: seq<Job>) {
    && (forall j :: j in config ==> j in jobs && j.source != "ui")
    && (forall j :: j in jobs && j.source != "ui" ==> j in config)
  }

  ghost predicate DefsOk(jobs: seq<Job>, defs: map<string, JobDef>, api: Api) {
    && (forall n :: n in defs ==> defs[n].name == n)
    && (forall n :: n in defs ==> Known(jobs, n) || (api.AddStored? && api.job.name == n))
    && (forall j :: j in jobs && j.source == "ui" ==> Reloads(defs, j) || api == RemoveDeleted(j.name))
  }

  ghost predicate Stored(config: seq<Job>, s: System) {
    && UniqueNames(s.shared.jobs)
    && ConfigOk(config, s.shared.jobs)
    && DefsOk(s.shared.jobs, s.defs, s.api)
    && ApiOk(s.shared.jobs, s.defs, s.api)
  }

  lemma UniqueMember(jobs: seq<Job>, i: Job, j: Job)
    requires UniqueNames(jobs) && i in jobs && j in jobs && i.name == j.name
    ensures i == j
  {
  }

  lemma {:induction false} ErasedUnique(jobs: seq<Job>, name: string)
    requires UniqueNames(jobs)
    ensures UniqueNames(Erased(jobs, name))
  {
    if jobs != [] {
      var front := Erased(jobs[..|jobs| - 1], name);
      ErasedUnique(jobs[..|jobs| - 1], name);
      forall i | 0 <= i < |front| ensures front[i].name != jobs[|jobs| - 1].name {
        assert front[i] in jobs[..|jobs| - 1];
      }
    }
  }

  lemma SnocUnique(jobs: seq<Job>, job: Job)
    requires UniqueNames(jobs) && !Known(jobs, job.name)
    ensures UniqueNames(jobs + [job])
  {
  }

  lemma AddCommitStored(config: seq<Job>, s: System, lt: LocalTime, now: int)
    requires Stored(config, s)
    ensures Stored(config, DoAddCommit(s, lt, now))
  {
  }

  lemma RemoveCommitStored(config: seq<Job>, s: System)
    requires Stored(config, s)
    ensures Stored(config, DoRemoveCommit(s))
  {
    if s.api.RemoveDeleted? {
      var jobs, name := s.shared.jobs, s.api.name;
      ErasedUnique(jobs, name);
      var ui :| ui in jobs && ui.name == name && ui.source == "ui";
      forall j | j in config ensures j in Erased(jobs, name) {
        if j.name == name {
          UniqueMember(jobs, ui, j);
          assert false;
        }
      }
      forall n | n in s.defs ensures Known(Erased(jobs, name), n) {
        assert Known(jobs, n);
        var j :| j in jobs && j.name == n;
        assert j in Erased(jobs, name);
      }
    }
  }

  lemma AddStoreStored(config: seq<Job>, s: System, ok: bool)
    requires Stored(config, s)
    ensures Stored(config, DoAddStore(s, ok))
  {
  }

  lemma AddCheckStored(config: seq<Job>, s: System, job: Job)
    requires Stored(config, s)
    ensures Stored(config, DoAddCheck(s, job))
  {
    JobReloadsIff(job.(source := "ui"));
    KnownIffFound(s.shared.jobs, job.name);
  }

  lemma CheckStored(config: seq<Job>, s: System, name: string)
    requires Stored(config, s)
    ensures Stored(config, DoRemoveCheck(s, name)) && Stored(config, DoRunCheck(s, name))
  {
  }

  lemma StepStored(config: seq<Job>, s: System, lt: LocalTime, step: Step)
    requires Stored(config, s)
    ensures Stored(config, Do(s, lt, step))
  {
    if MovesJobs(step) {
      match step
      case AddCheck(job) => AddCheckStored(config, s, job);
      case AddStore(ok) => AddStoreStored(config, s, ok);
      case AddCommit(now) => AddCommitStored(config, s, lt, now);
      case RemoveCheck(name) => CheckStored(config, s, name);
      case RemoveDelete(ok) => RemoveDeleteStored(config, s, ok);
      case RemoveCommit => RemoveCommitStored(config, s);
      case RunCheck(name) => CheckStored(config, s, name);
    } else {
      StepFrame(s, lt, step);
      SameStoreStored(config, s, Do(s, lt, step));
    }
  }

  lemma SameStoreStored(config: seq<Job>, s: System, t: System)
    requires Stored(config, s) && t.shared.jobs == s.shared.jobs && t.defs == s.defs
    requires t.api == s.api || (t.api == Idle && s.api.RunChecked?)
    ensures Stored(config, t)
  {
  }

  lemma RemoveDeleteStored(config: seq<Job>, s: System, ok: bool)
    requires Stored(config, s)
    ensures Stored(config, DoRemoveDelete(s, ok))
  {
  }

  // ----- Start-up and restart -----

  /** The jobs a restart builds: the configured ones and every definition not shadowed by them. */
  ghost predicate InRebuild(config: seq<Job>, defs: map<string, JobDef>, j: Job) {
    j in config || (j.name in defs && JobFromDef(defs[j.name]) == j && !Known(config, j.name))
  }

  lemma {:induction false} DefMapExact(stored: seq<JobDef>)
    requires DistinctDefs(stored)
    ensures forall n :: n in DefMap(stored) <==> exists i :: 0 <= i < |stored| && stored[i].name == n
    ensures forall i :: 0 <= i < |stored| ==> DefMap(stored)[stored[i].name] == stored[i]
  {
    if stored != [] {
      var front, last := stored[..|stored| - 1], stored[|stored| - 1];
      DefMapExact(front);
      assert forall i :: 0 <= i < |front| ==> stored[i] == front[i];
      assert stored[|front|] == last;
    }
  }

  lemma {:induction false} MergedExact(config: seq<Job>, stored: seq<JobDef>)
    requires UniqueNames(config) && DistinctDefs(stored)
    ensures UniqueNames(Merged(config, stored))
    ensures forall j :: j in Merged(config, stored) <==> InRebuild(config, DefMap(stored), j)
    ensures forall n :: Known(Merged(config, stored), n) <==> Known(config, n) || n in DefMap(stored)
  {
    if stored != [] {
      var front, d := stored[..|stored| - 1], stored[|stored| - 1];
      MergedExact(config, front);
      DefMapExact(front);
      var jobs := Merged(config, front);
      assert d.name !in DefMap(front) by {
        assert forall i :: 0 <= i < |front| ==> stored[i] == front[i];
      }
      KnownIffFound(jobs, d.name);
      if !Known(jobs, d.name) {
        SnocUnique(jobs, JobFromDef(d));
        MergeOne(jobs, JobFromDef(d));
      }
    }
  }

  lemma MergeOne(jobs: seq<Job>, job: Job)
    ensures forall j :: j in jobs + [job] <==> j in jobs || j == job
    ensures forall n :: Known(jobs + [job], n) <==> Known(jobs, n) || job.name == n
  {
  }

  lemma InitStored(u: Setup, lt: LocalTime)
    requires ValidSetup(u)
    ensures Stored(u.config, Init(u, lt))
  {
    MergedExact(u.config, u.stored);
    DefMapExact(u.stored);
    var jobs, defs := Merged(u.config, u.stored), DefMap(u.stored);
    forall j | j in jobs && j.source == "ui" ensures Reloads(defs, j) {
      assert InRebuild(u.config, defs, j);
    }
    assert forall j :: j in u.config ==> InRebuild(u.config, defs, j);
  }

  lemma {:induction false} RunStored(u: Setup, lt: LocalTime, steps: seq<Step>)
    requires ValidSetup(u)
    ensures Stored(u.config, Run(u, lt, steps))
  {
    if steps == [] {
      InitStored(u, lt);
    } else {
      var front := steps[..|steps| - 1];
      RunStored(u, lt, front);
      StepStored(u.config, Run(u, lt, front), lt, steps[|steps| - 1]);
    }
  }

  /** What a restart at this moment would differ in: nothing, unless the API thread is between
      the database write and the in-memory update of an add or a remove. */
  ghost predicate Survives(s: System, j: Job) {
    match s.api
    case AddStored(job) => j in s.shared.jobs || j == job
    case RemoveDeleted(name) => j in s.shared.jobs && j.name != name
    case _ => j in s.shared.jobs
  }

  lemma RebuiltIsKept(config: seq<Job>, s: System, j: Job)
    requires Stored(config, s) && InRebuild(config, s.defs, j)
    ensures Survives(s, j)
  {
  }

  lemma KeptIsRebuilt(config: seq<Job>, s: System, j: Job)
    requires Stored(config, s) && Survives(s, j)
    ensures InRebuild(config, s.defs, j)
  {
  }

  /** In every run - with any database failures - restarting from the same configuration and the
      persisted definitions, in whatever order they load, builds exactly the current jobs (up to
      an add or remove that is half done at that moment). */
  lemma RestartKeepsJobs(u: Setup, lt: LocalTime, steps: seq<Step>, reloaded: seq<JobDef>, j: Job)
    requires ValidSetup(u) && DistinctDefs(reloaded) && DefMap(reloaded) == Run(u, lt, steps).defs
    ensures j in Merged(u.config, reloaded) <==> Survives(Run(u, lt, steps), j)
  {
    var s := Run(u, lt, steps);
    RunStored(u, lt, steps);
    MergedExact(u.config, reloaded);
    if InRebuild(u.config, s.defs, j) { RebuiltIsKept(u.config, s, j); }
    if Survives(s, j) { KeptIsRebuilt(u.config, s, j); }
  }
}

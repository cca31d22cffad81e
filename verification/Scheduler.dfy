/** The scheduler object: its fields and, method by method, what each critical section does. */
module SchedulerObject {
  import opened Basics
  import opened Cron
  import opened CronParser
  import opened SchedulerModel

  /** One candidate of an uninterrupted missed-run scan. */
  ghost function ScannedOne(s: Shared, lt: LocalTime, now: int, job: Job): Shared {
    if job.schedule.None? then s
    else
      match MissedRun(job.schedule.value, lt, LastStart(s, job.name), now)
      case None => s
      case Some(occ) =>
        if Handled(s, job.name) >= occ then AfterClaim(s, job.name, occ)
        else AfterEnqueue(AfterClaim(s, job.name, occ), job.name, "missed")
  }

  ghost function Scanned(s: Shared, lt: LocalTime, now: int, jobs: seq<Job>): Shared {
    if jobs == [] then s else ScannedOne(Scanned(s, lt, now, jobs[..|jobs| - 1]), lt, now, jobs[|jobs| - 1])
  }

  lemma ScannedNext(s: Shared, lt: LocalTime, now: int, jobs: seq<Job>, i: nat)
    requires i < |jobs|
    ensures Scanned(s, lt, now, jobs[..i + 1]) == ScannedOne(Scanned(s, lt, now, jobs[..i]), lt, now, jobs[i])
  {
    assert jobs[..i + 1][..i] == jobs[..i];
  }

  datatype LaunchResult = LaunchResult(shared: Shared, aborted: bool)

  /** Launching a batch one by one, up to the first place that is taken. */
  function LaunchAll(s: Shared, batch: seq<Launch>): LaunchResult
    decreases |batch|
  {
    if batch == [] then LaunchResult(s, false)
    else if batch[0].job.name in s.running then LaunchResult(s, true)
    else LaunchAll(AfterLaunch(s, batch[0].job.name), batch[1..])
  }

  ghost function BeforeTick(s: Shared, wake: bool, scanNow: int, lt: LocalTime): Shared {
    if wake then Scanned(AfterReap(s), lt, scanNow, Candidates(s.jobs)) else AfterReap(s)
  }

  ghost function AfterTurn(s: Shared, wake: bool, scanNow: int, lt: LocalTime, now: int): LaunchResult {
    var before := BeforeTick(s, wake, scanNow, lt);
    LaunchAll(AfterTick(before, lt, now), TickBatch(before, lt, now))
  }

  lemma ScheduledSnoc(s: Shared, due: seq<Job>, job: Job)
    ensures Scheduled(s, due + [job]) == Scheduled(s, due) + if !IsRunning(s, job.name) then [Launch(job, None)] else []
  {
  }

  lemma DueStep(jobs: seq<Job>, i: nat, nextRun: map<string, int>, lt: LocalTime, now: int)
    requires i < |jobs|
    ensures var m, due := Advanced(jobs[..i], nextRun, lt, now), DueJobs(jobs[..i], nextRun, lt, now);
            if IsDue(jobs[i], m, now)
            then Advanced(jobs[..i + 1], nextRun, lt, now) == Rearmed(m, jobs[i], lt, now) &&
                 DueJobs(jobs[..i + 1], nextRun, lt, now) == due + [jobs[i]]
            else Advanced(jobs[..i + 1], nextRun, lt, now) == m && DueJobs(jobs[..i + 1], nextRun, lt, now) == due
  {
    assert jobs[..i + 1][..i] == jobs[..i];
  }

  lemma {:induction false} OnlyTasksMatter(s: Shared, t: Shared, due: seq<Job>)
    requires s.running == t.running && s.done == t.done
    ensures Scheduled(s, due) == Scheduled(t, due)
  {
    if due != [] {
      OnlyTasksMatter(s, t, due[..|due| - 1]);
    }
  }

  /** Builds a runtime job from a persisted definition. */
  method BuildJob(d: JobDef) returns (j: Job)
    ensures j == JobFromDef(d)
  {
    var schedule := None;
    if d.scheduleExpr != "" {
      schedule := Parse(d.scheduleExpr);
    }
    j := Job(d.name, d.command, schedule, d.scheduleExpr, PolicyFromText(d.policy), d.timeoutSeconds, d.retries, "ui");
  }

  /** Appends every definition whose name is not taken yet. */
  method MergeDefs(config: seq<Job>, stored: seq<JobDef>) returns (jobs: seq<Job>)
    ensures jobs == Merged(config, stored)
  {
    jobs := config;
    var i := 0;
    while i < |stored|
      invariant 0 <= i <= |stored| && jobs == Merged(config, stored[..i])
    {
      assert stored[..i + 1][..i] == stored[..i];
      if FindJob(jobs, stored[i].name).None? {
        var job := BuildJob(stored[i]);
        jobs := jobs + [job];
      }
      i := i + 1;
    }
    assert stored[..i] == stored;
  }

  /** The first run of every scheduled job that has one. */
  method ArmAll(jobs: seq<Job>, lt: LocalTime, now: int) returns (next: map<string, int>)
    ensures next == InitialNextRun(jobs, lt, now)
  {
    next := map[];
    var i := 0;
    while i < |jobs|
      invariant 0 <= i <= |jobs| && next == InitialNextRun(jobs[..i], lt, now)
    {
      assert jobs[..i + 1][..i] == jobs[..i];
      if jobs[i].schedule.Some? {
        var v := FindNext(jobs[i].schedule.value, lt, now);
        if v.Some? {
          next := next[jobs[i].name := v.value];
        }
      }
      i := i + 1;
    }
    assert jobs[..i] == jobs;
  }

  /** Keeps the jobs with another name, in order. */
  method EraseByName(jobs: seq<Job>, name: string) returns (kept: seq<Job>)
    ensures kept == Erased(jobs, name)
  {
    kept := [];
    var i := 0;
    while i < |jobs|
      invariant 0 <= i <= |jobs| && kept == Erased(jobs[..i], name)
    {
      assert jobs[..i + 1][..i] == jobs[..i];
      if jobs[i].name != name {
        kept := kept + [jobs[i]];
      }
      i := i + 1;
    }
    assert jobs[..i] == jobs;
  }

  class Scheduler {
    var jobs: seq<Job>
    var nextRun: map<string, int>
    var running: map<string, nat>
    var lastRuns: map<string, int>
    var missedHandled: map<string, int>
    var queue: seq<Request>
    var done: seq<bool>
    var owner: seq<string>
    var issued: nat
    var defs: map<string, JobDef>
    var aborted: bool

    ghost function View(): Shared
      reads this
    {
      Shared(jobs, nextRun, running, lastRuns, missedHandled, queue, done, owner, issued)
    }

    /** Merges the persisted definitions behind the configured jobs and arms the schedules. */
    constructor (config: seq<Job>, stored: seq<JobDef>, pastRuns: map<string, int>, lt: LocalTime, now: int)
      ensures View() == InitialShared(config, stored, pastRuns, lt, now) && defs == DefMap(stored) && !aborted
    {
      var merged := MergeDefs(config, stored);
      var next := ArmAll(merged, lt, now);
      jobs, nextRun, running, missedHandled := merged, next, map[], map[];
      lastRuns := map n | n in pastRuns && FindJob(merged, n).Some? :: pastRuns[n];
      queue, done, owner, issued := [], [], [], 0;
      defs, aborted := DefMap(stored), false;
    }

    method Enqueue(name: string, trigger: string)
      modifies this`queue, this`issued
      ensures View() == AfterEnqueue(old(View()), name, trigger)
      ensures queue == old(queue) + [Request(name, trigger, old(issued))]
    {
      queue := queue + [Request(name, trigger, issued)];
      issued := issued + 1;
    }

    method RequestRun(name: string) returns (accepted: bool)
      modifies this`queue, this`issued
      ensures accepted <==> FindJob(jobs, name).Some?
      ensures View() == if accepted then AfterEnqueue(old(View()), name, "manual") else old(View())
    {
      if FindJob(jobs, name).None? {
        return false;
      }
      Enqueue(name, "manual");
      return true;
    }

    /** Adds a UI-managed job; `dbOk` is whether the database accepts the definition. */
    method AddJob(job: Job, dbOk: bool, lt: LocalTime, now: int) returns (error: string)
      modifies this`jobs, this`nextRun, this`defs
      ensures error == "" <==> job.name != "" && job.command != "" && FindJob(old(jobs), job.name).None? && dbOk
      ensures error == "" ==> View() == AfterAdd(old(View()), job.(source := "ui"), lt, now) &&
                              defs == old(defs)[job.name := DefFromJob(job.(source := "ui"))]
      ensures error != "" ==> View() == old(View()) && defs == old(defs)
    {
      if job.name == "" {
        return "job name is required";
      }
      if job.command == "" {
        return "job command is required";
      }
      if FindJob(jobs, job.name).Some? {
        return "a job named '" + job.name + "' already exists";
      }
      var stored := job.(source := "ui");
      if !dbOk {
        return "could not persist job";
      }
      defs := defs[stored.name := DefFromJob(stored)];
      jobs := jobs + [stored];
      if stored.schedule.Some? {
        var next := FindNext(stored.schedule.value, lt, now);
        if next.Some? {
          nextRun := nextRun[stored.name := next.value];
        }
      }
      return "";
    }

    /** Removes a UI-managed job; configured jobs are refused. */
    method RemoveJob(name: string, dbOk: bool) returns (error: string)
      modifies this`jobs, this`nextRun, this`lastRuns, this`missedHandled, this`defs
      ensures error == "" <==>
              FindJob(old(jobs), name).Some? && FindJob(old(jobs), name).value.source == "ui" && dbOk
      ensures error == "" ==> View() == AfterRemove(old(View()), name) && defs == old(defs) - {name}
      ensures error != "" ==> View() == old(View()) && defs == old(defs)
    {
      var job := FindJob(jobs, name);
      if job.None? {
        return "no such job: '" + name + "'";
      }
      if job.value.source != "ui" {
        return "job '" + name + "' is defined in config.yaml";
      }
      if !dbOk {
        return "could not delete job";
      }
      defs := defs - {name};
      Forget(name);
      return "";
    }

    method Forget(name: string)
      modifies this`jobs, this`nextRun, this`lastRuns, this`missedHandled
      ensures View() == AfterRemove(old(View()), name)
      ensures forall j :: j in jobs <==> j in old(jobs) && j.name != name
      ensures nextRun == old(nextRun) - {name} && lastRuns == old(lastRuns) - {name}
      ensures missedHandled == old(missedHandled) - {name}
    {
      jobs := EraseByName(jobs, name);
      nextRun, lastRuns, missedHandled := nextRun - {name}, lastRuns - {name}, missedHandled - {name};
    }

    /** First half of a tick: the queue. */
    method TakeQueue() returns (batch: seq<Launch>)
      modifies this`queue
      ensures batch == Dequeued(old(View()), old(queue))
      ensures View() == old(View()).(queue := Deferred(old(View()), old(queue)))
    {
      ghost var s := View();
      batch := [];
      var deferred: seq<Request> := [];
      var i := 0;
      while i < |queue|
        invariant 0 <= i <= |queue| && View() == s
        invariant deferred == Deferred(s, queue[..i]) && batch == Dequeued(s, queue[..i])
      {
        assert queue[..i + 1][..i] == queue[..i];
        var r := queue[i];
        var job := FindJob(jobs, r.name);
        i := i + 1;
        if job.None? {
          continue;
        }
        if IsLive(r.name) {
          deferred := deferred + [r];
        } else {
          batch := batch + [Launch(job.value, Some(r))];
        }
      }
      assert queue[..i] == queue;
      queue := deferred;
    }

    predicate IsLive(name: string)
      reads this
    {
      name in running && running[name] < |done| && !done[running[name]]
    }

    /** Second half of a tick: the due schedules. */
    method TakeDue(lt: LocalTime, now: int) returns (batch: seq<Launch>)
      modifies this`nextRun
      ensures batch == Scheduled(old(View()), DueJobs(jobs, old(nextRun), lt, now))
      ensures nextRun == Advanced(jobs, old(nextRun), lt, now)
    {
      ghost var s := View();
      batch := [];
      var i := 0;
      while i < |jobs|
        invariant 0 <= i <= |jobs|
        invariant nextRun == Advanced(jobs[..i], s.nextRun, lt, now)
        invariant batch == Scheduled(s, DueJobs(jobs[..i], s.nextRun, lt, now))
      {
        DueStep(jobs, i, s.nextRun, lt, now);
        ScheduledSnoc(s, DueJobs(jobs[..i], s.nextRun, lt, now), jobs[i]);
        var due := TakeIfDue(jobs[i], lt, now);
        if due && !IsLive(jobs[i].name) {
          batch := batch + [Launch(jobs[i], None)];
        }
        i := i + 1;
      }
      assert jobs[..i] == jobs;
    }

    /** Advances the job's next run if it has come. */
    method TakeIfDue(job: Job, lt: LocalTime, now: int) returns (due: bool)
      modifies this`nextRun
      ensures due <==> IsDue(job, old(nextRun), now)
      ensures nextRun == if due then Rearmed(old(nextRun), job, lt, now) else old(nextRun)
    {
      if job.schedule.None? || job.name !in nextRun || nextRun[job.name] > now {
        return false;
      }
      var next := FindNext(job.schedule.value, lt, now);
      if next.Some? {
        nextRun := nextRun[job.name := next.value];
      } else {
        nextRun := nextRun - {job.name};
      }
      return true;
    }

    /** One tick of the loop: the queued requests first, then the due schedules. */
    method Tick(lt: LocalTime, now: int) returns (batch: seq<Launch>)
      modifies this`queue, this`nextRun
      ensures View() == AfterTick(old(View()), lt, now)
      ensures batch == TickBatch(old(View()), lt, now)
    {
      ghost var s := View();
      var queued := TakeQueue();
      var due := TakeDue(lt, now);
      OnlyTasksMatter(s, s.(queue := queue), DueJobs(s.jobs, s.nextRun, lt, now));
      batch := queued + due;
    }

    /** Starts a worker. An entry still in `running_` owns an unjoined thread: storing the new entry
        over it destroys that thread, which ends the process. */
    method StartTask(job: Job)
      modifies this`running, this`done, this`owner, this`aborted
      ensures aborted == (old(aborted) || job.name in old(running))
      ensures View() == if job.name in old(running) then old(View()) else AfterLaunch(old(View()), job.name)
      ensures job.name !in old(running) ==>
                running == old(running)[job.name := |old(done)|] && done == old(done) + [false] &&
                owner == old(owner) + [job.name]
    {
      if job.name in running {
        aborted := true;
        return;
      }
      running := running[job.name := |done|];
      done, owner := done + [false], owner + [job.name];
    }

    /** One turn of the loop: reap, scan after a wake, tick, and launch the batch. */
    method Turn(wake: bool, scanNow: int, lt: LocalTime, now: int)
      requires !aborted
      modifies this`running, this`queue, this`issued, this`missedHandled, this`nextRun, this`done, this`owner, this`aborted
      ensures LaunchResult(View(), aborted) == AfterTurn(old(View()), wake, scanNow, lt, now)
    {
      ReapAndScan(wake, scanNow, lt);
      var batch := Tick(lt, now);
      LaunchBatch(batch);
    }

    method ReapAndScan(wake: bool, scanNow: int, lt: LocalTime)
      modifies this`running, this`queue, this`issued, this`missedHandled
      ensures View() == BeforeTick(old(View()), wake, scanNow, lt)
    {
      ReapFinished();
      if wake {
        ScanMissed(lt, scanNow);
      }
    }

    method LaunchBatch(batch: seq<Launch>)
      requires !aborted
      modifies this`running, this`done, this`owner, this`aborted
      ensures LaunchResult(View(), aborted) == LaunchAll(old(View()), batch)
    {
      var i := 0;
      while i < |batch| && !aborted
        invariant 0 <= i <= |batch|
        invariant LaunchAll(old(View()), batch) ==
                  if aborted then LaunchResult(View(), true) else LaunchAll(View(), batch[i..])
      {
        assert batch[i..][1..] == batch[i + 1..];
        StartTask(batch[i].job);
        i := i + 1;
      }
    }

    /** A worker signals completion. */
    method FinishTask(id: nat)
      modifies this`done
      ensures View() == AfterFinish(old(View()), id)
      ensures |done| == |old(done)| && forall i :: 0 <= i < |done| ==> done[i] == (old(done)[i] || i == id)
    {
      if id < |done| {
        done := done[id := true];
      }
    }

    /** A worker records the start of its latest attempt, also when its job is gone by now. */
    method RecordRun(id: nat, startedAt: int)
      modifies this`lastRuns
      ensures View() == if id < |owner| && id < |done| && !done[id] then AfterRecord(old(View()), owner[id], startedAt)
                        else old(View())
      ensures id < |owner| && id < |done| && !done[id] ==> lastRuns == old(lastRuns)[owner[id] := startedAt]
    {
      if id < |owner| && id < |done| && !done[id] {
        lastRuns := lastRuns[owner[id] := startedAt];
      }
    }

    /** Drops the tasks that have signalled completion. */
    method ReapFinished()
      modifies this`running
      ensures View() == AfterReap(old(View()))
      ensures forall n :: n in running <==> n in old(running) && old(running)[n] < |done| && !done[old(running)[n]]
      ensures forall n :: n in running ==> running[n] == old(running)[n]
    {
      var kept: map<string, nat> := map[];
      var names := running.Keys;
      while names != {}
        invariant names <= running.Keys
        invariant kept == map n | n in running && n !in names && IsRunning(View(), n) :: running[n]
        decreases |names|
      {
        var n :| n in names;
        names := names - {n};
        if IsLive(n) {
          kept := kept[n := running[n]];
        }
      }
      running := kept;
    }

    /** An uninterrupted missed-run scan. */
    method ScanMissed(lt: LocalTime, now: int)
      modifies this`queue, this`issued, this`missedHandled
      ensures View() == Scanned(old(View()), lt, now, Candidates(old(jobs)))
    {
      var candidates := Candidates(jobs);
      assert forall i :: 0 <= i < |candidates| ==> candidates[i] in candidates;
      var i := 0;
      while i < |candidates|
        invariant 0 <= i <= |candidates|
        invariant View() == Scanned(old(View()), lt, now, candidates[..i])
      {
        ScannedNext(old(View()), lt, now, candidates, i);
        ScanOne(candidates[i], lt, now);
        i := i + 1;
      }
      assert candidates[..i] == candidates;
    }

    method ScanOne(job: Job, lt: LocalTime, now: int)
      requires job.schedule.Some?
      modifies this`queue, this`issued, this`missedHandled
      ensures View() == ScannedOne(old(View()), lt, now, job)
    {
      var lastRun := if job.name in lastRuns then lastRuns[job.name] else 0;
      var missed := DetectMissedRun(job.schedule.value, lt, lastRun, now);
      if missed.None? {
        return;
      }
      var handled := if job.name in missedHandled then missedHandled[job.name] else 0;
      if handled >= missed.value {
        missedHandled := missedHandled[job.name := handled];
        return;
      }
      missedHandled := missedHandled[job.name := missed.value];
      Enqueue(job.name, "missed");
    }
  }
}

/** The scheduler's data and the effect of each of its critical sections, as functions. */
module SchedulerModel {
  import opened Basics
  import opened Cron
  import opened CronParser

  datatype MissedRunPolicy = Ignore | RunOnWake | RunNow

  datatype Job = Job(name: string, command: string, schedule: Option<CronSchedule>, scheduleExpr: string,
                     policy: MissedRunPolicy, timeoutSeconds: int, retries: int, source: string)

  /** A persisted definition of a UI-managed job. */
  datatype JobDef = JobDef(name: string, command: string, scheduleExpr: string, policy: string,
                           timeoutSeconds: int, retries: int)

  function PolicyText(p: MissedRunPolicy): string {
    match p
    case Ignore => "none"
    case RunOnWake => "run_on_wake"
    case RunNow => "run_now"
  }

  function PolicyFromText(s: string): MissedRunPolicy {
    if s == "run_on_wake" then RunOnWake else if s == "run_now" then RunNow else Ignore
  }

  /** The schedule a job with this text has: none for an empty or malformed text. */
  ghost function ScheduleOf(expr: string): Option<CronSchedule> {
    if expr == "" then None else ExpressionValue(expr)
  }

  ghost function JobFromDef(d: JobDef): Job {
    Job(d.name, d.command, ScheduleOf(d.scheduleExpr), d.scheduleExpr, PolicyFromText(d.policy), d.timeoutSeconds,
        d.retries, "ui")
  }

  function DefFromJob(j: Job): JobDef {
    JobDef(j.name, j.command, j.scheduleExpr, PolicyText(j.policy), j.timeoutSeconds, j.retries)
  }

  /** A queued run request; `serial` numbers the accepted requests. */
  datatype Request = Request(name: string, trigger: string, serial: nat)

  /** An entry of a tick's batch: a queued request, or a due schedule when there is none. */
  datatype Launch = Launch(job: Job, origin: Option<Request>)

  /** Everything the scheduler's mutex guards. Tasks are numbered in order of creation; `done`
      and `owner` hold each task's completion flag and job name. `issued` counts requests. */
  datatype Shared = Shared(jobs: seq<Job>, nextRun: map<string, int>, running: map<string, nat>,
                           lastRuns: map<string, int>, missedHandled: map<string, int>, queue: seq<Request>,
                           done: seq<bool>, owner: seq<string>, issued: nat)

  function FindJob(jobs: seq<Job>, name: string): (r: Option<Job>)
    ensures r.Some? ==> r.value in jobs && r.value.name == name
    ensures r.None? ==> forall j :: j in jobs ==> j.name != name
  {
    if jobs == [] then None
    else if jobs[0].name == name then Some(jobs[0])
    else FindJob(jobs[1..], name)
  }

  predicate IsRunning(s: Shared, name: string) {
    name in s.running && s.running[name] < |s.done| && !s.done[s.running[name]]
  }

  // ----- One tick -----

  predicate Ready(s: Shared, name: string) {
    FindJob(s.jobs, name).Some? && !IsRunning(s, name)
  }

  /** Requests of `q` that stay queued, those that are launched and those dropped, in order. */
  function Deferred(s: Shared, q: seq<Request>): seq<Request> {
    if q == [] then []
    else
      var r := q[|q| - 1];
      Deferred(s, q[..|q| - 1]) + if FindJob(s.jobs, r.name).Some? && IsRunning(s, r.name) then [r] else []
  }

  function Dequeued(s: Shared, q: seq<Request>): seq<Launch> {
    if q == [] then []
    else
      var r := q[|q| - 1];
      Dequeued(s, q[..|q| - 1]) + if Ready(s, r.name) then [Launch(FindJob(s.jobs, r.name).value, Some(r))] else []
  }

  function Dropped(s: Shared, q: seq<Request>): seq<Request> {
    if q == [] then []
    else
      var r := q[|q| - 1];
      Dropped(s, q[..|q| - 1]) + if FindJob(s.jobs, r.name).None? then [r] else []
  }

  predicate IsDue(job: Job, nextRun: map<string, int>, now: int) {
    job.schedule.Some? && job.name in nextRun && nextRun[job.name] <= now
  }

  /** Stores the next occurrence after `now`, or forgets the job when there is none. */
  ghost function Rearmed(nextRun: map<string, int>, job: Job, lt: LocalTime, now: int): map<string, int>
    requires job.schedule.Some?
  {
    match NextAfter(job.schedule.value, lt, now)
    case Some(v) => nextRun[job.name := v]
    case None => nextRun - {job.name}
  }

  /** `next_run_` after the pass over `jobs`. */
  ghost function Advanced(jobs: seq<Job>, nextRun: map<string, int>, lt: LocalTime, now: int): map<string, int> {
    if jobs == [] then nextRun
    else
      var m := Advanced(jobs[..|jobs| - 1], nextRun, lt, now);
      var job := jobs[|jobs| - 1];
      if IsDue(job, m, now) then Rearmed(m, job, lt, now) else m
  }

  /** The jobs that pass finds due, and those of them it launches. */
  ghost function DueJobs(jobs: seq<Job>, nextRun: map<string, int>, lt: LocalTime, now: int): seq<Job> {
    if jobs == [] then []
    else
      var job := jobs[|jobs| - 1];
      var front := jobs[..|jobs| - 1];
      DueJobs(front, nextRun, lt, now) + if IsDue(job, Advanced(front, nextRun, lt, now), now) then [job] else []
  }

  function Scheduled(s: Shared, due: seq<Job>): seq<Launch> {
    if due == [] then []
    else
      var job := due[|due| - 1];
      Scheduled(s, due[..|due| - 1]) + if !IsRunning(s, job.name) then [Launch(job, None)] else []
  }

  ghost function TickBatch(s: Shared, lt: LocalTime, now: int): seq<Launch> {
    Dequeued(s, s.queue) + Scheduled(s, DueJobs(s.jobs, s.nextRun, lt, now))
  }

  ghost function AfterTick(s: Shared, lt: LocalTime, now: int): Shared {
    s.(queue := Deferred(s, s.queue), nextRun := Advanced(s.jobs, s.nextRun, lt, now))
  }

  // ----- The other critical sections -----

  function AfterLaunch(s: Shared, name: string): Shared {
    s.(running := s.running[name := |s.done|], done := s.done + [false], owner := s.owner + [name])
  }

  function AfterFinish(s: Shared, id: nat): Shared {
    if id < |s.done| then s.(done := s.done[id := true]) else s
  }

  function AfterReap(s: Shared): Shared {
    s.(running := map n | n in s.running && IsRunning(s, n) :: s.running[n])
  }

  function AfterRecord(s: Shared, name: string, startedAt: int): Shared {
    s.(lastRuns := s.lastRuns[name := startedAt])
  }

  function AfterEnqueue(s: Shared, name: string, trigger: string): Shared {
    s.(queue := s.queue + [Request(name, trigger, s.issued)], issued := s.issued + 1)
  }

  ghost function Armed(nextRun: map<string, int>, job: Job, lt: LocalTime, now: int): map<string, int> {
    if job.schedule.None? then nextRun
    else
      match NextAfter(job.schedule.value, lt, now)
      case Some(v) => nextRun[job.name := v]
      case None => nextRun
  }

  ghost function AfterAdd(s: Shared, job: Job, lt: LocalTime, now: int): Shared {
    s.(jobs := s.jobs + [job], nextRun := Armed(s.nextRun, job, lt, now))
  }

  function Erased(jobs: seq<Job>, name: string): (r: seq<Job>)
    ensures forall j :: j in r <==> j in jobs && j.name != name
  {
    if jobs == [] then []
    else
      var last := jobs[|jobs| - 1];
      assert jobs == jobs[..|jobs| - 1] + [last];
      Erased(jobs[..|jobs| - 1], name) + if last.name != name then [last] else []
  }

  function AfterRemove(s: Shared, name: string): Shared {
    s.(jobs := Erased(s.jobs, name), nextRun := s.nextRun - {name}, lastRuns := s.lastRuns - {name},
       missedHandled := s.missedHandled - {name})
  }

  /** Jobs a missed-run scan looks at. */
  function Candidates(jobs: seq<Job>): (r: seq<Job>)
    ensures forall j :: j in r <==> j in jobs && j.schedule.Some? && j.policy != Ignore
  {
    if jobs == [] then []
    else
      var last := jobs[|jobs| - 1];
      assert jobs == jobs[..|jobs| - 1] + [last];
      Candidates(jobs[..|jobs| - 1]) + if last.schedule.Some? && last.policy != Ignore then [last] else []
  }

  function LastStart(s: Shared, name: string): int {
    if name in s.lastRuns then s.lastRuns[name] else 0
  }

  function Handled(s: Shared, name: string): int {
    if name in s.missedHandled then s.missedHandled[name] else 0
  }

  /** The claim of an occurrence; looking the mark up creates it with value 0. */
  function AfterClaim(s: Shared, name: string, occurrence: int): Shared {
    s.(missedHandled :=
         s.missedHandled[name := if Handled(s, name) >= occurrence then Handled(s, name) else occurrence])
  }

  // ----- Start-up -----

  /** Merges persisted definitions behind the configured jobs, which win on a name clash. */
  ghost function Merged(config: seq<Job>, defs: seq<JobDef>): seq<Job> {
    if defs == [] then config
    else
      var jobs := Merged(config, defs[..|defs| - 1]);
      var d := defs[|defs| - 1];
      if FindJob(jobs, d.name).None? then jobs + [JobFromDef(d)] else jobs
  }

  /** The job_defs table with these rows, keyed by name. */
  function DefMap(stored: seq<JobDef>): map<string, JobDef> {
    if stored == [] then map[] else DefMap(stored[..|stored| - 1])[stored[|stored| - 1].name := stored[|stored| - 1]]
  }

  ghost function InitialNextRun(jobs: seq<Job>, lt: LocalTime, now: int): map<string, int> {
    if jobs == [] then map[]
    else Armed(InitialNextRun(jobs[..|jobs| - 1], lt, now), jobs[|jobs| - 1], lt, now)
  }

  /** `pastRuns` gives the last recorded start of every job name the database knows. */
  ghost function InitialShared(config: seq<Job>, defs: seq<JobDef>, pastRuns: map<string, int>, lt: LocalTime,
                               now: int): Shared {
    var jobs := Merged(config, defs);
    var lastRuns := map n | n in pastRuns && FindJob(jobs, n).Some? :: pastRuns[n];
    Shared(jobs, InitialNextRun(jobs, lt, now), map[], lastRuns, map[], [], [], [], 0)
  }

  ghost predicate UniqueNames(jobs: seq<Job>) {
    forall i, j :: 0 <= i < j < |jobs| ==> jobs[i].name != jobs[j].name
  }

  ghost predicate DistinctDefs(stored: seq<JobDef>) {
    forall i, j :: 0 <= i < j < |stored| ==> stored[i].name != stored[j].name
  }

  /** A definition made from a job reloads to the same job exactly when the job is UI-managed and
      its schedule is the one its text denotes. */
  lemma JobReloadsIff(j: Job)
    ensures JobFromDef(DefFromJob(j)) == j <==> j.source == "ui" && j.schedule == ScheduleOf(j.scheduleExpr)
  {
  }

  /** A job made from a definition, field by field. */
  lemma DefinedJob(d: JobDef)
    ensures var j := JobFromDef(d);
            && j.name == d.name && j.command == d.command && j.scheduleExpr == d.scheduleExpr && j.source == "ui"
            && j.timeoutSeconds == d.timeoutSeconds && j.retries == d.retries
            && (j.schedule == if d.scheduleExpr == "" then None else ExpressionValue(d.scheduleExpr))
            && (j.policy == RunOnWake <==> d.policy == "run_on_wake") && (j.policy == RunNow <==> d.policy == "run_now")
  {
  }

  /** A definition made from a job, field by field. */
  lemma PersistedJob(j: Job)
    ensures var d := DefFromJob(j);
            && d.name == j.name && d.command == j.command && d.scheduleExpr == j.scheduleExpr
            && d.timeoutSeconds == j.timeoutSeconds && d.retries == j.retries
            && (d.policy == "run_on_wake" <==> j.policy == RunOnWake) && (d.policy == "run_now" <==> j.policy == RunNow)
            && (d.policy == "none" <==> j.policy == Ignore)
  {
  }
}

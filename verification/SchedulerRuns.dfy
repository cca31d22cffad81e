/** All interleavings of the scheduler's threads: the loop, workers, the API thread and the two
    missed-run scanners, one critical section per step. */
module SchedulerRuns {
  import opened Basics
  import opened Cron
  import opened SchedulerModel

  /** Where the (single) API thread is inside add_job, remove_job or request_run. */
  datatype Api =
    | Idle
    | AddChecked(job: Job) | AddStored(job: Job)
    | RemoveChecked(name: string) | RemoveDeleted(name: string)
    | RunChecked(name: string)

  /** Where a missed-run scan is. `index` candidates are finished, `read` holds the last starts
      read so far, and `removed` the names removed since the scan began (a history). */
  datatype Scanner =
    | Resting
    | Scanning(now: int, candidates: seq<Job>, index: nat, read: seq<int>, phase: Phase, removed: set<string>)

  datatype Phase = ToRead | ToClaim(occurrence: int) | ToEnqueue(occurrence: int)

  datatype Who = Starter | Looper

  datatype Claim = Claim(name: string, occurrence: int)

  /** A claim together with the run request it put into the queue. */
  datatype Recovery = Recovery(claim: Claim, request: Request)

  /** What has happened so far: when each job's next run was last computed, the starts recorded per
      name since it was last removed, the requests accepted, launched and dropped, the occurrences
      claimed per job since it was last removed, all claims made, and those enqueued with their
      requests. */
  datatype History = History(armedAt: map<string, int>, starts: map<string, seq<int>>, accepted: multiset<Request>, launched: multiset<Request>,
                             dropped: multiset<Request>, claims: map<string, seq<int>>, claimed: multiset<Claim>,
                             recovered: seq<Recovery>)

  /** `batch` is the loop thread's list of runs still to launch; `defs` the persisted definitions;
      `aborted` is set once the process has called std::terminate. */
  datatype System = System(shared: Shared, batch: seq<Launch>, api: Api, starter: Scanner, looper: Scanner,
                           defs: map<string, JobDef>, past: History, aborted: bool)

  datatype Step =
    | Tick(now: int) | LaunchNext | Reap
    | Finish(id: nat) | Record(id: nat, startedAt: int)
    | AddCheck(job: Job) | AddStore(ok: bool) | AddCommit(now: int)
    | RemoveCheck(name: string) | RemoveDelete(ok: bool) | RemoveCommit
    | RunCheck(name: string) | RunEnqueue
    | ScanStart(who: Who, now: int) | ScanRead(who: Who) | ScanClaim(who: Who) | ScanEnqueue(who: Who)

  function ScannerOf(s: System, who: Who): Scanner {
    if who == Starter then s.starter else s.looper
  }

  function WithScanner(s: System, who: Who, c: Scanner): System {
    s.(starter := if who == Starter then c else s.starter, looper := if who == Looper then c else s.looper)
  }

  /** The request to add a job as the API builds it: name, command, and the schedule its text denotes. */
  ghost predicate ApiJob(job: Job) {
    job.name != "" && job.command != "" && job.schedule == ScheduleOf(job.scheduleExpr)
  }

  function Requests(batch: seq<Launch>): multiset<Request> {
    if batch == [] then multiset{}
    else Requests(batch[..|batch| - 1]) + Own(batch[|batch| - 1])
  }

  function Own(l: Launch): multiset<Request> {
    if l.origin.Some? then multiset{l.origin.value} else multiset{}
  }

  function Forget(c: Scanner, name: string): Scanner {
    if c.Resting? then c else c.(removed := c.removed + {name})
  }

  /** The scan is over its current candidate. */
  function NextCandidate(c: Scanner): Scanner
    requires c.Scanning?
  {
    c.(index := c.index + 1, phase := ToRead)
  }

  // ----- The loop thread and the workers -----

  ghost function DoTick(s: System, lt: LocalTime, now: int): System {
    if s.batch != [] || now < 0 then s
    else
      var sh := s.shared;
      s.(shared := AfterTick(sh, lt, now), batch := TickBatch(sh, lt, now),
         past := s.past.(dropped := s.past.dropped + multiset(Dropped(sh, sh.queue)),
                         armedAt := Rearm(s.past.armedAt, DueJobs(sh.jobs, sh.nextRun, lt, now), now)))
  }

  function Rearm(armedAt: map<string, int>, due: seq<Job>, now: int): map<string, int> {
    map n | n in armedAt :: if exists j :: j in due && j.name == n then now else armedAt[n]
  }

  /** A launch stores the new entry over whatever `running_` holds for the name. An entry that is
      still there, finished or not, owns an unjoined thread, and destroying that ends the process. */
  function DoLaunch(s: System): System {
    if s.batch == [] then s
    else if s.batch[0].job.name in s.shared.running then s.(aborted := true)
    else
      s.(shared := AfterLaunch(s.shared, s.batch[0].job.name), batch := s.batch[1..],
         past := s.past.(launched := s.past.launched + Own(s.batch[0])))
  }

  function DoReap(s: System): System {
    if s.batch != [] then s else s.(shared := AfterReap(s.shared))
  }

  function DoRecord(s: System, id: nat, startedAt: int): System {
    if id < |s.shared.owner| && id < |s.shared.done| && !s.shared.done[id] then
      s.(shared := AfterRecord(s.shared, s.shared.owner[id], startedAt),
         past := s.past.(starts := s.past.starts[s.shared.owner[id] :=
                                     StartsOf(s.past, s.shared.owner[id]) + [startedAt]]))
    else s
  }

  function StartsOf(h: History, name: string): seq<int> {
    if name in h.starts then h.starts[name] else []
  }

  // ----- The API thread -----

  ghost function DoAddCheck(s: System, job: Job): System {
    if s.api.Idle? && ApiJob(job) && FindJob(s.shared.jobs, job.name).None?
    then s.(api := AddChecked(job.(source := "ui"))) else s
  }

  function DoAddStore(s: System, ok: bool): System {
    if !s.api.AddChecked? then s
    else if ok then s.(api := AddStored(s.api.job), defs := s.defs[s.api.job.name := DefFromJob(s.api.job)])
    else s.(api := Idle)
  }

  ghost function DoAddCommit(s: System, lt: LocalTime, now: int): System {
    if !s.api.AddStored? || now < 0 then s
    else
      s.(api := Idle, shared := AfterAdd(s.shared, s.api.job, lt, now),
         past := s.past.(armedAt := s.past.armedAt[s.api.job.name := now]))
  }

  function DoRemoveCheck(s: System, name: string): System {
    var job := FindJob(s.shared.jobs, name);
    if s.api.Idle? && job.Some? && job.value.source == "ui" then s.(api := RemoveChecked(name)) else s
  }

  function DoRemoveDelete(s: System, ok: bool): System {
    if !s.api.RemoveChecked? then s
    else if ok then s.(api := RemoveDeleted(s.api.name), defs := s.defs - {s.api.name})
    else s.(api := Idle)
  }

  function DoRemoveCommit(s: System): System {
    if !s.api.RemoveDeleted? then s
    else
      var n := s.api.name;
      s.(api := Idle, shared := AfterRemove(s.shared, n), starter := Forget(s.starter, n),
         looper := Forget(s.looper, n), past := s.past.(claims := s.past.claims - {n}, starts := s.past.starts - {n}))
  }

  function DoRunCheck(s: System, name: string): System {
    if s.api.Idle? && FindJob(s.shared.jobs, name).Some? then s.(api := RunChecked(name)) else s
  }

  function Accept(s: System, name: string, trigger: string): System {
    s.(shared := AfterEnqueue(s.shared, name, trigger),
       past := s.past.(accepted := s.past.accepted + multiset{Request(name, trigger, s.shared.issued)}))
  }

  function DoRunEnqueue(s: System): System {
    if !s.api.RunChecked? then s else Accept(s, s.api.name, "manual").(api := Idle)
  }

  // ----- The missed-run scanners -----

  function DoScanStart(s: System, who: Who, now: int): System {
    if !ScannerOf(s, who).Resting? || now < 0 then s
    else WithScanner(s, who, Scanning(now, Candidates(s.shared.jobs), 0, [], ToRead, {}))
  }

  /** Reads the candidate's last start and looks for a missed occurrence. */
  ghost function AfterRead(sh: Shared, lt: LocalTime, c: Scanner): Scanner
    requires c.Scanning? && c.index < |c.candidates|
  {
    var job := c.candidates[c.index];
    var last := LastStart(sh, job.name);
    var c' := c.(read := c.read + [last]);
    var missed := if job.schedule.Some? then MissedRun(job.schedule.value, lt, last, c.now) else None;
    if missed.None? then NextCandidate(c') else c'.(phase := ToClaim(missed.value))
  }

  /** At the end of the list the scan is over. */
  ghost function DoScanRead(s: System, lt: LocalTime, who: Who): System {
    var c := ScannerOf(s, who);
    if !c.Scanning? || !c.phase.ToRead? then s
    else WithScanner(s, who, if c.index >= |c.candidates| then Resting else AfterRead(s.shared, lt, c))
  }

  function ClaimsOf(h: History, name: string): seq<int> {
    if name in h.claims then h.claims[name] else []
  }

  function WithClaim(h: History, claim: Claim): History {
    h.(claims := h.claims[claim.name := ClaimsOf(h, claim.name) + [claim.occurrence]],
       claimed := h.claimed + multiset{claim})
  }

  function DoScanClaim(s: System, who: Who): System {
    var c := ScannerOf(s, who);
    if !c.Scanning? || !c.phase.ToClaim? || c.index >= |c.candidates| then s
    else
      var name, occ := c.candidates[c.index].name, c.phase.occurrence;
      var wins := Handled(s.shared, name) < occ;
      WithScanner(s.(shared := AfterClaim(s.shared, name, occ),
                     past := if wins then WithClaim(s.past, Claim(name, occ)) else s.past),
                  who, if wins then c.(phase := ToEnqueue(occ)) else NextCandidate(c))
  }

  function WithRecovery(h: History, claim: Claim, request: Request): History {
    h.(accepted := h.accepted + multiset{request}, recovered := h.recovered + [Recovery(claim, request)])
  }

  function DoScanEnqueue(s: System, who: Who): System {
    var c := ScannerOf(s, who);
    if !c.Scanning? || !c.phase.ToEnqueue? || c.index >= |c.candidates| then s
    else
      var name := c.candidates[c.index].name;
      WithScanner(s.(shared := AfterEnqueue(s.shared, name, "missed"),
                     past := WithRecovery(s.past, Claim(name, c.phase.occurrence),
                                          Request(name, "missed", s.shared.issued))),
                  who, NextCandidate(c))
  }

  // ----- Runs -----

  /** One step of any thread; a step that the thread cannot take does nothing. */
  ghost function Act(s: System, lt: LocalTime, step: Step): System {
    match step
    case Tick(now) => DoTick(s, lt, now)
    case LaunchNext => DoLaunch(s)
    case Reap => DoReap(s)
    case Finish(id) => s.(shared := AfterFinish(s.shared, id))
    case Record(id, startedAt) => DoRecord(s, id, startedAt)
    case AddCheck(job) => DoAddCheck(s, job)
    case AddStore(ok) => DoAddStore(s, ok)
    case AddCommit(now) => DoAddCommit(s, lt, now)
    case RemoveCheck(name) => DoRemoveCheck(s, name)
    case RemoveDelete(ok) => DoRemoveDelete(s, ok)
    case RemoveCommit => DoRemoveCommit(s)
    case RunCheck(name) => DoRunCheck(s, name)
    case RunEnqueue => DoRunEnqueue(s)
    case ScanStart(who, now) => DoScanStart(s, who, now)
    case ScanRead(who) => DoScanRead(s, lt, who)
    case ScanClaim(who) => DoScanClaim(s, who)
    case ScanEnqueue(who) => DoScanEnqueue(s, who)
  }

  /** Nothing happens any more in an aborted process. */
  ghost function Do(s: System, lt: LocalTime, step: Step): System {
    if s.aborted then s else Act(s, lt, step)
  }

  // ----- What a step leaves alone -----

  predicate TouchesTasks(step: Step) {
    step.Tick? || step.LaunchNext? || step.Reap? || step.Finish?
  }

  predicate MovesClock(step: Step) {
    step.Tick? || step.AddCommit? || step.RemoveCommit?
  }

  predicate MovesRequests(step: Step) {
    step.Tick? || step.LaunchNext? || step.RunEnqueue? || step.ScanEnqueue?
  }

  predicate MovesJobs(step: Step) {
    step.AddCheck? || step.AddStore? || step.AddCommit? || step.RemoveCheck? || step.RemoveDelete? ||
    step.RemoveCommit? || step.RunCheck?
  }

  predicate MovesScans(step: Step) {
    step.ScanStart? || step.ScanRead? || step.ScanClaim? || step.ScanEnqueue? || step.RemoveCommit? || step.RunEnqueue?
  }

  ghost predicate TaskFrame(s: System, t: System) {
    && t.batch == s.batch && t.shared.running == s.shared.running
    && t.shared.done == s.shared.done && t.shared.owner == s.shared.owner
  }

  ghost predicate ClockFrame(s: System, t: System) {
    t.shared.jobs == s.shared.jobs && t.shared.nextRun == s.shared.nextRun && t.past.armedAt == s.past.armedAt
  }

  ghost predicate RequestFrame(s: System, t: System) {
    && t.shared.queue == s.shared.queue && t.shared.issued == s.shared.issued && t.batch == s.batch
    && t.past.accepted == s.past.accepted && t.past.launched == s.past.launched && t.past.dropped == s.past.dropped
  }

  ghost predicate StoreFrame(s: System, t: System) {
    t.shared.jobs == s.shared.jobs && t.defs == s.defs && (t.api == s.api || (t.api == Idle && s.api.RunChecked?))
  }

  ghost predicate ScanFrame(s: System, t: System) {
    && t.starter == s.starter && t.looper == s.looper
    && t.shared.missedHandled == s.shared.missedHandled && t.shared.issued == s.shared.issued
    && t.past.claims == s.past.claims && t.past.claimed == s.past.claimed
    && t.past.recovered == s.past.recovered && t.past.accepted == s.past.accepted
  }

  ghost predicate StartFrame(s: System, t: System) {
    t.shared.lastRuns == s.shared.lastRuns && t.past.starts == s.past.starts
  }

  /** Whatever a kind of step is not about stays as it is; only a launch ends the process. */
  ghost predicate Framed(s: System, t: System, step: Step) {
    && (!TouchesTasks(step) ==> TaskFrame(s, t))
    && (!MovesClock(step) ==> ClockFrame(s, t))
    && (!MovesRequests(step) ==> RequestFrame(s, t))
    && (!MovesJobs(step) ==> StoreFrame(s, t))
    && (!MovesScans(step) ==> ScanFrame(s, t))
    && (!step.Record? && !step.RemoveCommit? ==> StartFrame(s, t))
    && (!step.LaunchNext? ==> t.aborted == s.aborted)
  }

  lemma TickFrame(s: System, lt: LocalTime, now: int)
    ensures Framed(s, DoTick(s, lt, now), Tick(now))
  {
  }

  lemma LaunchFrame(s: System)
    ensures Framed(s, DoLaunch(s), LaunchNext)
    ensures Framed(s, DoReap(s), Reap)
  {
  }

  lemma WorkerFrame(s: System, id: nat, startedAt: int)
    ensures Framed(s, s.(shared := AfterFinish(s.shared, id)), Finish(id))
    ensures Framed(s, DoRecord(s, id, startedAt), Record(id, startedAt))
  {
  }

  lemma AddCheckFrame(s: System, job: Job)
    ensures Framed(s, DoAddCheck(s, job), AddCheck(job))
  {
  }

  lemma AddStoreFrame(s: System, ok: bool)
    ensures Framed(s, DoAddStore(s, ok), AddStore(ok))
  {
  }

  lemma AddCommitFrame(s: System, lt: LocalTime, now: int)
    ensures Framed(s, DoAddCommit(s, lt, now), AddCommit(now))
  {
  }

  lemma RemoveCheckFrame(s: System, name: string)
    ensures Framed(s, DoRemoveCheck(s, name), RemoveCheck(name))
  {
  }

  lemma RemoveDeleteFrame(s: System, ok: bool)
    ensures Framed(s, DoRemoveDelete(s, ok), RemoveDelete(ok))
  {
  }

  lemma RemoveCommitFrame(s: System)
    ensures Framed(s, DoRemoveCommit(s), RemoveCommit)
  {
  }

  lemma RunRequestFrame(s: System, name: string)
    ensures Framed(s, DoRunCheck(s, name), RunCheck(name))
    ensures Framed(s, DoRunEnqueue(s), RunEnqueue)
  {
  }

  lemma ScanStartFrame(s: System, who: Who, now: int)
    ensures Framed(s, DoScanStart(s, who, now), ScanStart(who, now))
  {
  }

  lemma ScanReadFrame(s: System, lt: LocalTime, who: Who)
    ensures Framed(s, DoScanRead(s, lt, who), ScanRead(who))
    ensures DoScanRead(s, lt, who).shared == s.shared && DoScanRead(s, lt, who).past == s.past
  {
  }

  /** What a scanner's own state is for: nobody else looks at it. */
  lemma ScannerAside(s: System, t: System, who: Who, c: Scanner, step: Step)
    requires MovesScans(step) && Framed(s, t, step)
    ensures Framed(s, WithScanner(t, who, c), step)
  {
  }

  lemma ClaimAside(s: System, who: Who, claim: Claim, wins: bool)
    ensures Framed(s, s.(shared := AfterClaim(s.shared, claim.name, claim.occurrence),
                         past := if wins then WithClaim(s.past, claim) else s.past), ScanClaim(who))
  {
  }

  lemma ScanClaimFrame(s: System, who: Who)
    ensures Framed(s, DoScanClaim(s, who), ScanClaim(who))
  {
    var c := ScannerOf(s, who);
    if c.Scanning? && c.phase.ToClaim? && c.index < |c.candidates| {
      var claim := Claim(c.candidates[c.index].name, c.phase.occurrence);
      var wins := Handled(s.shared, claim.name) < claim.occurrence;
      var t := s.(shared := AfterClaim(s.shared, claim.name, claim.occurrence),
                  past := if wins then WithClaim(s.past, claim) else s.past);
      ClaimAside(s, who, claim, wins);
      ScannerAside(s, t, who, if wins then c.(phase := ToEnqueue(claim.occurrence)) else NextCandidate(c), ScanClaim(who));
    }
  }

  lemma ScanEnqueueFrame(s: System, who: Who)
    ensures Framed(s, DoScanEnqueue(s, who), ScanEnqueue(who))
  {
  }

  predicate IsApi(step: Step) {
    MovesJobs(step) || step.RunEnqueue?
  }

  lemma ApiFrame(s: System, lt: LocalTime, step: Step)
    requires IsApi(step)
    ensures Framed(s, Act(s, lt, step), step)
  {
    match step
    case AddCheck(job) => AddCheckFrame(s, job);
    case AddStore(ok) => AddStoreFrame(s, ok);
    case AddCommit(now) => AddCommitFrame(s, lt, now);
    case RemoveCheck(name) => RemoveCheckFrame(s, name);
    case RemoveDelete(ok) => RemoveDeleteFrame(s, ok);
    case RemoveCommit => RemoveCommitFrame(s);
    case RunCheck(name) => RunRequestFrame(s, name);
    case RunEnqueue => RunRequestFrame(s, "");
  }

  lemma OtherFrame(s: System, lt: LocalTime, step: Step)
    requires !IsApi(step)
    ensures Framed(s, Act(s, lt, step), step)
  {
    match step
    case Tick(now) => TickFrame(s, lt, now);
    case LaunchNext => LaunchFrame(s);
    case Reap => LaunchFrame(s);
    case Finish(id) => WorkerFrame(s, id, 0);
    case Record(id, startedAt) => WorkerFrame(s, id, startedAt);
    case ScanStart(who, now) => ScanStartFrame(s, who, now);
    case ScanRead(who) => ScanReadFrame(s, lt, who);
    case ScanClaim(who) => ScanClaimFrame(s, who);
    case ScanEnqueue(who) => ScanEnqueueFrame(s, who);
  }

  /** The one frame lemma all the run invariants below rest on. */
  lemma StepFrame(s: System, lt: LocalTime, step: Step)
    ensures Framed(s, Do(s, lt, step), step)
  {
    if IsApi(step) { ApiFrame(s, lt, step); } else { OtherFrame(s, lt, step); }
  }

  ghost function RunFrom(s: System, lt: LocalTime, steps: seq<Step>): System {
    if steps == [] then s else Do(RunFrom(s, lt, steps[..|steps| - 1]), lt, steps[|steps| - 1])
  }

  lemma RunSnoc(s: System, lt: LocalTime, steps: seq<Step>, step: Step)
    ensures RunFrom(s, lt, steps + [step]) == Do(RunFrom(s, lt, steps), lt, step)
  {
    assert (steps + [step])[..|steps|] == steps;
  }

  lemma RunOne(s: System, lt: LocalTime, step: Step)
    ensures RunFrom(s, lt, []) == s && RunFrom(s, lt, [step]) == Do(s, lt, step)
  {
    RunSnoc(s, lt, [], step);
    assert [] + [step] == [step];
  }

  lemma {:induction false} RunConcat(s: System, lt: LocalTime, first: seq<Step>, second: seq<Step>)
    ensures RunFrom(s, lt, first + second) == RunFrom(RunFrom(s, lt, first), lt, second)
  {
    if second == [] {
      assert first + second == first;
    } else {
      var front, last := second[..|second| - 1], second[|second| - 1];
      RunConcat(s, lt, first, front);
      assert first + second == (first + front) + [last];
      RunSnoc(s, lt, first + front, last);
    }
  }

  lemma RunThree(s: System, lt: LocalTime, a: Step, b: Step, c: Step)
    ensures RunFrom(s, lt, [] + [a] + [b] + [c]) == Do(Do(Do(s, lt, a), lt, b), lt, c)
  {
    RunSnoc(s, lt, [] + [a] + [b], c);
    RunSnoc(s, lt, [] + [a], b);
    RunSnoc(s, lt, [], a);
  }

  /** Configuration, persisted definitions in load order, past runs and the time of the start. */
  datatype Setup = Setup(config: seq<Job>, stored: seq<JobDef>, pastRuns: map<string, int>, now: int)

  /** What load_config and the job_defs table guarantee: unique configured names, none of them
      UI-managed, unique definition names; and a Unix time. */
  ghost predicate ValidSetup(u: Setup) {
    && UniqueNames(u.config)
    && (forall j :: j in u.config ==> j.source == "config")
    && DistinctDefs(u.stored)
    && 0 <= u.now
  }

  function ArmedNames(jobs: seq<Job>, now: int): map<string, int> {
    map j | j in jobs :: j.name := now
  }

  /** The last start the database has of every job there is. */
  ghost function PastStarts(jobs: seq<Job>, pastRuns: map<string, int>): map<string, seq<int>> {
    map n | n in pastRuns && exists j :: j in jobs && j.name == n :: [pastRuns[n]]
  }

  ghost function Init(u: Setup, lt: LocalTime): System {
    var sh := InitialShared(u.config, u.stored, u.pastRuns, lt, u.now);
    System(sh, [], Idle, Resting, Resting, DefMap(u.stored),
           History(ArmedNames(sh.jobs, u.now), PastStarts(sh.jobs, u.pastRuns), multiset{}, multiset{}, multiset{}, map[], multiset{}, []), false)
  }

  /** The state after any sequence of steps from start-up. */
  ghost function Run(u: Setup, lt: LocalTime, steps: seq<Step>): System {
    RunFrom(Init(u, lt), lt, steps)
  }
}

/** The scheduler object's calls as runs of the interleaving model: calls that no other thread
    disturbs are runs, so what holds over all runs holds for the object. */
module SchedulerRefinement {
  import opened Basics
  import opened Cron
  import opened SchedulerModel
  import opened SchedulerRuns
  import opened SchedulerObject
  import opened SchedulerSafety
  import opened SchedulerStore

  /** A client's call; `Turn` is one turn of the loop, `Ends` and `Records` are a worker's signals. */
  datatype Call =
    | Turn(wake: bool, scanNow: int, now: int) | Scan(now: int)
    | Add(job: Job, ok: bool, now: int) | Remove(name: string, ok: bool) | Ask(name: string)
    | Ends(id: nat) | Records(id: nat, startedAt: int)

  /** Unix times, and jobs as the API builds them. */
  ghost predicate Proper(c: Call) {
    match c
    case Turn(wake, scanNow, now) => 0 <= scanNow && 0 <= now
    case Scan(now) => 0 <= now
    case Add(job, ok, now) => 0 <= now && job.schedule == ScheduleOf(job.scheduleExpr)
    case _ => true
  }

  /** What a client sees of a scheduler. */
  datatype Image = Image(shared: Shared, defs: map<string, JobDef>, aborted: bool)

  predicate CanAdd(x: Image, job: Job, ok: bool) {
    job.name != "" && job.command != "" && FindJob(x.shared.jobs, job.name).None? && ok
  }

  predicate CanRemove(x: Image, name: string, ok: bool) {
    FindJob(x.shared.jobs, name).Some? && FindJob(x.shared.jobs, name).value.source == "ui" && ok
  }

  /** The effect of a call, as the methods' contracts state it. */
  ghost function Called(x: Image, lt: LocalTime, c: Call): Image {
    match c
    case Turn(wake, scanNow, now) =>
      var r := AfterTurn(x.shared, wake, scanNow, lt, now);
      x.(shared := r.shared, aborted := r.aborted)
    case Scan(now) => x.(shared := Scanned(x.shared, lt, now, Candidates(x.shared.jobs)))
    case Add(job, ok, now) =>
      if CanAdd(x, job, ok) then
        x.(shared := AfterAdd(x.shared, job.(source := "ui"), lt, now),
           defs := x.defs[job.name := DefFromJob(job.(source := "ui"))])
      else x
    case Remove(name, ok) =>
      if CanRemove(x, name, ok) then x.(shared := AfterRemove(x.shared, name), defs := x.defs - {name}) else x
    case Ask(name) =>
      if FindJob(x.shared.jobs, name).Some? then x.(shared := AfterEnqueue(x.shared, name, "manual")) else x
    case Ends(id) => x.(shared := AfterFinish(x.shared, id))
    case Records(id, startedAt) =>
      if id < |x.shared.owner| && id < |x.shared.done| && !x.shared.done[id]
      then x.(shared := AfterRecord(x.shared, x.shared.owner[id], startedAt)) else x
  }

  ghost function ImageOf(s: System): Image { Image(s.shared, s.defs, s.aborted) }

  /** Between calls: no thread is in the middle of anything. */
  ghost predicate AtRest(s: System) {
    s.batch == [] && s.api.Idle? && s.starter.Resting? && s.looper.Resting?
  }

  // ----- The API calls -----

  lemma AddIsThreeSteps(s: System, lt: LocalTime, job: Job, ok: bool, now: int)
    requires s.api.Idle? && 0 <= now && job.schedule == ScheduleOf(job.scheduleExpr)
    ensures var t := DoAddCommit(DoAddStore(DoAddCheck(s, job), ok), lt, now);
            t.api.Idle? && ImageOf(t) == Called(ImageOf(s), lt, Add(job, ok, now))
  {
  }

  lemma RemoveIsThreeSteps(s: System, lt: LocalTime, name: string, ok: bool)
    requires s.api.Idle? && s.starter.Resting? && s.looper.Resting?
    ensures var t := DoRemoveCommit(DoRemoveDelete(DoRemoveCheck(s, name), ok));
            t.api.Idle? && ImageOf(t) == Called(ImageOf(s), lt, Remove(name, ok)) &&
            t.starter == s.starter && t.looper == s.looper
  {
  }

  lemma AddIsRun(s: System, lt: LocalTime, job: Job, ok: bool, now: int) returns (steps: seq<Step>)
    requires !s.aborted && AtRest(s) && 0 <= now && job.schedule == ScheduleOf(job.scheduleExpr)
    ensures var t := RunFrom(s, lt, steps); AtRest(t) && ImageOf(t) == Called(ImageOf(s), lt, Add(job, ok, now))
  {
    var a, b, c := AddCheck(job), AddStore(ok), AddCommit(now);
    var x, y := DoAddCheck(s, job), DoAddStore(DoAddCheck(s, job), ok);
    steps := [] + [a] + [b] + [c];
    RunThree(s, lt, a, b, c);
    AddIsThreeSteps(s, lt, job, ok, now);
    ApiFrame(s, lt, a);
    ApiFrame(x, lt, b);
    ApiFrame(y, lt, c);
  }

  lemma RemoveIsRun(s: System, lt: LocalTime, name: string, ok: bool) returns (steps: seq<Step>)
    requires !s.aborted && AtRest(s)
    ensures var t := RunFrom(s, lt, steps); AtRest(t) && ImageOf(t) == Called(ImageOf(s), lt, Remove(name, ok))
  {
    var a, b, c := RemoveCheck(name), RemoveDelete(ok), RemoveCommit;
    var x, y := DoRemoveCheck(s, name), DoRemoveDelete(DoRemoveCheck(s, name), ok);
    steps := [] + [a] + [b] + [c];
    RunThree(s, lt, a, b, c);
    RemoveIsThreeSteps(s, lt, name, ok);
    ApiFrame(s, lt, a);
    ApiFrame(x, lt, b);
    ApiFrame(y, lt, c);
  }

  lemma AskIsRun(s: System, lt: LocalTime, name: string) returns (steps: seq<Step>)
    requires !s.aborted && AtRest(s)
    ensures var t := RunFrom(s, lt, steps); AtRest(t) && ImageOf(t) == Called(ImageOf(s), lt, Ask(name))
  {
    steps := [] + [RunCheck(name)] + [RunEnqueue];
    RunSnoc(s, lt, [] + [RunCheck(name)], RunEnqueue);
    RunSnoc(s, lt, [], RunCheck(name));
  }

  lemma SignalIsRun(s: System, lt: LocalTime, c: Call) returns (steps: seq<Step>)
    requires !s.aborted && AtRest(s) && (c.Ends? || c.Records?)
    ensures var t := RunFrom(s, lt, steps); AtRest(t) && ImageOf(t) == Called(ImageOf(s), lt, c)
  {
    var step := if c.Ends? then Finish(c.id) else Record(c.id, c.startedAt);
    steps := [step];
    RunOne(s, lt, step);
  }

  // ----- Missed-run scans -----

  /** A scan that stands before a candidate. */
  ghost predicate AtCandidate(c: Scanner) {
    c.Scanning? && c.phase.ToRead? && c.index < |c.candidates|
  }

  /** `d` is `c` moved on by one candidate. */
  ghost predicate MovedOn(c: Scanner, d: Scanner)
    requires c.Scanning?
  {
    d.Scanning? && d.phase.ToRead? && d.now == c.now && d.candidates == c.candidates && d.index == c.index + 1
  }

  /** All that a scanner leaves to the others. */
  ghost predicate Aside(s: System, t: System, who: Who) {
    && t.batch == s.batch && t.api == s.api && t.defs == s.defs && t.aborted == s.aborted
    && (if who == Starter then t.looper == s.looper else t.starter == s.starter)
  }

  lemma ReadEffect(s: System, lt: LocalTime, who: Who)
    requires AtCandidate(ScannerOf(s, who))
    ensures var c, t := ScannerOf(s, who), DoScanRead(s, lt, who);
            var job, d := c.candidates[c.index], ScannerOf(t, who);
            && t.shared == s.shared && d.Scanning? && d.now == c.now && d.candidates == c.candidates && Aside(s, t, who)
            && if job.schedule.None? then MovedOn(c, d)
               else
                 match MissedRun(job.schedule.value, lt, LastStart(s.shared, job.name), c.now)
                 case None => MovedOn(c, d)
                 case Some(occ) => d.index == c.index && d.phase == ToClaim(occ)
  {
  }

  lemma ClaimEffect(s: System, who: Who)
    requires var c := ScannerOf(s, who); c.Scanning? && c.phase.ToClaim? && c.index < |c.candidates|
    ensures var c, t := ScannerOf(s, who), DoScanClaim(s, who);
            var name, d := c.candidates[c.index].name, ScannerOf(t, who);
            && t.shared == AfterClaim(s.shared, name, c.phase.occurrence) && Aside(s, t, who)
            && d.Scanning? && d.now == c.now && d.candidates == c.candidates
            && if Handled(s.shared, name) >= c.phase.occurrence then MovedOn(c, d)
               else d.index == c.index && d.phase == ToEnqueue(c.phase.occurrence)
  {
  }

  lemma EnqueueEffect(s: System, who: Who)
    requires var c := ScannerOf(s, who); c.Scanning? && c.phase.ToEnqueue? && c.index < |c.candidates|
    ensures var c, t := ScannerOf(s, who), DoScanEnqueue(s, who);
            && t.shared == AfterEnqueue(s.shared, c.candidates[c.index].name, "missed")
            && MovedOn(c, ScannerOf(t, who)) && Aside(s, t, who)
  {
  }

  lemma DoIsClaim(s: System, lt: LocalTime, who: Who)
    requires !s.aborted
    ensures Do(s, lt, ScanClaim(who)) == DoScanClaim(s, who) && !DoScanClaim(s, who).aborted
    ensures Do(s, lt, ScanEnqueue(who)) == DoScanEnqueue(s, who)
  {
    ScanClaimFrame(s, who);
  }

  lemma RunClaimEnqueue(s: System, lt: LocalTime, who: Who)
    requires !s.aborted
    ensures RunFrom(s, lt, [ScanClaim(who)]) == DoScanClaim(s, who)
    ensures RunFrom(s, lt, [ScanClaim(who)] + [ScanEnqueue(who)]) == DoScanEnqueue(DoScanClaim(s, who), who)
  {
    DoIsClaim(s, lt, who);
    DoIsClaim(DoScanClaim(s, who), lt, who);
    RunOne(s, lt, ScanClaim(who));
    RunSnoc(s, lt, [ScanClaim(who)], ScanEnqueue(who));
  }

  /** Claiming, and on success enqueueing, the occurrence found. */
  lemma ClaimIsSteps(s: System, lt: LocalTime, who: Who) returns (steps: seq<Step>)
    requires !s.aborted
    requires var c := ScannerOf(s, who); c.Scanning? && c.phase.ToClaim? && c.index < |c.candidates|
    ensures var c, t := ScannerOf(s, who), RunFrom(s, lt, steps);
            var name, claimed := c.candidates[c.index].name, AfterClaim(s.shared, c.candidates[c.index].name, c.phase.occurrence);
            && t.shared == (if Handled(s.shared, name) >= c.phase.occurrence then claimed
                            else AfterEnqueue(claimed, name, "missed"))
            && MovedOn(c, ScannerOf(t, who)) && Aside(s, t, who)
  {
    var c := ScannerOf(s, who);
    ClaimEffect(s, who);
    RunClaimEnqueue(s, lt, who);
    if Handled(s.shared, c.candidates[c.index].name) >= c.phase.occurrence {
      steps := [ScanClaim(who)];
    } else {
      EnqueueEffect(DoScanClaim(s, who), who);
      steps := [ScanClaim(who)] + [ScanEnqueue(who)];
    }
  }

  /** Reading, claiming and enqueueing one candidate undisturbed. */
  lemma CandidateIsSteps(s: System, lt: LocalTime, who: Who) returns (steps: seq<Step>)
    requires !s.aborted && AtCandidate(ScannerOf(s, who))
    ensures var c, t := ScannerOf(s, who), RunFrom(s, lt, steps);
            && t.shared == ScannedOne(s.shared, lt, c.now, c.candidates[c.index])
            && MovedOn(c, ScannerOf(t, who)) && Aside(s, t, who)
  {
    var t := DoScanRead(s, lt, who);
    ReadEffect(s, lt, who);
    RunOne(s, lt, ScanRead(who));
    steps := [ScanRead(who)];
    if ScannerOf(t, who).phase.ToClaim? {
      var more := ClaimIsSteps(t, lt, who);
      RunConcat(s, lt, steps, more);
      steps := steps + more;
    }
  }

  lemma {:induction false} CandidatesAreSteps(s: System, lt: LocalTime, who: Who, k: nat) returns (steps: seq<Step>)
    requires var c := ScannerOf(s, who); !s.aborted && c.Scanning? && c.phase.ToRead? && c.index == 0 && k <= |c.candidates|
    ensures var c, t := ScannerOf(s, who), RunFrom(s, lt, steps);
            var d := ScannerOf(t, who);
            && t.shared == Scanned(s.shared, lt, c.now, c.candidates[..k]) && Aside(s, t, who)
            && d.Scanning? && d.phase.ToRead? && d.now == c.now && d.candidates == c.candidates && d.index == k
  {
    var c := ScannerOf(s, who);
    if k == 0 {
      steps := [];
    } else {
      var front := CandidatesAreSteps(s, lt, who, k - 1);
      var more := CandidateIsSteps(RunFrom(s, lt, front), lt, who);
      steps := front + more;
      RunConcat(s, lt, front, more);
      assert c.candidates[..k][..k - 1] == c.candidates[..k - 1];
    }
  }

  lemma StartEffect(s: System, who: Who, now: int)
    requires ScannerOf(s, who).Resting? && 0 <= now
    ensures var t := DoScanStart(s, who, now);
            && t.shared == s.shared && ScannerOf(t, who) == Scanning(now, Candidates(s.shared.jobs), 0, [], ToRead, {})
            && Aside(s, t, who)
  {
  }

  lemma EndEffect(s: System, lt: LocalTime, who: Who)
    requires var c := ScannerOf(s, who); c.Scanning? && c.phase.ToRead? && c.index == |c.candidates|
    ensures var t := DoScanRead(s, lt, who); t.shared == s.shared && ScannerOf(t, who).Resting? && Aside(s, t, who)
  {
  }

  lemma BegunScanIsSteps(s: System, lt: LocalTime, who: Who) returns (steps: seq<Step>)
    requires var c := ScannerOf(s, who); !s.aborted && c.Scanning? && c.phase.ToRead? && c.index == 0
    ensures var c, t := ScannerOf(s, who), RunFrom(s, lt, steps);
            t.shared == Scanned(s.shared, lt, c.now, c.candidates) && ScannerOf(t, who).Resting? && Aside(s, t, who)
  {
    var all := ScannerOf(s, who).candidates;
    var middle := CandidatesAreSteps(s, lt, who, |all|);
    var t := RunFrom(s, lt, middle);
    assert all[..|all|] == all;
    EndEffect(t, lt, who);
    RunSnoc(s, lt, middle, ScanRead(who));
    steps := middle + [ScanRead(who)];
    assert Do(t, lt, ScanRead(who)) == DoScanRead(t, lt, who);
  }

  /** An undisturbed missed-run scan is a run of its steps with the effect `ScanMissed` states. */
  lemma ScanIsSteps(s: System, lt: LocalTime, who: Who, now: int) returns (steps: seq<Step>)
    requires !s.aborted && ScannerOf(s, who).Resting? && 0 <= now
    ensures ScanStart(who, now) in steps
    ensures var t := RunFrom(s, lt, steps);
            && t.shared == Scanned(s.shared, lt, now, Candidates(s.shared.jobs))
            && ScannerOf(t, who).Resting? && Aside(s, t, who)
  {
    StartEffect(s, who, now);
    RunOne(s, lt, ScanStart(who, now));
    var more := BegunScanIsSteps(DoScanStart(s, who, now), lt, who);
    RunConcat(s, lt, [ScanStart(who, now)], more);
    steps := [ScanStart(who, now)] + more;
  }

  lemma ScanIsRun(s: System, lt: LocalTime, who: Who, now: int) returns (steps: seq<Step>)
    requires !s.aborted && AtRest(s) && 0 <= now
    ensures var t := RunFrom(s, lt, steps); AtRest(t) && ImageOf(t) == Called(ImageOf(s), lt, Scan(now))
  {
    steps := ScanIsSteps(s, lt, who, now);
  }

  // ----- One turn of the loop -----

  lemma {:induction false} LaunchesAreSteps(s: System, lt: LocalTime) returns (steps: seq<Step>)
    requires !s.aborted
    ensures var t, r := RunFrom(s, lt, steps), LaunchAll(s.shared, s.batch);
            && ImageOf(t) == Image(r.shared, s.defs, r.aborted) && (!t.aborted ==> t.batch == [])
            && t.api == s.api && t.starter == s.starter && t.looper == s.looper
    decreases |s.batch|
  {
    if s.batch == [] {
      steps := [];
    } else {
      RunOne(s, lt, LaunchNext);
      steps := [LaunchNext];
      var t := DoLaunch(s);
      if !t.aborted {
        var more := LaunchesAreSteps(t, lt);
        RunConcat(s, lt, steps, more);
        steps := steps + more;
      }
    }
  }

  lemma TickIsSteps(s: System, lt: LocalTime, now: int) returns (steps: seq<Step>)
    requires !s.aborted && AtRest(s) && 0 <= now
    ensures Tick(now) in steps
    ensures var t, r := RunFrom(s, lt, steps), LaunchAll(AfterTick(s.shared, lt, now), TickBatch(s.shared, lt, now));
            ImageOf(t) == Image(r.shared, s.defs, r.aborted) && (!t.aborted ==> AtRest(t))
  {
    var t := DoTick(s, lt, now);
    TickFrame(s, lt, now);
    RunOne(s, lt, Tick(now));
    var more := LaunchesAreSteps(t, lt);
    RunConcat(s, lt, [Tick(now)], more);
    steps := [Tick(now)] + more;
  }

  lemma ReapAndScan(s: System, lt: LocalTime, wake: bool, scanNow: int) returns (steps: seq<Step>)
    requires !s.aborted && AtRest(s) && 0 <= scanNow
    ensures steps != [] && steps[0] == Reap && (wake ==> ScanStart(Looper, scanNow) in steps)
    ensures var t := RunFrom(s, lt, steps);
            AtRest(t) && ImageOf(t) == ImageOf(s).(shared := BeforeTick(s.shared, wake, scanNow, lt))
  {
    RunOne(s, lt, Reap);
    steps := [Reap];
    var t := DoReap(s);
    LaunchFrame(s);
    if wake {
      var more := ScanIsSteps(t, lt, Looper, scanNow);
      RunConcat(s, lt, steps, more);
      steps := steps + more;
    }
  }

  /** One turn of the loop is a run that begins with a reap, scans after a wake, and ticks. */
  lemma TurnIsRun(s: System, lt: LocalTime, wake: bool, scanNow: int, now: int) returns (steps: seq<Step>)
    requires !s.aborted && AtRest(s) && 0 <= scanNow && 0 <= now
    ensures steps != [] && steps[0] == Reap && Tick(now) in steps && (wake ==> ScanStart(Looper, scanNow) in steps)
    ensures var t := RunFrom(s, lt, steps);
            (!t.aborted ==> AtRest(t)) && ImageOf(t) == Called(ImageOf(s), lt, Turn(wake, scanNow, now))
  {
    var first := ReapAndScan(s, lt, wake, scanNow);
    var second := TickIsSteps(RunFrom(s, lt, first), lt, now);
    RunConcat(s, lt, first, second);
    steps := first + second;
  }

  lemma {:induction false} LaunchAllIff(s: Shared, batch: seq<Launch>)
    ensures LaunchAll(s, batch).aborted <==> !Clear(Names(batch), s.running.Keys)
    decreases |batch|
  {
    if batch == [] {
      assert Names(batch) == [];
    } else {
      var name := batch[0].job.name;
      ClearNext(Names(batch), s.running.Keys);
      assert Names(batch)[1..] == Names(batch[1..]) && Names(batch)[0] == name;
      if name !in s.running {
        assert AfterLaunch(s, name).running.Keys == s.running.Keys + {name};
        LaunchAllIff(AfterLaunch(s, name), batch[1..]);
      }
    }
  }

  /** A scan neither looks at nor touches the running entries. */
  lemma {:induction false} ScanAside(s: Shared, running: map<string, nat>, lt: LocalTime, now: int, jobs: seq<Job>)
    ensures Scanned(s.(running := running), lt, now, jobs) == Scanned(s, lt, now, jobs).(running := running)
    ensures var t := Scanned(s, lt, now, jobs); t.jobs == s.jobs && t.running == s.running && t.done == s.done && t.nextRun == s.nextRun
  {
    if jobs != [] {
      ScanAside(s, running, lt, now, jobs[..|jobs| - 1]);
    }
  }

  ghost function Rescanned(s: Shared, wake: bool, scanNow: int, lt: LocalTime): Shared {
    if wake then Scanned(s, lt, scanNow, Candidates(s.jobs)) else s
  }

  /** From every reachable state at rest: a turn of the loop ends the process if and only if the queue,
      after the scan if there is one, clashes. Whatever has finished before the turn does not matter,
      because it is reaped first. */
  lemma TurnAbortsIff(u: Setup, lt: LocalTime, steps: seq<Step>, wake: bool, scanNow: int, now: int)
    requires ValidSetup(u) && !Run(u, lt, steps).aborted && AtRest(Run(u, lt, steps))
    ensures var s := Run(u, lt, steps);
            Called(ImageOf(s), lt, Turn(wake, scanNow, now)).aborted <==>
            !NoClash(Rescanned(s.shared, wake, scanNow, lt), now)
  {
    var s := Run(u, lt, steps).shared;
    var scanned, before := Rescanned(s, wake, scanNow, lt), BeforeTick(s, wake, scanNow, lt);
    RunStored(u, lt, steps);
    AtMostOneWorker(u, lt, steps);
    ScanAside(s, AfterReap(s).running, lt, scanNow, Candidates(s.jobs));
    assert AfterReap(s) == s.(running := AfterReap(s).running);
    assert before == scanned.(running := AfterReap(s).running);
    LaunchAllIff(AfterTick(before, lt, now), TickBatch(before, lt, now));
    ClearIffNotFatal(before, lt, now);
    ReapedHasNoRemains(scanned, before, now);
  }

  lemma ReapedHasNoRemains(scanned: Shared, before: Shared, now: int)
    requires before == scanned.(running := AfterReap(scanned).running)
    ensures Fatal(before, now) <==> !NoClash(scanned, now)
  {
    forall n ensures IsRunning(before, n) == IsRunning(scanned, n) && (n in before.running ==> IsRunning(before, n)) {
    }
  }

  // ----- Any client -----

  /** Every call is a run with the effect its method states. */
  lemma CallIsRun(s: System, lt: LocalTime, c: Call) returns (steps: seq<Step>)
    requires !s.aborted && AtRest(s) && Proper(c)
    ensures var t := RunFrom(s, lt, steps); (!t.aborted ==> AtRest(t)) && ImageOf(t) == Called(ImageOf(s), lt, c)
  {
    match c
    case Turn(wake, scanNow, now) => steps := TurnIsRun(s, lt, wake, scanNow, now);
    case Scan(now) => steps := ScanIsRun(s, lt, Starter, now);
    case Add(job, ok, now) => steps := AddIsRun(s, lt, job, ok, now);
    case Remove(name, ok) => steps := RemoveIsRun(s, lt, name, ok);
    case Ask(name) => steps := AskIsRun(s, lt, name);
    case Ends(id) => steps := SignalIsRun(s, lt, c);
    case Records(id, startedAt) => steps := SignalIsRun(s, lt, c);
  }

  ghost function Seen(d: Scheduler): Image
    reads d
  {
    Image(d.View(), d.defs, d.aborted)
  }

  method Perform(d: Scheduler, lt: LocalTime, c: Call)
    requires !d.aborted
    modifies d
    ensures Seen(d) == Called(old(Seen(d)), lt, c)
  {
    match c
    case Turn(wake, scanNow, now) => d.Turn(wake, scanNow, lt, now);
    case Scan(now) => d.ScanMissed(lt, now);
    case Add(job, ok, now) => var error := d.AddJob(job, ok, lt, now);
    case Remove(name, ok) => var error := d.RemoveJob(name, ok);
    case Ask(name) => var accepted := d.RequestRun(name);
    case Ends(id) => d.FinishTask(id);
    case Records(id, startedAt) => d.RecordRun(id, startedAt);
  }

  /** Any client of the object, call after call until the process ends: what it sees is a run of the
      model, so no job ever has two live workers. */
  method Drive(u: Setup, lt: LocalTime, calls: seq<Call>) returns (d: Scheduler, ghost steps: seq<Step>)
    requires forall i :: 0 <= i < |calls| ==> Proper(calls[i])
    ensures Seen(d) == ImageOf(Run(u, lt, steps)) && !TwoLive(d.View())
  {
    d := new Scheduler(u.config, u.stored, u.pastRuns, lt, u.now);
    steps := [];
    var i := 0;
    while i < |calls| && !d.aborted
      invariant fresh(d)
      invariant Seen(d) == ImageOf(Run(u, lt, steps)) && (!d.aborted ==> AtRest(Run(u, lt, steps)))
      decreases |calls| - i
    {
      ghost var more := CallIsRun(Run(u, lt, steps), lt, calls[i]);
      RunConcat(Init(u, lt), lt, steps, more);
      Perform(d, lt, calls[i]);
      steps := steps + more;
      i := i + 1;
    }
    AtMostOneWorker(u, lt, steps);
  }
}

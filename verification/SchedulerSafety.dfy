/** At most one live worker per job, and exactly when keeping that costs the process its life. */
module SchedulerSafety {
  import opened Basics
  import opened Cron
  import opened SchedulerModel
  import opened SchedulerRuns
  import opened SchedulerStore

  /** Task `id` runs job `name` and has not signalled completion. */
  predicate Live(s: Shared, id: nat, name: string) {
    id < |s.done| && id < |s.owner| && !s.done[id] && s.owner[id] == name
  }

  /** Each name has at most one live worker, and it is the entry that `running_` holds. */
  ghost predicate OneLivePerJob(s: Shared) {
    forall id, name :: Live(s, id, name) ==> name in s.running && s.running[name] == id
  }

  ghost predicate TwoLive(s: Shared) {
    exists i, j, name :: i < j && Live(s, i, name) && Live(s, j, name)
  }

  lemma OneLiveMeansNotTwo(s: Shared)
    requires OneLivePerJob(s)
    ensures !TwoLive(s)
  {
  }

  ghost predicate TablesAgree(s: Shared) {
    |s.done| == |s.owner| && forall n :: n in s.running ==> s.running[n] < |s.done| && s.owner[s.running[n]] == n
  }

  function Names(batch: seq<Launch>): seq<string> {
    seq(|batch|, i requires 0 <= i < |batch| => batch[i].job.name)
  }

  ghost predicate Safe(s: System) {
    TablesAgree(s.shared) && OneLivePerJob(s.shared)
  }

  lemma LaunchSafe(s: System)
    requires Safe(s)
    ensures Safe(DoLaunch(s))
  {
    if s.batch != [] && s.batch[0].job.name !in s.shared.running {
      var t := DoLaunch(s).shared;
      forall id: nat, n | Live(t, id, n) ensures n in t.running && t.running[n] == id {
        if id < |s.shared.done| {
          assert Live(s.shared, id, n);
        }
      }
    }
  }

  /** Fewer live workers and no entry of a live one lost. */
  lemma FewerLiveSafe(s: System, t: System)
    requires Safe(s) && TablesAgree(t.shared)
    requires forall id: nat, n :: Live(t.shared, id, n) ==> Live(s.shared, id, n)
    requires forall id: nat, n :: Live(t.shared, id, n) && n in s.shared.running ==>
                                    n in t.shared.running && t.shared.running[n] == s.shared.running[n]
    ensures Safe(t)
  {
  }

  lemma StepSafe(s: System, lt: LocalTime, step: Step)
    requires Safe(s)
    ensures Safe(Do(s, lt, step))
  {
    if step.LaunchNext? {
      LaunchSafe(s);
    } else {
      StepFrame(s, lt, step);
      FewerLiveSafe(s, Do(s, lt, step));
    }
  }

  /** Over every interleaving of loop, workers, API and scanners, each job has at most one live
      worker and it is the entry `running_` holds for it. */
  lemma {:induction false} AtMostOneWorker(u: Setup, lt: LocalTime, steps: seq<Step>)
    ensures Safe(Run(u, lt, steps)) && !TwoLive(Run(u, lt, steps).shared)
  {
    if steps != [] {
      AtMostOneWorker(u, lt, steps[..|steps| - 1]);
      StepSafe(Run(u, lt, steps[..|steps| - 1]), lt, steps[|steps| - 1]);
    }
    OneLiveMeansNotTwo(Run(u, lt, steps).shared);
  }

  /** A tick takes a job for running exactly when a worker of it is live. */
  lemma RunningIffLive(u: Setup, lt: LocalTime, steps: seq<Step>, name: string)
    ensures var s := Run(u, lt, steps).shared; IsRunning(s, name) <==> exists id :: Live(s, id, name)
  {
    AtMostOneWorker(u, lt, steps);
    var s := Run(u, lt, steps).shared;
    if IsRunning(s, name) {
      assert Live(s, s.running[name], name);
    }
  }

  // ----- When is a batch free of duplicates? -----

  /** What can be checked before the tick: no idle known job is requested twice, and none is both
      requested and due. */
  ghost predicate NoClash(s: Shared, now: int) {
    && (forall i, j :: 0 <= i < j < |s.queue| && s.queue[i].name == s.queue[j].name ==> !Ready(s, s.queue[i].name))
    && (forall i, k :: 0 <= i < |s.queue| && 0 <= k < |s.jobs| && s.queue[i].name == s.jobs[k].name ==>
          !(Ready(s, s.jobs[k].name) && IsDue(s.jobs[k], s.nextRun, now)))
  }

  lemma DistinctSnoc<T>(xs: seq<T>, x: T)
    ensures Distinct(xs + [x]) <==> Distinct(xs) && x !in xs
  {
    var ys := xs + [x];
    if Distinct(ys) {
      assert forall i :: 0 <= i < |xs| ==> ys[i] == xs[i] && ys[i] != ys[|xs|];
    }
  }

  lemma {:induction false} DistinctConcat<T>(xs: seq<T>, ys: seq<T>)
    ensures Distinct(xs + ys) <==> Distinct(xs) && Distinct(ys) && forall y :: y in ys ==> y !in xs
  {
    if ys == [] {
      assert xs + ys == xs;
    } else {
      var front, last := ys[..|ys| - 1], ys[|ys| - 1];
      assert ys == front + [last];
      assert xs + ys == (xs + front) + [last];
      DistinctConcat(xs, front);
      DistinctSnoc(xs + front, last);
      DistinctSnoc(front, last);
    }
  }

  lemma NamesSnoc(a: seq<Launch>, l: Launch)
    ensures Names(a + [l]) == Names(a) + [l.job.name]
    ensures a + [] == a
  {
  }

  lemma NamesConcat(a: seq<Launch>, b: seq<Launch>)
    ensures Names(a + b) == Names(a) + Names(b)
  {
  }

  ghost predicate RequestedIn(q: seq<Request>, name: string) {
    exists i :: 0 <= i < |q| && q[i].name == name
  }

  ghost predicate RequestedOnce(s: Shared, q: seq<Request>) {
    forall i, j :: 0 <= i < j < |q| && q[i].name == q[j].name ==> !Ready(s, q[i].name)
  }

  lemma {:induction false} DequeuedNames(s: Shared, q: seq<Request>, name: string)
    ensures name in Names(Dequeued(s, q)) <==> Ready(s, name) && RequestedIn(q, name)
  {
    if q != [] {
      var front, r := q[..|q| - 1], q[|q| - 1];
      DequeuedNames(s, front, name);
      assert RequestedIn(q, name) <==> RequestedIn(front, name) || r.name == name by {
        assert forall i :: 0 <= i < |front| ==> q[i] == front[i];
        assert q[|front|] == r;
      }
      if Ready(s, r.name) {
        NamesSnoc(Dequeued(s, front), Launch(FindJob(s.jobs, r.name).value, Some(r)));
      } else {
        assert Dequeued(s, q) == Dequeued(s, front);
      }
    }
  }

  lemma {:induction false} DequeuedDistinct(s: Shared, q: seq<Request>)
    ensures Distinct(Names(Dequeued(s, q))) <==> RequestedOnce(s, q)
  {
    if q != [] {
      var front, r := q[..|q| - 1], q[|q| - 1];
      DequeuedDistinct(s, front);
      assert RequestedOnce(s, q) <==> RequestedOnce(s, front) && !(Ready(s, r.name) && RequestedIn(front, r.name)) by {
        assert forall i :: 0 <= i < |front| ==> q[i] == front[i];
        assert q[|front|] == r;
      }
      if Ready(s, r.name) {
        NamesSnoc(Dequeued(s, front), Launch(FindJob(s.jobs, r.name).value, Some(r)));
        DequeuedNames(s, front, r.name);
        DistinctSnoc(Names(Dequeued(s, front)), r.name);
      } else {
        assert Dequeued(s, q) == Dequeued(s, front);
      }
    }
  }

  lemma {:induction false} AdvancedOthers(jobs: seq<Job>, nextRun: map<string, int>, lt: LocalTime, now: int, name: string)
    requires forall i :: 0 <= i < |jobs| ==> jobs[i].name != name
    ensures (name in Advanced(jobs, nextRun, lt, now) <==> name in nextRun)
    ensures name in nextRun ==> Advanced(jobs, nextRun, lt, now)[name] == nextRun[name]
  {
    if jobs != [] {
      AdvancedOthers(jobs[..|jobs| - 1], nextRun, lt, now, name);
    }
  }

  /** With unique names the due pass finds exactly the jobs that are due before it. */
  lemma {:induction false} DueJobsExact(jobs: seq<Job>, nextRun: map<string, int>, lt: LocalTime, now: int)
    requires UniqueNames(jobs)
    ensures forall j :: j in DueJobs(jobs, nextRun, lt, now) <==> j in jobs && IsDue(j, nextRun, now)
    ensures UniqueNames(DueJobs(jobs, nextRun, lt, now))
  {
    if jobs != [] {
      var front, last := jobs[..|jobs| - 1], jobs[|jobs| - 1];
      assert jobs == front + [last];
      DueJobsExact(front, nextRun, lt, now);
      AdvancedOthers(front, nextRun, lt, now, last.name);
      var due := DueJobs(front, nextRun, lt, now);
      forall i | 0 <= i < |due| ensures due[i].name != last.name {
        assert due[i] in front;
      }
    }
  }

  lemma {:induction false} ScheduledNames(s: Shared, due: seq<Job>, name: string)
    ensures name in Names(Scheduled(s, due)) <==> !IsRunning(s, name) && exists i :: 0 <= i < |due| && due[i].name == name
  {
    if due != [] {
      var front, last := due[..|due| - 1], due[|due| - 1];
      ScheduledNames(s, front, name);
      assert (exists i :: 0 <= i < |due| && due[i].name == name) <==>
             (exists i :: 0 <= i < |front| && front[i].name == name) || last.name == name by {
        assert forall i :: 0 <= i < |front| ==> due[i] == front[i];
        assert due[|front|] == last;
      }
      if !IsRunning(s, last.name) {
        NamesSnoc(Scheduled(s, front), Launch(last, None));
      } else {
        assert Scheduled(s, due) == Scheduled(s, front);
      }
    }
  }

  lemma {:induction false} ScheduledDistinct(s: Shared, due: seq<Job>)
    requires UniqueNames(due)
    ensures Distinct(Names(Scheduled(s, due)))
  {
    if due != [] {
      var front, last := due[..|due| - 1], due[|due| - 1];
      ScheduledDistinct(s, front);
      if !IsRunning(s, last.name) {
        NamesSnoc(Scheduled(s, front), Launch(last, None));
        ScheduledNames(s, front, last.name);
        DistinctSnoc(Names(Scheduled(s, front)), last.name);
      } else {
        assert Scheduled(s, due) == Scheduled(s, front);
      }
    }
  }

  /** A tick's batch is free of duplicates exactly when nothing clashes before the tick. */
  lemma BatchDistinctIff(s: Shared, lt: LocalTime, now: int)
    requires UniqueNames(s.jobs)
    ensures Distinct(Names(TickBatch(s, lt, now))) <==> NoClash(s, now)
  {
    var due := DueJobs(s.jobs, s.nextRun, lt, now);
    var a, b := Dequeued(s, s.queue), Scheduled(s, due);
    DueJobsExact(s.jobs, s.nextRun, lt, now);
    DequeuedDistinct(s, s.queue);
    ScheduledDistinct(s, due);
    NamesConcat(a, b);
    DistinctConcat(Names(a), Names(b));
    if NoClash(s, now) {
      forall n | n in Names(b) ensures n !in Names(a) {
        DequeuedNames(s, s.queue, n);
        ScheduledNames(s, due, n);
        var i :| 0 <= i < |due| && due[i].name == n;
        assert due[i] in s.jobs;
      }
    }
    if forall n :: n in Names(b) ==> n !in Names(a) {
      forall i, k | 0 <= i < |s.queue| && 0 <= k < |s.jobs| && s.queue[i].name == s.jobs[k].name
        ensures !(Ready(s, s.jobs[k].name) && IsDue(s.jobs[k], s.nextRun, now))
      {
        DequeuedNames(s, s.queue, s.jobs[k].name);
        ScheduledNames(s, due, s.jobs[k].name);
        assert IsDue(s.jobs[k], s.nextRun, now) ==> s.jobs[k] in due;
      }
    }
  }

  ghost predicate DueAt(s: Shared, now: int, name: string) {
    exists j :: j in s.jobs && j.name == name && IsDue(j, s.nextRun, now)
  }

  /** The job is requested, or due at `now`. */
  ghost predicate Wanted(s: Shared, now: int, name: string) {
    RequestedIn(s.queue, name) || DueAt(s, now, name)
  }

  /** A tick launches a job exactly when it is known, has no live worker, and was requested or is due. */
  lemma TickLaunchesExact(s: Shared, lt: LocalTime, now: int, name: string)
    requires UniqueNames(s.jobs)
    ensures name in Names(TickBatch(s, lt, now)) <==> Ready(s, name) && Wanted(s, now, name)
  {
    var due := DueJobs(s.jobs, s.nextRun, lt, now);
    NamesConcat(Dequeued(s, s.queue), Scheduled(s, due));
    DequeuedNames(s, s.queue, name);
    ScheduledNames(s, due, name);
    DueJobsExact(s.jobs, s.nextRun, lt, now);
    assert (exists i :: 0 <= i < |due| && due[i].name == name) <==> exists j :: j in due && j.name == name;
    KnownIffFound(s.jobs, name);
  }

  // ----- When does a tick end the process? -----

  /** What can be checked before a tick: it finds a clash, or it launches a job whose last worker
      has finished but whose entry has not been reaped. */
  ghost predicate Fatal(s: Shared, now: int) {
    !NoClash(s, now) || exists n :: n in s.running && Ready(s, n) && Wanted(s, now, n)
  }

  ghost predicate RequestedTwice(q: seq<Request>, name: string) {
    exists i, j :: 0 <= i < j < |q| && q[i].name == name && q[j].name == name
  }

  /** The tick is fatal because of this job. */
  ghost predicate FatalFor(s: Shared, now: int, name: string) {
    && Ready(s, name)
    && (|| RequestedTwice(s.queue, name)
        || (RequestedIn(s.queue, name) && DueAt(s, now, name))
        || (name in s.running && Wanted(s, now, name)))
  }

  /** A tick is fatal exactly when it is because of some job. */
  lemma FatalIffSome(s: Shared, now: int)
    ensures Fatal(s, now) <==> exists name :: FatalFor(s, now, name)
  {
    if name :| FatalFor(s, now, name) {
      ClashOf(s, now, name);
    }
    if !NoClash(s, now) {
      if i, j :| 0 <= i < j < |s.queue| && s.queue[i].name == s.queue[j].name && Ready(s, s.queue[i].name) {
        assert FatalFor(s, now, s.queue[i].name);
      } else {
        var i, k :| 0 <= i < |s.queue| && 0 <= k < |s.jobs| && s.queue[i].name == s.jobs[k].name &&
                    Ready(s, s.jobs[k].name) && IsDue(s.jobs[k], s.nextRun, now);
        assert s.jobs[k] in s.jobs;
        assert FatalFor(s, now, s.jobs[k].name);
      }
    } else if n :| n in s.running && Ready(s, n) && Wanted(s, now, n) {
      assert FatalFor(s, now, n);
    }
  }

  /** The first two ways are clashes. */
  lemma ClashOf(s: Shared, now: int, name: string)
    requires Ready(s, name)
    ensures RequestedTwice(s.queue, name) || (RequestedIn(s.queue, name) && DueAt(s, now, name)) ==> !NoClash(s, now)
  {
    if RequestedIn(s.queue, name) && DueAt(s, now, name) {
      var i :| 0 <= i < |s.queue| && s.queue[i].name == name;
      var j :| j in s.jobs && j.name == name && IsDue(j, s.nextRun, now);
      var k :| 0 <= k < |s.jobs| && s.jobs[k] == j;
    }
  }

  /** Every name of the batch finds its place in `running_` free. */
  ghost predicate Clear(names: seq<string>, running: set<string>) {
    Distinct(names) && forall n :: n in names ==> n !in running
  }

  lemma ClearNext(names: seq<string>, running: set<string>)
    requires names != []
    ensures Clear(names, running) <==> names[0] !in running && Clear(names[1..], running + {names[0]})
  {
    assert names == [names[0]] + names[1..];
    DistinctConcat([names[0]], names[1..]);
  }

  lemma ClearIffNotFatal(s: Shared, lt: LocalTime, now: int)
    requires UniqueNames(s.jobs)
    ensures Clear(Names(TickBatch(s, lt, now)), s.running.Keys) <==> !Fatal(s, now)
  {
    BatchDistinctIff(s, lt, now);
    forall n ensures n in Names(TickBatch(s, lt, now)) <==> Ready(s, n) && Wanted(s, now, n) {
      TickLaunchesExact(s, lt, now, n);
    }
  }

  ghost predicate ClearNow(s: System) {
    Clear(Names(s.batch), s.shared.running.Keys)
  }

  /** A launch aborts exactly when the first name's place is taken; otherwise the rest of the batch
      is clear after it exactly when the whole batch was before. */
  lemma LaunchClear(s: System)
    requires !s.aborted && s.batch != []
    ensures var t := DoLaunch(s);
            if t.aborted then !ClearNow(s)
            else (ClearNow(t) <==> ClearNow(s)) && t.batch == s.batch[1..] && t.shared.owner == s.shared.owner + [s.batch[0].job.name]
  {
    var names, t := Names(s.batch), DoLaunch(s);
    ClearNext(names, s.shared.running.Keys);
    if !t.aborted {
      assert Names(t.batch) == names[1..];
      assert t.shared.running.Keys == s.shared.running.Keys + {names[0]};
    }
  }

  /** Between two ticks only launches matter, whatever the other threads do. */
  lemma OtherStepClear(s: System, lt: LocalTime, step: Step)
    requires !s.aborted && !step.Tick? && !(step.LaunchNext? && s.batch != [])
    ensures var t := Do(s, lt, step);
            !t.aborted && (ClearNow(t) <==> ClearNow(s)) && t.batch == s.batch && t.shared.owner == s.shared.owner
  {
    StepFrame(s, lt, step);
    if step.Reap? && s.batch == [] {
      assert Names(s.batch) == [];
    }
  }

  function Launches(steps: seq<Step>): nat {
    if steps == [] then 0
    else Launches(steps[..|steps| - 1]) + if steps[|steps| - 1].LaunchNext? then 1 else 0
  }

  ghost predicate NoTick(steps: seq<Step>) {
    forall i :: 0 <= i < |steps| ==> !steps[i].Tick?
  }

  /** The first `k` launches of the batch of `s` have been made. */
  ghost predicate Made(s: System, t: System, k: nat) {
    k <= |s.batch| && t.batch == s.batch[k..] && t.shared.owner == s.shared.owner + Names(s.batch[..k])
  }

  lemma OneMoreMade(s: System, t: System, k: nat)
    requires !t.aborted && Made(s, t, k) && t.batch != [] && !DoLaunch(t).aborted
    ensures Made(s, DoLaunch(t), k + 1)
  {
    NamesSnoc(s.batch[..k], s.batch[k]);
    assert s.batch[..k] + [s.batch[k]] == s.batch[..k + 1];
    assert t.batch[0] == s.batch[k] && t.batch[1..] == s.batch[k + 1..];
    LaunchClear(t);
  }

  function LaunchesOf(steps: seq<Step>, size: nat): nat {
    if Launches(steps) < size then Launches(steps) else size
  }

  /** Between a tick and the next: either the launches so far are made, one new worker each in batch
      order, or the process has ended, and that happens exactly when the batch was not clear. */
  lemma {:induction false} LaunchPhase(s: System, lt: LocalTime, steps: seq<Step>)
    requires !s.aborted && NoTick(steps)
    ensures var t := RunFrom(s, lt, steps);
            if t.aborted then !ClearNow(s)
            else (ClearNow(t) <==> ClearNow(s)) && Made(s, t, LaunchesOf(steps, |s.batch|))
  {
    if steps == [] {
      assert Names(s.batch[..0]) == [];
    } else {
      var front, last := steps[..|steps| - 1], steps[|steps| - 1];
      var t := RunFrom(s, lt, front);
      LaunchPhase(s, lt, front);
      if !t.aborted {
        if last.LaunchNext? && t.batch != [] {
          LaunchClear(t);
          if !DoLaunch(t).aborted {
            OneMoreMade(s, t, LaunchesOf(front, |s.batch|));
          }
        } else {
          OtherStepClear(t, lt, last);
        }
      }
    }
  }

  /** From any reachable state: whatever the other threads do between a tick and its launches, the
      launches end the process only if the tick was fatal, and once all are made, exactly then. */
  lemma TickAbortsIff(u: Setup, lt: LocalTime, steps: seq<Step>, now: int, more: seq<Step>)
    requires ValidSetup(u) && 0 <= now && NoTick(more)
    requires !Run(u, lt, steps).aborted && Run(u, lt, steps).batch == []
    ensures var s := Run(u, lt, steps);
            var t := RunFrom(Do(s, lt, Tick(now)), lt, more);
            && (t.aborted ==> Fatal(s.shared, now))
            && (Launches(more) >= |TickBatch(s.shared, lt, now)| ==> (t.aborted <==> Fatal(s.shared, now)))
  {
    var s := Run(u, lt, steps);
    RunStored(u, lt, steps);
    TickPhase(s, lt, now, more);
  }

  lemma TickPhase(s: System, lt: LocalTime, now: int, more: seq<Step>)
    requires UniqueNames(s.shared.jobs) && 0 <= now && NoTick(more) && !s.aborted && s.batch == []
    ensures var t := RunFrom(DoTick(s, lt, now), lt, more);
            && (t.aborted ==> Fatal(s.shared, now))
            && (Launches(more) >= |TickBatch(s.shared, lt, now)| ==> (t.aborted <==> Fatal(s.shared, now)))
            && (Launches(more) >= |TickBatch(s.shared, lt, now)| && !t.aborted ==>
                  t.shared.owner == s.shared.owner + Names(TickBatch(s.shared, lt, now)))
  {
    var ticked := DoTick(s, lt, now);
    var t := RunFrom(ticked, lt, more);
    ClearIffNotFatal(s.shared, lt, now);
    LaunchPhase(ticked, lt, more);
    if !t.aborted && Launches(more) >= |ticked.batch| {
      assert ticked.batch[|ticked.batch|..] == [] && ticked.batch[..|ticked.batch|] == ticked.batch;
      assert Names(t.batch) == [];
    }
  }

  // ----- What reaping is for -----

  /** From every reachable state: right after a reap a tick is fatal if and only if it clashes. */
  lemma ReapedFatalIff(u: Setup, lt: LocalTime, steps: seq<Step>, now: int)
    requires !Run(u, lt, steps).aborted && Run(u, lt, steps).batch == []
    ensures var s := Run(u, lt, steps);
            var t := Do(s, lt, Reap);
            && !t.aborted && t.batch == [] && t.shared == s.shared.(running := t.shared.running)
            && (forall n :: n in t.shared.running <==> n in s.shared.running && exists id :: Live(s.shared, id, n))
            && (Fatal(t.shared, now) <==> !NoClash(t.shared, now))
            && (NoClash(t.shared, now) <==> NoClash(s.shared, now))
  {
    var s := Run(u, lt, steps);
    forall n ensures IsRunning(s.shared, n) <==> exists id :: Live(s.shared, id, n) {
      RunningIffLive(u, lt, steps, n);
    }
    var t := Do(s, lt, Reap);
    assert forall n :: IsRunning(t.shared, n) == IsRunning(s.shared, n);
  }

  /** A job whose worker has finished, and which is requested or due, is started again by the next turn
      of the loop: reaped, launched without an abort, and given a new worker. */
  lemma FinishedRunsAgain(u: Setup, lt: LocalTime, steps: seq<Step>, name: string, now: int, more: seq<Step>)
    requires ValidSetup(u) && 0 <= now && NoTick(more)
    requires var s := Run(u, lt, steps);
             && !s.aborted && s.batch == [] && FindJob(s.shared.jobs, name).Some?
             && (forall id :: !Live(s.shared, id, name)) && Wanted(s.shared, now, name) && NoClash(s.shared, now)
    requires var r := Do(Run(u, lt, steps), lt, Reap); Launches(more) >= |TickBatch(r.shared, lt, now)|
    ensures var s := Run(u, lt, steps);
            var t := RunFrom(Do(Do(s, lt, Reap), lt, Tick(now)), lt, more);
            !t.aborted && exists id :: |s.shared.owner| <= id < |t.shared.owner| && t.shared.owner[id] == name
  {
    var s := Run(u, lt, steps);
    var r := Do(s, lt, Reap);
    ReapedFatalIff(u, lt, steps, now);
    ReapedStillWanted(u, lt, steps, name, now);
    RunSnoc(Init(u, lt), lt, steps, Reap);
    RunStored(u, lt, steps + [Reap]);
    TickPhase(r, lt, now, more);
    TickLaunchesExact(r.shared, lt, now, name);
    NewestWorker(s.shared.owner, Names(TickBatch(r.shared, lt, now)), name);
  }

  lemma ReapedStillWanted(u: Setup, lt: LocalTime, steps: seq<Step>, name: string, now: int)
    requires var s := Run(u, lt, steps);
             && !s.aborted && s.batch == [] && FindJob(s.shared.jobs, name).Some?
             && (forall id :: !Live(s.shared, id, name)) && Wanted(s.shared, now, name)
    ensures var r := Do(Run(u, lt, steps), lt, Reap); Ready(r.shared, name) && Wanted(r.shared, now, name)
  {
    ReapedFatalIff(u, lt, steps, now);
    RunningIffLive(u, lt, steps, name);
  }

  lemma NewestWorker(owner: seq<string>, names: seq<string>, name: string)
    requires name in names
    ensures exists id :: |owner| <= id < |owner + names| && (owner + names)[id] == name
  {
    var i :| 0 <= i < |names| && names[i] == name;
    assert (owner + names)[|owner| + i] == name;
  }

  /** No tick of the run is fatal. */
  ghost predicate CalmRun(u: Setup, lt: LocalTime, steps: seq<Step>) {
    forall i :: 0 <= i < |steps| && steps[i].Tick? && Run(u, lt, steps[..i]).batch == [] ==>
                  !Fatal(Run(u, lt, steps[..i]).shared, steps[i].now)
  }

  lemma CalmFront(u: Setup, lt: LocalTime, steps: seq<Step>)
    requires steps != [] && CalmRun(u, lt, steps)
    ensures CalmRun(u, lt, steps[..|steps| - 1])
  {
    var front := steps[..|steps| - 1];
    assert forall i :: 0 <= i < |front| ==> front[..i] == steps[..i] && front[i] == steps[i];
  }

  lemma CalmStep(s: System, lt: LocalTime, step: Step)
    requires UniqueNames(s.shared.jobs) && !s.aborted && ClearNow(s)
    requires step.Tick? && s.batch == [] ==> !Fatal(s.shared, step.now)
    ensures !Do(s, lt, step).aborted && ClearNow(Do(s, lt, step))
  {
    if step.Tick? {
      if s.batch == [] && 0 <= step.now {
        ClearIffNotFatal(s.shared, lt, step.now);
      }
    } else if step.LaunchNext? && s.batch != [] {
      LaunchClear(s);
    } else {
      OtherStepClear(s, lt, step);
    }
  }

  /** Over whole runs: as long as no tick is fatal the process lives. */
  lemma {:induction false} CalmRunLives(u: Setup, lt: LocalTime, steps: seq<Step>)
    requires ValidSetup(u) && CalmRun(u, lt, steps)
    ensures !Run(u, lt, steps).aborted && ClearNow(Run(u, lt, steps))
  {
    if steps == [] {
      assert Names(Run(u, lt, steps).batch) == [];
    } else {
      var front, last := steps[..|steps| - 1], steps[|steps| - 1];
      CalmFront(u, lt, steps);
      CalmRunLives(u, lt, front);
      RunStored(u, lt, front);
      assert steps[..|front|] == front;
      CalmStep(Run(u, lt, front), lt, last);
    }
  }

  // ----- Two ways to a fatal tick -----

  lemma ReapKeepsLive(s: System, lt: LocalTime, name: string)
    requires !s.aborted && s.batch == [] && IsRunning(s.shared, name)
    ensures var t := Do(s, lt, Reap);
            !t.aborted && t.batch == [] && t.shared == s.shared.(running := t.shared.running) &&
            name in t.shared.running && t.shared.running[name] == s.shared.running[name]
  {
  }

  lemma FinishFrees(s: System, lt: LocalTime, name: string)
    requires !s.aborted && IsRunning(s.shared, name)
    ensures var t := Do(s, lt, Finish(s.shared.running[name]));
            !t.aborted && t.batch == s.batch && !IsRunning(t.shared, name) && t.shared == s.shared.(done := t.shared.done)
  {
  }

  /** A worker that finishes between the reap and the tick of one turn of the loop, while its job is
      requested or due, takes the process with it: the entry is still there when the job is launched. */
  lemma LateFinishAborts(u: Setup, lt: LocalTime, steps: seq<Step>, name: string, now: int, more: seq<Step>)
    requires ValidSetup(u) && 0 <= now && NoTick(more)
    requires var s := Run(u, lt, steps);
             && !s.aborted && s.batch == [] && IsRunning(s.shared, name)
             && FindJob(s.shared.jobs, name).Some? && Wanted(s.shared, now, name)
    ensures var s := Run(u, lt, steps);
            var t := Do(Do(s, lt, Reap), lt, Finish(s.shared.running[name]));
            && Fatal(t.shared, now)
            && (Launches(more) >= |TickBatch(t.shared, lt, now)| ==> RunFrom(Do(t, lt, Tick(now)), lt, more).aborted)
  {
    var s := Run(u, lt, steps);
    var finish := Finish(s.shared.running[name]);
    var t := Do(Do(s, lt, Reap), lt, finish);
    ReapKeepsLive(s, lt, name);
    FinishFrees(Do(s, lt, Reap), lt, name);
    assert name in t.shared.running && Ready(t.shared, name) && Wanted(t.shared, now, name);
    RunSnoc(Init(u, lt), lt, steps, Reap);
    RunSnoc(Init(u, lt), lt, steps + [Reap], finish);
    TickAbortsIff(u, lt, steps + [Reap] + [finish], now, more);
  }

  /** The only job is `job`, it has no schedule, and nothing is going on but what is queued. */
  ghost predicate Quiet(s: System, job: Job) {
    && !s.aborted && s.batch == [] && s.api == Idle && job.schedule == None
    && s.shared.jobs == [job] && s.shared.nextRun == map[]
  }

  lemma StartsQuiet(job: Job, lt: LocalTime, now: int)
    requires job.source == "config" && job.schedule == None && 0 <= now
    ensures var u := Setup([job], [], map[], now);
            ValidSetup(u) && Quiet(Init(u, lt), job) && Init(u, lt).shared.queue == [] && Init(u, lt).shared.running == map[]
  {
    assert Merged([job], []) == [job];
    assert [job][..0] == [] && InitialNextRun([], lt, now) == map[];
  }

  ghost function AskFor(s: System, lt: LocalTime, name: string): System {
    Do(Do(s, lt, RunCheck(name)), lt, RunEnqueue)
  }

  lemma AskedState(s: System, lt: LocalTime, job: Job)
    requires Quiet(s, job)
    ensures var t := AskFor(s, lt, job.name);
            && Quiet(t, job) && t.shared.queue == s.shared.queue + [Request(job.name, "manual", s.shared.issued)]
            && t.shared.running == s.shared.running && t.shared.done == s.shared.done
  {
    assert FindJob([job], job.name) == Some(job);
  }

  lemma OneLaunch(sh: Shared, lt: LocalTime, now: int, job: Job, r: Request)
    requires sh.jobs == [job] && job.schedule == None && sh.nextRun == map[] && sh.queue == [r] && r.name == job.name
    requires !IsRunning(sh, job.name)
    ensures TickBatch(sh, lt, now) == [Launch(job, Some(r))] && Deferred(sh, sh.queue) == []
    ensures Advanced(sh.jobs, sh.nextRun, lt, now) == map[]
  {
    assert FindJob([job], job.name) == Some(job) && Ready(sh, job.name);
    assert [r][..0] == [] && Dequeued(sh, []) == [] && Deferred(sh, []) == [];
    assert Dequeued(sh, [r]) == [Launch(job, Some(r))];
    assert [job][..0] == [] && Advanced([], map[], lt, now) == map[];
    assert DueJobs([], map[], lt, now) == [] && DueJobs([job], map[], lt, now) == [];
    assert Scheduled(sh, []) == [];
  }

  /** A tick and a launch from a quiet state with one request for the idle job. */
  lemma TickAndLaunch(s: System, lt: LocalTime, now: int, job: Job, r: Request)
    requires Quiet(s, job) && s.shared.queue == [r] && r.name == job.name && !IsRunning(s.shared, job.name) && 0 <= now
    ensures var t := Do(Do(s, lt, Tick(now)), lt, LaunchNext);
            if job.name in s.shared.running then t.aborted
            else Quiet(t, job) && t.shared.queue == [] && t.shared.done == s.shared.done + [false] &&
                 t.shared.running == s.shared.running[job.name := |s.shared.done|]
  {
    OneLaunch(s.shared, lt, now, job, r);
    var t := Do(s, lt, Tick(now));
    assert t.batch == [Launch(job, Some(r))] && t.shared.running == s.shared.running && t.shared.done == s.shared.done;
  }

  /** The daemon has started, run the job once on request, and been asked for it again. */
  ghost function AskedAgain(job: Job, lt: LocalTime, now: int): System {
    var asked := AskFor(Init(Setup([job], [], map[], now), lt), lt, job.name);
    AskFor(Do(Do(asked, lt, Tick(now)), lt, LaunchNext), lt, job.name)
  }

  lemma AskedAgainState(job: Job, lt: LocalTime, now: int)
    requires job.source == "config" && job.schedule == None && 0 <= now
    ensures var s := AskedAgain(job, lt, now);
            && Quiet(s, job) && |s.shared.queue| == 1 && s.shared.queue[0].name == job.name
            && s.shared.running == map[job.name := |s.shared.done| - 1] && IsRunning(s.shared, job.name)
  {
    StartsQuiet(job, lt, now);
    var init := Init(Setup([job], [], map[], now), lt);
    AskedState(init, lt, job);
    var asked := AskFor(init, lt, job.name);
    TickAndLaunch(asked, lt, now, job, asked.shared.queue[0]);
    AskedState(Do(Do(asked, lt, Tick(now)), lt, LaunchNext), lt, job);
  }

  lemma LateState(s: System, lt: LocalTime, job: Job)
    requires Quiet(s, job) && IsRunning(s.shared, job.name)
    ensures var t := Do(Do(s, lt, Reap), lt, Finish(s.shared.running[job.name]));
            Quiet(t, job) && t.shared.queue == s.shared.queue && !IsRunning(t.shared, job.name) &&
            job.name in t.shared.running
  {
    ReapKeepsLive(s, lt, job.name);
    FinishFrees(Do(s, lt, Reap), lt, job.name);
  }

  /** A run without any clash that ends in an abort: the job is requested again while it runs, its
      worker finishes after the reap, and the tick launches it. */
  lemma CalmAbort(job: Job, lt: LocalTime, now: int)
    requires job.source == "config" && job.schedule == None && 0 <= now
    ensures NoClash(AskFor(Init(Setup([job], [], map[], now), lt), lt, job.name).shared, now)
    ensures var again := AskedAgain(job, lt, now);
            job.name in again.shared.running &&
            var late := Do(Do(again, lt, Reap), lt, Finish(again.shared.running[job.name]));
            NoClash(late.shared, now) && !late.aborted && Do(Do(late, lt, Tick(now)), lt, LaunchNext).aborted
  {
    StartsQuiet(job, lt, now);
    AskedState(Init(Setup([job], [], map[], now), lt), lt, job);
    AskedAgainState(job, lt, now);
    var again := AskedAgain(job, lt, now);
    LateState(again, lt, job);
    var late := Do(Do(again, lt, Reap), lt, Finish(again.shared.running[job.name]));
    TickAndLaunch(late, lt, now, job, late.shared.queue[0]);
  }

  /** Two manual requests for one job before a tick: from every reachable state in which the job is
      known and idle, the API thread at rest and no launch outstanding, they end the process. */
  lemma TwoRequestsAbort(u: Setup, lt: LocalTime, steps: seq<Step>, name: string, now: int, more: seq<Step>)
    requires ValidSetup(u) && 0 <= now && NoTick(more)
    requires var s := Run(u, lt, steps); !s.aborted && s.batch == [] && s.api.Idle? && Ready(s.shared, name)
    ensures var t := AskFor(AskFor(Run(u, lt, steps), lt, name), lt, name);
            && !NoClash(t.shared, now)
            && (Launches(more) >= |TickBatch(t.shared, lt, now)| ==> RunFrom(Do(t, lt, Tick(now)), lt, more).aborted)
  {
    var s := Run(u, lt, steps);
    var once := AskFor(s, lt, name);
    var twice := AskFor(once, lt, name);
    Asked(s, lt, name);
    Asked(once, lt, name);
    var n := |s.shared.queue|;
    assert twice.shared.queue[n].name == name && twice.shared.queue[n + 1].name == name;
    assert RequestedTwice(twice.shared.queue, name);
    ClashOf(twice.shared, now, name);
    var longer := steps + [RunCheck(name)] + [RunEnqueue];
    RunAsked(u, lt, steps, name);
    RunAsked(u, lt, longer, name);
    TickAbortsIff(u, lt, longer + [RunCheck(name)] + [RunEnqueue], now, more);
  }

  lemma Asked(s: System, lt: LocalTime, name: string)
    requires !s.aborted && s.batch == [] && s.api.Idle? && Ready(s.shared, name)
    ensures var t := AskFor(s, lt, name);
            && !t.aborted && t.batch == [] && t.api.Idle? && Ready(t.shared, name)
            && t.shared.queue == s.shared.queue + [Request(name, "manual", s.shared.issued)]
  {
  }

  lemma RunAsked(u: Setup, lt: LocalTime, steps: seq<Step>, name: string)
    ensures Run(u, lt, steps + [RunCheck(name)] + [RunEnqueue]) == AskFor(Run(u, lt, steps), lt, name)
  {
    RunSnoc(Init(u, lt), lt, steps, RunCheck(name));
    RunSnoc(Init(u, lt), lt, steps + [RunCheck(name)], RunEnqueue);
  }

  /** Such a state is the very first one of a daemon with one configured job. */
  lemma TwoRequestsHappen(job: Job, lt: LocalTime, now: int)
    requires job.source == "config" && 0 <= now
    ensures var u := Setup([job], [], map[], now);
            var s := Run(u, lt, []);
            ValidSetup(u) && !s.aborted && s.batch == [] && s.api.Idle? && Ready(s.shared, job.name)
  {
    assert Merged([job], []) == [job] && FindJob([job], job.name) == Some(job);
  }
}

/** Every accepted run request is launched, queued or dropped, exactly once and in order. */
module SchedulerRequests {
  import opened Basics
  import opened Cron
  import opened SchedulerModel
  import opened SchedulerRuns
  import opened SchedulerStore
  import opened SchedulerSafety

  /** Accepted = still queued + in the batch being launched + launched + dropped. */
  ghost predicate Conserved(s: System) {
    s.past.accepted == multiset(s.shared.queue) + Requests(s.batch) + s.past.launched + s.past.dropped
  }

  /** The queue is in order of acceptance. */
  ghost predicate InOrder(s: Shared) {
    && (forall i, j :: 0 <= i < j < |s.queue| ==> s.queue[i].serial < s.queue[j].serial)
    && (forall i :: 0 <= i < |s.queue| ==> s.queue[i].serial < s.issued)
  }

  /** No request is accepted twice. */
  ghost predicate AcceptedOnce(s: System) {
    && (forall r :: r in s.past.accepted ==> r.serial < s.shared.issued)
    && (forall r :: s.past.accepted[r] <= 1)
  }

  ghost predicate Accounted(s: System) {
    Conserved(s) && InOrder(s.shared) && AcceptedOnce(s)
  }

  /** What the last request of the queue adds to each of the three parts. */
  lemma LastRequest(s: Shared, q: seq<Request>)
    requires q != []
    ensures var front, r := q[..|q| - 1], q[|q| - 1];
            var known, running := FindJob(s.jobs, r.name).Some?, IsRunning(s, r.name);
            && multiset(q) == multiset(front) + multiset{r}
            && multiset(Deferred(s, q)) == multiset(Deferred(s, front)) + (if known && running then multiset{r} else multiset{})
            && Requests(Dequeued(s, q)) == Requests(Dequeued(s, front)) + (if known && !running then multiset{r} else multiset{})
            && multiset(Dropped(s, q)) == multiset(Dropped(s, front)) + (if !known then multiset{r} else multiset{})
  {
    var front, r := q[..|q| - 1], q[|q| - 1];
    assert q == front + [r];
    if Ready(s, r.name) {
      RequestsSnoc(Dequeued(s, front), Launch(FindJob(s.jobs, r.name).value, Some(r)));
    } else {
      assert Dequeued(s, q) == Dequeued(s, front);
    }
  }

  lemma {:induction false} QueueSplits(s: Shared, q: seq<Request>)
    ensures multiset(q) == multiset(Deferred(s, q)) + Requests(Dequeued(s, q)) + multiset(Dropped(s, q))
  {
    if q != [] {
      QueueSplits(s, q[..|q| - 1]);
      LastRequest(s, q);
    }
  }

  lemma RequestsSnoc(batch: seq<Launch>, l: Launch)
    ensures Requests(batch + [l]) == Requests(batch) + Own(l)
  {
  }

  lemma {:induction false} ScheduledHasNone(s: Shared, batch: seq<Launch>, due: seq<Job>)
    ensures Requests(batch + Scheduled(s, due)) == Requests(batch)
  {
    if due == [] {
      assert batch + Scheduled(s, due) == batch;
    } else {
      var front, job := due[..|due| - 1], due[|due| - 1];
      ScheduledHasNone(s, batch, front);
      if IsRunning(s, job.name) {
        assert Scheduled(s, due) == Scheduled(s, front);
      } else {
        assert batch + Scheduled(s, due) == (batch + Scheduled(s, front)) + [Launch(job, None)];
        RequestsSnoc(batch + Scheduled(s, front), Launch(job, None));
      }
    }
  }

  lemma ConsSnoc(l: Launch, front: seq<Launch>, last: Launch)
    ensures [l] + (front + [last]) == ([l] + front) + [last]
  {
  }

  /** Moving `m` from the batch to the launched requests keeps the sum. */
  lemma MoveToLaunched(q: multiset<Request>, m: multiset<Request>, b: multiset<Request>, l: multiset<Request>, d: multiset<Request>)
    ensures q + (m + b) + l + d == q + b + (l + m) + d
  {
  }

  lemma {:induction false} RequestsCons(l: Launch, tail: seq<Launch>)
    ensures Requests([l] + tail) == Own(l) + Requests(tail)
  {
    if tail == [] {
      assert [l] + tail == [] + [l];
      RequestsSnoc([], l);
    } else {
      var front, last := tail[..|tail| - 1], tail[|tail| - 1];
      RequestsCons(l, front);
      RequestsSnoc([l] + front, last);
      ConsSnoc(l, front, last);
      assert tail == front + [last];
      UnionAssociates(Own(l), Requests(front), Own(last));
    }
  }

  /** Deferring keeps the relative order. */
  lemma {:induction false} DeferredInOrder(s: Shared, q: seq<Request>)
    requires forall i, j :: 0 <= i < j < |q| ==> q[i].serial < q[j].serial
    ensures forall i, j :: 0 <= i < j < |Deferred(s, q)| ==> Deferred(s, q)[i].serial < Deferred(s, q)[j].serial
    ensures forall r :: r in Deferred(s, q) ==> r in q
  {
    if q != [] {
      var front, r := q[..|q| - 1], q[|q| - 1];
      DeferredInOrder(s, front);
      var d := Deferred(s, front);
      forall i | 0 <= i < |d| ensures d[i].serial < r.serial {
        assert d[i] in front;
      }
    }
  }

  lemma TickAccounted(s: System, lt: LocalTime, now: int)
    requires Accounted(s)
    ensures Accounted(DoTick(s, lt, now))
  {
    if s.batch == [] && now >= 0 {
      var sh := s.shared;
      QueueSplits(sh, sh.queue);
      ScheduledHasNone(sh, Dequeued(sh, sh.queue), DueJobs(sh.jobs, sh.nextRun, lt, now));
      DeferredInOrder(sh, sh.queue);
      var d := Deferred(sh, sh.queue);
      forall i | 0 <= i < |d| ensures d[i].serial < sh.issued {
        assert d[i] in sh.queue;
      }
    }
  }

  lemma AcceptConserves(s: System, name: string, trigger: string)
    requires Conserved(s)
    ensures Conserved(Accept(s, name, trigger))
  {
  }

  lemma AcceptOnce(s: System, name: string, trigger: string)
    requires AcceptedOnce(s)
    ensures AcceptedOnce(Accept(s, name, trigger))
  {
  }

  lemma AcceptAccounted(s: System, name: string, trigger: string)
    requires Accounted(s)
    ensures Accounted(Accept(s, name, trigger))
  {
    AcceptConserves(s, name, trigger);
    AcceptOnce(s, name, trigger);
    assert InOrder(Accept(s, name, trigger).shared);
  }

  lemma LaunchConserves(s: System)
    requires Conserved(s) && s.batch != []
    ensures s.past.accepted == multiset(s.shared.queue) + Requests(s.batch[1..]) +
                               (s.past.launched + Own(s.batch[0])) + s.past.dropped
  {
    RequestsCons(s.batch[0], s.batch[1..]);
    assert [s.batch[0]] + s.batch[1..] == s.batch;
    MoveToLaunched(multiset(s.shared.queue), Own(s.batch[0]), Requests(s.batch[1..]), s.past.launched, s.past.dropped);
  }

  lemma LaunchAccounted(s: System)
    requires Accounted(s)
    ensures Accounted(DoLaunch(s))
  {
    if s.batch != [] {
      LaunchConserves(s);
    }
  }

  lemma StepAccounted(s: System, lt: LocalTime, step: Step)
    requires Accounted(s)
    ensures Accounted(Do(s, lt, step))
  {
    if !MovesRequests(step) {
      StepFrame(s, lt, step);
    } else if !s.aborted {
      match step
      case Tick(now) => TickAccounted(s, lt, now);
      case LaunchNext => LaunchAccounted(s);
      case RunEnqueue => RunEnqueueAccounted(s);
      case ScanEnqueue(who) => ScanEnqueueAccounted(s, who);
    }
  }

  lemma RunEnqueueAccounted(s: System)
    requires Accounted(s)
    ensures Accounted(DoRunEnqueue(s))
  {
    if s.api.RunChecked? {
      AcceptAccounted(s, s.api.name, "manual");
    }
  }

  lemma ScanEnqueueAccounted(s: System, who: Who)
    requires Accounted(s)
    ensures Accounted(DoScanEnqueue(s, who))
  {
    var c := ScannerOf(s, who);
    if c.Scanning? && c.phase.ToEnqueue? && c.index < |c.candidates| {
      AcceptAccounted(s, c.candidates[c.index].name, "missed");
      var t, x := DoScanEnqueue(s, who), Accept(s, c.candidates[c.index].name, "missed");
      assert t.shared == x.shared && t.batch == x.batch && t.past.accepted == x.past.accepted;
    }
  }

  /** Request conservation over every run: what was accepted is queued, about to be launched,
      launched or dropped, each request exactly once, and the queue keeps the order of acceptance. */
  lemma {:induction false} RequestsConserved(u: Setup, lt: LocalTime, steps: seq<Step>)
    ensures Accounted(Run(u, lt, steps))
  {
    if steps != [] {
      RequestsConserved(u, lt, steps[..|steps| - 1]);
      StepAccounted(Run(u, lt, steps[..|steps| - 1]), lt, steps[|steps| - 1]);
    }
  }

  /** A request leaves the queue undone only because its job is gone at that tick. */
  lemma {:induction false} DroppedAreUnknown(s: Shared, q: seq<Request>)
    ensures forall r :: r in Dropped(s, q) ==> r in q && FindJob(s.jobs, r.name).None?
  {
    if q != [] {
      DroppedAreUnknown(s, q[..|q| - 1]);
    }
  }

  /** What a batch may hold: registered jobs, each for a queued request of its name or for being due. */
  ghost predicate WellFounded(s: Shared, now: int, l: Launch) {
    && l.job in s.jobs
    && (l.origin.Some? ==> l.origin.value in s.queue && l.origin.value.name == l.job.name)
    && (l.origin.None? ==> IsDue(l.job, s.nextRun, now))
  }

  lemma {:induction false} DequeuedFounded(s: Shared, q: seq<Request>)
    ensures forall l :: l in Dequeued(s, q) ==>
              l.job in s.jobs && l.origin.Some? && l.origin.value in q && l.origin.value.name == l.job.name
  {
    if q != [] {
      DequeuedFounded(s, q[..|q| - 1]);
    }
  }

  lemma {:induction false} ScheduledFounded(s: Shared, due: seq<Job>)
    ensures forall l :: l in Scheduled(s, due) ==> l.job in due && l.origin.None?
  {
    if due != [] {
      ScheduledFounded(s, due[..|due| - 1]);
    }
  }

  /** Launches for requests come first, in the order of the requests' acceptance. */
  ghost predicate RequestsFirst(batch: seq<Launch>) {
    forall i, j :: 0 <= i < j < |batch| && batch[j].origin.Some? ==>
                     batch[i].origin.Some? && batch[i].origin.value.serial < batch[j].origin.value.serial
  }

  lemma {:induction false} DequeuedInOrder(s: Shared, q: seq<Request>)
    requires forall i, j :: 0 <= i < j < |q| ==> q[i].serial < q[j].serial
    ensures RequestsFirst(Dequeued(s, q))
  {
    if q != [] {
      var front, r := q[..|q| - 1], q[|q| - 1];
      DequeuedInOrder(s, front);
      DequeuedFounded(s, front);
      var d := Dequeued(s, front);
      forall i | 0 <= i < |d| ensures d[i].origin.Some? && d[i].origin.value.serial < r.serial {
        assert d[i] in d;
      }
    }
  }

  /** In every reachable state: a tick launches registered jobs as they are, requests first and in
      order of acceptance, and nothing but requested and due jobs. */
  lemma BatchExact(u: Setup, lt: LocalTime, steps: seq<Step>, now: int)
    requires ValidSetup(u)
    ensures var s := Run(u, lt, steps).shared;
            var batch := TickBatch(s, lt, now);
            RequestsFirst(batch) && forall l :: l in batch ==> WellFounded(s, now, l)
  {
    var s := Run(u, lt, steps).shared;
    var due := DueJobs(s.jobs, s.nextRun, lt, now);
    RequestsConserved(u, lt, steps);
    RunStored(u, lt, steps);
    DequeuedFounded(s, s.queue);
    DequeuedInOrder(s, s.queue);
    ScheduledFounded(s, due);
    DueJobsExact(s.jobs, s.nextRun, lt, now);
    ThenNone(Dequeued(s, s.queue), Scheduled(s, due));
  }

  lemma ThenNone(a: seq<Launch>, b: seq<Launch>)
    requires RequestsFirst(a) && forall l :: l in b ==> l.origin.None?
    ensures RequestsFirst(a + b)
  {
    assert forall k :: 0 <= k < |b| ==> b[k].origin.None?;
  }
}

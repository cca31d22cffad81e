/** One job execution: attempts, linear backoff and the failure alert. */
module Worker {
  import opened Basics
  import opened ProcessRunner

  /** What a worker does, in order: a recorded attempt, a 100 ms backoff sleep, or the alert. */
  datatype Event = Attempt(n: nat, status: RunStatus) | Sleep | FailureAlert

  function Sleeps(n: nat): seq<Event> {
    if n == 0 then [] else Sleeps(n - 1) + [Sleep]
  }

  /** Everything from attempt `a` on, when nothing interrupts. */
  function FromAttempt(a: nat, attempts: nat, outcome: nat -> RunStatus): seq<Event>
    requires 1 <= a <= attempts
    decreases attempts - a, 1
  {
    [Attempt(a, outcome(a))] + AfterAttempt(a, attempts, outcome)
  }

  function AfterAttempt(a: nat, attempts: nat, outcome: nat -> RunStatus): seq<Event>
    requires 1 <= a <= attempts
    decreases attempts - a, 0
  {
    if outcome(a) == Success then []
    else if a < attempts then Sleeps(10 * a) + FromAttempt(a + 1, attempts, outcome)
    else [FailureAlert]
  }

  /** An uninterrupted execution. A negative retry count leaves no attempt, only the alert. */
  function FullRun(retries: int, outcome: nat -> RunStatus): seq<Event> {
    if retries < 0 then [FailureAlert] else FromAttempt(1, retries + 1, outcome)
  }

  /** The shutdown flag as its readers see it: load number n (from 0) finds the daemon active. */
  predicate ActiveAt(lifetime: Option<nat>, load: nat) {
    lifetime.None? || load < lifetime.value
  }

  /** The first `n` events when only `n` loads find the daemon active, else all of them. */
  function CutAt(full: seq<Event>, lifetime: Option<nat>): seq<Event> {
    if lifetime.Some? && lifetime.value < |full| then full[..lifetime.value] else full
  }

  lemma Resume<T>(front: seq<T>, rest: seq<T>, part: seq<T>)
    requires part <= front
    ensures var all := front + rest; all == part + all[|part|..]
    ensures part == front ==> (front + rest)[|part|..] == rest
  {
  }

  /** The worker loop. Every event is guarded by one load of the shutdown flag, so a shutdown
      cuts the uninterrupted execution at exactly that load. */
  method Work(retries: int, outcome: nat -> RunStatus, lifetime: Option<nat>) returns (events: seq<Event>)
    ensures events == CutAt(FullRun(retries, outcome), lifetime)
  {
    var attempts := retries + 1;
    var status := SpawnError;
    var load := 0;
    var attempt := 1;
    ghost var full := FullRun(retries, outcome);
    ghost var todo := full;
    ghost var cut := false;
    events := [];
    while attempt <= attempts
      invariant 1 <= attempt && full == events + todo
      invariant lifetime.Some? ==> |events| <= lifetime.value
      invariant cut ==> !ActiveAt(lifetime, |events|) && !ActiveAt(lifetime, load)
      invariant !cut ==> load == |events|
      invariant !cut && attempt <= attempts ==> todo == FromAttempt(attempt, attempts, outcome)
      invariant !cut && attempt > attempts ==> todo == [FailureAlert] && status != Success
      decreases attempts - attempt
    {
      var active := ActiveAt(lifetime, load);
      load := load + 1;
      if !active {
        cut := true;
        break;
      }
      status := outcome(attempt);
      Reassociate(events, [Attempt(attempt, status)], AfterAttempt(attempt, attempts, outcome));
      events := events + [Attempt(attempt, status)];
      todo := AfterAttempt(attempt, attempts, outcome);
      if status == Success {
        break;
      }
      if attempt < attempts {
        var slept, interrupted;
        slept, load, interrupted := Backoff(attempt, lifetime, load);
        Resume(Sleeps(10 * attempt), FromAttempt(attempt + 1, attempts, outcome), slept);
        Reassociate(events, slept, todo[|slept|..]);
        events := events + slept;
        todo := todo[|slept|..];
        cut := interrupted;
      }
      attempt := attempt + 1;
    }
    if ActiveAt(lifetime, load) && status != Success {
      events := events + [FailureAlert];
    }
  }

  /** The interruptible backoff after a failed attempt: ten sleeps per attempt made. */
  method Backoff(attempt: nat, lifetime: Option<nat>, load: nat)
    returns (slept: seq<Event>, load': nat, interrupted: bool)
    requires lifetime.Some? ==> load <= lifetime.value
    ensures slept <= Sleeps(10 * attempt)
    ensures lifetime.Some? ==> load + |slept| <= lifetime.value
    ensures interrupted ==> !ActiveAt(lifetime, load + |slept|) && load' > load + |slept|
    ensures !interrupted ==> slept == Sleeps(10 * attempt) && load' == load + |slept|
  {
    slept, load', interrupted := [], load, false;
    var i := 0;
    while i < 10 * attempt
      invariant 0 <= i <= 10 * attempt && slept == Sleeps(i) && |slept| == i
      invariant load' == load + i && (lifetime.Some? ==> load' <= lifetime.value)
    {
      var active := ActiveAt(lifetime, load');
      load' := load' + 1;
      if !active {
        interrupted := true;
        break;
      }
      slept := slept + [Sleep];
      i := i + 1;
    }
    SleepsPrefix(|slept|, 10 * attempt);
  }

  lemma {:induction false} SleepsPrefix(m: nat, n: nat)
    requires m <= n
    ensures |Sleeps(n)| == n && FailureAlert !in Sleeps(n)
    ensures Sleeps(m) <= Sleeps(n)
  {
    if m < n {
      SleepsPrefix(m, n - 1);
    } else if n > 0 {
      SleepsPrefix(n - 1, n - 1);
    }
  }

  /** `k` is the first successful attempt, or the last attempt when none succeeds. */
  ghost predicate LastAttempt(k: nat, attempts: nat, outcome: nat -> RunStatus) {
    && 1 <= k <= attempts
    && (forall j :: 1 <= j < k ==> outcome(j) != Success)
    && (outcome(k) == Success || k == attempts)
  }

  function AlertsOf(failed: bool): nat { if failed then 1 else 0 }

  /** Backoff sleeps between attempts `a` and `k`. */
  function SleepsBetween(a: nat, k: nat): nat
    decreases k - a
  {
    if a >= k then 0 else 10 * a + SleepsBetween(a + 1, k)
  }

  lemma {:induction false} SleepsClosedForm(a: nat, k: nat)
    requires 1 <= a <= k
    ensures SleepsBetween(a, k) == 5 * (k * (k - 1)) - 5 * (a * (a - 1))
    decreases k - a
  {
    if a < k {
      SleepsClosedForm(a + 1, k);
      assert (a + 1) * a == a * (a - 1) + 2 * a;
    }
  }

  /** Sleeps, alerts and length of an execution. */
  ghost predicate Tallies(run: seq<Event>, attempts: int, sleeps: int, alerts: int) {
    Count(run, Sleep) == sleeps && Count(run, FailureAlert) == alerts && |run| == attempts + sleeps + alerts
  }

  function Count(run: seq<Event>, e: Event): nat {
    if run == [] then 0 else Count(run[..|run| - 1], e) + if run[|run| - 1] == e then 1 else 0
  }

  lemma {:induction false} CountAdd(x: seq<Event>, y: seq<Event>, e: Event)
    ensures Count(x + y, e) == Count(x, e) + Count(y, e)
  {
    if y == [] {
      assert x + y == x;
    } else {
      assert (x + y)[..|x + y| - 1] == x + y[..|y| - 1];
      CountAdd(x, y[..|y| - 1], e);
    }
  }

  lemma TalliesAdd(x: seq<Event>, y: seq<Event>, a: int, s: int, f: int, a': int, s': int, f': int)
    requires Tallies(x, a, s, f) && Tallies(y, a', s', f')
    ensures Tallies(x + y, a + a', s + s', f + f')
  {
    CountAdd(x, y, Sleep);
    CountAdd(x, y, FailureAlert);
  }

  lemma OneTally(e: Event)
    ensures e.Attempt? ==> Tallies([e], 1, 0, 0)
    ensures Tallies([Sleep], 0, 1, 0) && Tallies([FailureAlert], 0, 0, 1)
  {
  }

  lemma {:induction false} SleepsTally(n: nat)
    ensures Tallies(Sleeps(n), 0, n, 0)
  {
    if n > 0 {
      SleepsTally(n - 1);
      OneTally(Sleep);
      TalliesAdd(Sleeps(n - 1), [Sleep], 0, n - 1, 0, 0, 1, 0);
    }
  }

  lemma LaterTally(first: Event, n: nat, rest: seq<Event>, a: int, s: int, f: int)
    requires first.Attempt? && Tallies(rest, a, s, f)
    ensures Tallies([first] + (Sleeps(n) + rest), a + 1, n + s, f)
  {
    SleepsTally(n);
    TalliesAdd(Sleeps(n), rest, 0, n, 0, a, s, f);
    OneTally(first);
    TalliesAdd([first], Sleeps(n) + rest, 1, 0, 0, a, n + s, f);
  }

  lemma LastTally(last: Event, failed: bool)
    requires last.Attempt?
    ensures Tallies([last] + if failed then [FailureAlert] else [], 1, 0, AlertsOf(failed))
  {
    OneTally(last);
    if failed {
      TalliesAdd([last], [FailureAlert], 1, 0, 0, 0, 0, 1);
    } else {
      assert [last] + [] == [last];
    }
  }

  lemma {:induction false} CountsFrom(a: nat, k: nat, attempts: nat, outcome: nat -> RunStatus)
    requires LastAttempt(k, attempts, outcome) && 1 <= a <= k
    ensures Tallies(FromAttempt(a, attempts, outcome), k - a + 1, SleepsBetween(a, k), AlertsOf(outcome(k) != Success))
    decreases k - a
  {
    if a < k {
      CountsFrom(a + 1, k, attempts, outcome);
      LaterTally(Attempt(a, outcome(a)), 10 * a, FromAttempt(a + 1, attempts, outcome),
                 k - a, SleepsBetween(a + 1, k), AlertsOf(outcome(k) != Success));
    } else {
      LastTally(Attempt(a, outcome(a)), outcome(a) != Success);
    }
  }

  /** Where each attempt stands: after the attempts before it and their backoffs. */
  lemma {:induction false} AttemptAt(a: nat, k: nat, attempts: nat, outcome: nat -> RunStatus, j: nat, at: int)
    requires LastAttempt(k, attempts, outcome) && 1 <= a <= j <= k && at == j - a + SleepsBetween(a, j)
    ensures StandsAt(FromAttempt(a, attempts, outcome), at, Attempt(j, outcome(j)))
    decreases k - a
  {
    if a < j {
      var rest := FromAttempt(a + 1, attempts, outcome);
      AttemptAt(a + 1, k, attempts, outcome, j, at - 1 - 10 * a);
      SleepsPrefix(10 * a, 10 * a);
      LaterAt(Attempt(a, outcome(a)), Sleeps(10 * a), rest, at - 1 - 10 * a);
      assert FromAttempt(a, attempts, outcome) == [Attempt(a, outcome(a))] + (Sleeps(10 * a) + rest);
    }
  }

  lemma LaterAt(first: Event, sleeps: seq<Event>, rest: seq<Event>, i: int)
    requires 0 <= i < |rest|
    ensures StandsAt([first] + (sleeps + rest), i + 1 + |sleeps|, rest[i])
  {
  }

  lemma CountsFromFirst(a: nat, k: nat, attempts: nat, outcome: nat -> RunStatus, sleeps: int)
    requires LastAttempt(k, attempts, outcome) && a == 1 && sleeps == 5 * (k * (k - 1))
    ensures Tallies(FromAttempt(a, attempts, outcome), k, sleeps, AlertsOf(outcome(k) != Success))
  {
    CountsFrom(a, k, attempts, outcome);
    SleepsBeforeAttempt(a, k, sleeps);
  }

  /** For every retry count and outcome sequence an uninterrupted worker makes exactly k attempts,
      k being the first success or else retries + 1, sleeps 5*k*(k-1) times 100 ms, and raises
      one alert exactly when the last attempt failed; attempt j comes after j - 1 attempts and
      5*j*(j-1) sleeps. */
  lemma WorkCounts(retries: nat, outcome: nat -> RunStatus, k: nat)
    requires LastAttempt(k, retries + 1, outcome)
    ensures Tallies(FullRun(retries, outcome), k, 5 * (k * (k - 1)), AlertsOf(outcome(k) != Success))
    ensures forall j: nat :: 1 <= j <= k ==> AttemptStands(FullRun(retries, outcome), j, outcome)
  {
    CountsFromFirst(1, k, retries + 1, outcome, 5 * (k * (k - 1)));
    forall j: nat | 1 <= j <= k ensures AttemptStands(FullRun(retries, outcome), j, outcome) {
      SleepsBeforeAttempt(1, j, 5 * (j * (j - 1)));
      AttemptAt(1, k, retries + 1, outcome, j, j - 1 + 5 * (j * (j - 1)));
    }
  }

  /** Attempt `j` stands after `j - 1` attempts and their 5*j*(j-1) sleeps. */
  ghost predicate AttemptStands(run: seq<Event>, j: nat, outcome: nat -> RunStatus) {
    StandsAt(run, j - 1 + 5 * (j * (j - 1)), Attempt(j, outcome(j)))
  }

  ghost predicate StandsAt(run: seq<Event>, at: int, e: Event) {
    0 <= at < |run| && run[at] == e
  }

  lemma SleepsBeforeAttempt(a: nat, j: nat, sleeps: int)
    requires a == 1 && 1 <= j && sleeps == 5 * (j * (j - 1))
    ensures SleepsBetween(a, j) == sleeps
  {
    SleepsClosedForm(a, j);
  }

  /** The command is attempted at all if and only if the retry count is not negative; a negative one
      raises the failure alert straight away. */
  lemma AttemptedIff(retries: int, outcome: nat -> RunStatus)
    ensures (exists i :: 0 <= i < |FullRun(retries, outcome)| && FullRun(retries, outcome)[i].Attempt?) <==> 0 <= retries
    ensures retries < 0 ==> FullRun(retries, outcome) == [FailureAlert]
  {
    if 0 <= retries {
      assert FullRun(retries, outcome)[0] == Attempt(1, outcome(1));
    }
  }

  ghost predicate AlertOnlyLast(run: seq<Event>) {
    run != [] && forall i :: 0 <= i < |run| - 1 ==> run[i] != FailureAlert
  }

  lemma AlertStaysLast(front: seq<Event>, run: seq<Event>)
    requires FailureAlert !in front && AlertOnlyLast(run)
    ensures AlertOnlyLast(front + run)
  {
  }

  lemma {:induction false} AlertEndsFrom(a: nat, attempts: nat, outcome: nat -> RunStatus)
    requires 1 <= a <= attempts
    ensures AlertOnlyLast(FromAttempt(a, attempts, outcome))
    decreases attempts - a
  {
    if outcome(a) != Success && a < attempts {
      var rest := FromAttempt(a + 1, attempts, outcome);
      AlertEndsFrom(a + 1, attempts, outcome);
      SleepsPrefix(10 * a, 10 * a);
      AlertStaysLast(Sleeps(10 * a), rest);
      AlertStaysLast([Attempt(a, outcome(a))], Sleeps(10 * a) + rest);
    }
  }

  /** A shutdown shortens an execution to the events whose load of the flag still found the daemon
      active, and a shortened execution raises no alert; without one it is complete. */
  lemma ShutdownNeverAlerts(retries: int, outcome: nat -> RunStatus, lifetime: Option<nat>)
    ensures var full := FullRun(retries, outcome); var done := CutAt(full, lifetime);
            && done <= full && (done != full ==> FailureAlert !in done)
            && (lifetime.None? ==> done == full)
            && (lifetime.Some? ==> |done| == if lifetime.value < |full| then lifetime.value else |full|)
  {
    if retries >= 0 {
      AlertEndsFrom(1, retries + 1, outcome);
    }
  }
}

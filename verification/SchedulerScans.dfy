/** Two missed-run scanners at work at the same time: no occurrence is recovered twice. */
module SchedulerScans {
  import opened Basics
  import opened Cron
  import opened SchedulerModel
  import opened SchedulerRuns

  // ----- Claims -----

  ghost predicate Increasing(xs: seq<int>) {
    (forall i :: 0 <= i < |xs| ==> 0 < xs[i]) && forall i, j :: 0 <= i < j < |xs| ==> xs[i] < xs[j]
  }

  function LastOr0(xs: seq<int>): int {
    if xs == [] then 0 else xs[|xs| - 1]
  }

  ghost predicate ClaimsOkFor(sh: Shared, h: History, n: string) {
    Increasing(ClaimsOf(h, n)) && Handled(sh, n) == LastOr0(ClaimsOf(h, n))
  }

  /** The occurrences claimed for a job since it was last removed strictly increase, and the
      handled mark is the last of them. */
  ghost predicate ClaimsOk(sh: Shared, h: History) {
    forall n :: ClaimsOkFor(sh, h, n)
  }

  lemma ClaimKeepsClaims(sh: Shared, h: History, claim: Claim)
    requires ClaimsOk(sh, h)
    ensures ClaimsOk(AfterClaim(sh, claim.name, claim.occurrence),
                     if Handled(sh, claim.name) < claim.occurrence then WithClaim(h, claim) else h)
  {
    var sh' := AfterClaim(sh, claim.name, claim.occurrence);
    var h' := if Handled(sh, claim.name) < claim.occurrence then WithClaim(h, claim) else h;
    assert ClaimsOkFor(sh, h, claim.name);
    forall n ensures ClaimsOkFor(sh', h', n) {
      assert ClaimsOkFor(sh, h, n);
    }
  }

  lemma RemoveKeepsClaims(sh: Shared, h: History, name: string)
    requires ClaimsOk(sh, h)
    ensures ClaimsOk(AfterRemove(sh, name), h.(claims := h.claims - {name}))
  {
    forall n ensures ClaimsOkFor(AfterRemove(sh, name), h.(claims := h.claims - {name}), n) {
      assert ClaimsOkFor(sh, h, n);
    }
  }

  lemma FrameKeepsClaims(sh: Shared, h: History, sh': Shared, h': History)
    requires ClaimsOk(sh, h) && sh'.missedHandled == sh.missedHandled && h'.claims == h.claims
    ensures ClaimsOk(sh', h')
  {
    forall n ensures ClaimsOkFor(sh', h', n) {
      assert ClaimsOkFor(sh, h, n);
    }
  }

  // ----- What a scan has settled -----

  /** Candidate `j` is settled: its latest occurrence is covered by the start read for it or by
      the handled mark, unless the job was removed meanwhile. */
  ghost predicate Settled(sh: Shared, lt: LocalTime, c: Scanner, j: nat)
    requires c.Scanning? && j < |c.candidates| && j < |c.read|
  {
    var job := c.candidates[j];
    job.schedule.Some? ==>
      match PrevBefore(job.schedule.value, lt, c.now)
      case None => true
      case Some(p) => p <= c.read[j] || job.name in c.removed || p <= Handled(sh, job.name)
  }

  /** The occurrence a scan is working on is the latest one, later than the start it read. */
  ghost predicate Found(lt: LocalTime, c: Scanner, occurrence: int)
    requires c.Scanning? && c.index < |c.candidates| && c.index < |c.read|
  {
    var job := c.candidates[c.index];
    job.schedule.Some? && PrevBefore(job.schedule.value, lt, c.now) == Some(occurrence) && c.read[c.index] < occurrence
  }

  ghost predicate ScanOk(sh: Shared, lt: LocalTime, c: Scanner) {
    c.Scanning? ==>
      && 0 <= c.now && c.index <= |c.candidates|
      && |c.read| == (if c.phase.ToRead? then c.index else c.index + 1)
      && (!c.phase.ToRead? ==> c.index < |c.candidates|)
      && (forall j :: 0 <= j < c.index ==> Settled(sh, lt, c, j))
      && (c.phase.ToClaim? ==> Found(lt, c, c.phase.occurrence))
      && (c.phase.ToEnqueue? ==> Found(lt, c, c.phase.occurrence) && Settled(sh, lt, c, c.index))
  }

  ghost predicate ScansOk(s: System, lt: LocalTime) {
    ScanOk(s.shared, lt, s.starter) && ScanOk(s.shared, lt, s.looper)
  }

  /** Handled marks only grow, except for removed names. */
  ghost predicate MarksGrow(sh: Shared, sh': Shared, except: set<string>) {
    forall n :: n !in except ==> Handled(sh, n) <= Handled(sh', n)
  }

  lemma GrowingMarksKeepScan(sh: Shared, sh': Shared, lt: LocalTime, c: Scanner)
    requires ScanOk(sh, lt, c) && MarksGrow(sh, sh', {})
    ensures ScanOk(sh', lt, c)
  {
    if c.Scanning? {
      assert forall j :: 0 <= j < |c.read| && j < |c.candidates| && Settled(sh, lt, c, j) ==> Settled(sh', lt, c, j);
    }
  }

  lemma RemovalKeepsScan(sh: Shared, sh': Shared, lt: LocalTime, c: Scanner, name: string)
    requires ScanOk(sh, lt, c) && MarksGrow(sh, sh', {name})
    ensures ScanOk(sh', lt, Forget(c, name))
  {
    if c.Scanning? {
      var d := Forget(c, name);
      assert forall j :: 0 <= j < |c.read| && j < |c.candidates| && Settled(sh, lt, c, j) ==> Settled(sh', lt, d, j);
      if !c.phase.ToRead? {
        assert Found(lt, c, c.phase.occurrence) ==> Found(lt, d, c.phase.occurrence);
      }
    }
  }

  lemma ReadKeepsScan(sh: Shared, lt: LocalTime, c: Scanner)
    requires c.Scanning? && c.phase.ToRead? && c.index < |c.candidates| && ScanOk(sh, lt, c)
    ensures ScanOk(sh, lt, AfterRead(sh, lt, c))
  {
    var d := AfterRead(sh, lt, c);
    forall j | 0 <= j < c.index ensures Settled(sh, lt, d, j) {
      assert Settled(sh, lt, c, j);
      assert d.read[j] == c.read[j];
    }
  }

  lemma ScanReadOk(s: System, lt: LocalTime, who: Who)
    requires ScansOk(s, lt)
    ensures ScansOk(DoScanRead(s, lt, who), lt)
  {
    var c := ScannerOf(s, who);
    if c.Scanning? && c.phase.ToRead? && c.index < |c.candidates| {
      ReadKeepsScan(s.shared, lt, c);
      assert DoScanRead(s, lt, who) == WithScanner(s, who, AfterRead(s.shared, lt, c));
    }
  }

  /** A settled candidate may be left behind. */
  lemma LeaveKeepsScan(sh: Shared, lt: LocalTime, c: Scanner)
    requires c.Scanning? && !c.phase.ToRead? && ScanOk(sh, lt, c) && Settled(sh, lt, c, c.index)
    ensures ScanOk(sh, lt, NextCandidate(c))
  {
    var d := NextCandidate(c);
    forall j | 0 <= j < d.index ensures Settled(sh, lt, d, j) {
      assert Settled(sh, lt, c, j);
    }
  }

  lemma ClaimedKeepsScan(sh: Shared, lt: LocalTime, c: Scanner)
    requires c.Scanning? && c.phase.ToClaim? && ScanOk(sh, lt, c)
    requires c.phase.occurrence <= Handled(sh, c.candidates[c.index].name)
    ensures Settled(sh, lt, c, c.index)
    ensures ScanOk(sh, lt, NextCandidate(c)) && ScanOk(sh, lt, c.(phase := ToEnqueue(c.phase.occurrence)))
  {
    LeaveKeepsScan(sh, lt, c);
    var d := c.(phase := ToEnqueue(c.phase.occurrence));
    forall j | 0 <= j <= d.index ensures Settled(sh, lt, d, j) {
      assert Settled(sh, lt, c, j);
    }
  }

  lemma ScanClaimOk(s: System, lt: LocalTime, who: Who)
    requires ScansOk(s, lt)
    ensures ScansOk(DoScanClaim(s, who), lt)
  {
    var c := ScannerOf(s, who);
    if c.Scanning? && c.phase.ToClaim? && c.index < |c.candidates| {
      var sh := AfterClaim(s.shared, c.candidates[c.index].name, c.phase.occurrence);
      assert MarksGrow(s.shared, sh, {});
      GrowingMarksKeepScan(s.shared, sh, lt, s.starter);
      GrowingMarksKeepScan(s.shared, sh, lt, s.looper);
      ClaimedKeepsScan(sh, lt, c);
      assert DoScanClaim(s, who).shared == sh;
    }
  }

  lemma ScanEnqueueOk(s: System, lt: LocalTime, who: Who)
    requires ScansOk(s, lt)
    ensures ScansOk(DoScanEnqueue(s, who), lt)
  {
    var c := ScannerOf(s, who);
    if c.Scanning? && c.phase.ToEnqueue? && c.index < |c.candidates| {
      var sh := AfterEnqueue(s.shared, c.candidates[c.index].name, "missed");
      LeaveKeepsScan(s.shared, lt, c);
      assert MarksGrow(s.shared, sh, {});
      GrowingMarksKeepScan(s.shared, sh, lt, s.starter);
      GrowingMarksKeepScan(s.shared, sh, lt, s.looper);
      GrowingMarksKeepScan(s.shared, sh, lt, NextCandidate(c));
    }
  }

  lemma RemoveOk(s: System, lt: LocalTime)
    requires ScansOk(s, lt)
    ensures ScansOk(DoRemoveCommit(s), lt)
  {
    if s.api.RemoveDeleted? {
      var sh := AfterRemove(s.shared, s.api.name);
      assert MarksGrow(s.shared, sh, {s.api.name});
      RemovalKeepsScan(s.shared, sh, lt, s.starter, s.api.name);
      RemovalKeepsScan(s.shared, sh, lt, s.looper, s.api.name);
    }
  }

  // ----- Claims and queued requests -----

  function Pending(c: Scanner): multiset<Claim> {
    if c.Scanning? && c.phase.ToEnqueue? && c.index < |c.candidates|
    then multiset{Claim(c.candidates[c.index].name, c.phase.occurrence)} else multiset{}
  }

  /** Claims that are pending at one scanner or the other. */
  function PendingAt(s: System): multiset<Claim> {
    Pending(s.starter) + Pending(s.looper)
  }

  function ClaimsIn(rs: seq<Recovery>): multiset<Claim> {
    if rs == [] then multiset{} else ClaimsIn(rs[..|rs| - 1]) + multiset{rs[|rs| - 1].claim}
  }

  /** Every claim made is either queued already or about to be, each exactly once. */
  ghost predicate ClaimsQueued(s: System) {
    s.past.claimed == ClaimsIn(s.past.recovered) + PendingAt(s)
  }

  /** The "missed" requests accepted so far are exactly those of the recorded claims, one each. */
  ghost predicate RecoveriesOk(h: History, issued: nat) {
    && (forall i :: 0 <= i < |h.recovered| ==>
          var x := h.recovered[i];
          x.request.name == x.claim.name && x.request.trigger == "missed" && x.request in h.accepted &&
          x.request.serial < issued)
    && (forall i, j :: 0 <= i < j < |h.recovered| ==> h.recovered[i].request.serial < h.recovered[j].request.serial)
    && (forall r :: r in h.accepted && r.trigger == "missed" ==> IsRecovery(h, r))
  }

  ghost predicate IsRecovery(h: History, r: Request) {
    exists i :: 0 <= i < |h.recovered| && h.recovered[i].request == r
  }

  lemma OneMoreRecovery(h: History, issued: nat, claim: Claim)
    requires RecoveriesOk(h, issued)
    ensures RecoveriesOk(WithRecovery(h, claim, Request(claim.name, "missed", issued)), issued + 1)
    ensures ClaimsIn(WithRecovery(h, claim, Request(claim.name, "missed", issued)).recovered) ==
            ClaimsIn(h.recovered) + multiset{claim}
  {
    var request := Request(claim.name, "missed", issued);
    var h' := WithRecovery(h, claim, request);
    var n := |h.recovered|;
    assert h'.recovered[..n] == h.recovered;
    forall r | r in h'.accepted && r.trigger == "missed" ensures IsRecovery(h', r) {
      if r in h.accepted {
        assert IsRecovery(h, r);
        var i :| 0 <= i < n && h.recovered[i].request == r;
        assert h'.recovered[i].request == r;
      } else {
        assert h'.recovered[n].request == r;
      }
    }
  }

  lemma ManualKeepsRecoveries(h: History, issued: nat, name: string)
    requires RecoveriesOk(h, issued)
    ensures RecoveriesOk(h.(accepted := h.accepted + multiset{Request(name, "manual", issued)}), issued + 1)
  {
  }

  // ----- All steps -----

  predicate IsScan(step: Step) {
    step.ScanStart? || step.ScanRead? || step.ScanClaim? || step.ScanEnqueue?
  }

  ghost predicate ScanInvariant(s: System, lt: LocalTime) {
    && ClaimsOk(s.shared, s.past) && ScansOk(s, lt)
    && ClaimsQueued(s) && RecoveriesOk(s.past, s.shared.issued)
  }

  lemma ScanStartOk(s: System, lt: LocalTime, who: Who, now: int)
    requires ScansOk(s, lt)
    ensures ScansOk(DoScanStart(s, who, now), lt)
  {
  }

  lemma ScanStartPending(s: System, who: Who, now: int)
    ensures PendingAt(DoScanStart(s, who, now)) == PendingAt(s)
    ensures DoScanStart(s, who, now).shared == s.shared && DoScanStart(s, who, now).past == s.past
  {
  }

  lemma ScanStartKeeps(s: System, lt: LocalTime, who: Who, now: int)
    requires ScanInvariant(s, lt)
    ensures ScanInvariant(DoScanStart(s, who, now), lt)
  {
    ScanStartOk(s, lt, who, now);
    ScanStartPending(s, who, now);
  }

  lemma ScanReadKeeps(s: System, lt: LocalTime, who: Who)
    requires ScanInvariant(s, lt)
    ensures ScanInvariant(DoScanRead(s, lt, who), lt)
  {
    ScanReadOk(s, lt, who);
    ScanReadFrame(s, lt, who);
    ReadHasNothingPending(s, lt, who);
  }

  lemma ReadHasNothingPending(s: System, lt: LocalTime, who: Who)
    ensures Pending(DoScanRead(s, lt, who).starter) == Pending(s.starter)
    ensures Pending(DoScanRead(s, lt, who).looper) == Pending(s.looper)
  {
    var c := ScannerOf(s, who);
    if c.Scanning? && c.phase.ToRead? && c.index < |c.candidates| {
      assert DoScanRead(s, lt, who) == WithScanner(s, who, AfterRead(s.shared, lt, c));
      assert Pending(AfterRead(s.shared, lt, c)) == multiset{};
    }
  }

  lemma ClaimMoves(all: multiset<Claim>, done: multiset<Claim>, p: multiset<Claim>, m: multiset<Claim>)
    requires all == done + p
    ensures all + m == done + (p + m) && all + m == done + (m + p)
  {
  }

  lemma PendingAfterClaim(s: System, who: Who)
    ensures var t := DoScanClaim(s, who);
            && t.past.recovered == s.past.recovered
            && ((PendingAt(t) == PendingAt(s) && t.past.claimed == s.past.claimed) ||
                exists m :: PendingAt(t) == PendingAt(s) + m && t.past.claimed == s.past.claimed + m)
  {
    var c, t := ScannerOf(s, who), DoScanClaim(s, who);
    if c.Scanning? && c.phase.ToClaim? && c.index < |c.candidates| {
      var claim := Claim(c.candidates[c.index].name, c.phase.occurrence);
      var other := if who == Starter then s.looper else s.starter;
      assert Pending(c) == multiset{};
      if Handled(s.shared, claim.name) < claim.occurrence {
        assert Pending(ScannerOf(t, who)) == multiset{claim};
        assert PendingAt(t) == PendingAt(s) + multiset{claim};
        assert t.past.claimed == s.past.claimed + multiset{claim};
      } else {
        assert Pending(ScannerOf(t, who)) == multiset{};
        assert PendingAt(t) == PendingAt(s);
      }
    }
  }

  lemma QueuedAfterClaim(s: System, who: Who)
    requires ClaimsQueued(s)
    ensures var t := DoScanClaim(s, who); ClaimsQueued(t)
  {
    PendingAfterClaim(s, who);
    var t := DoScanClaim(s, who);
    if m :| PendingAt(t) == PendingAt(s) + m && t.past.claimed == s.past.claimed + m {
      ClaimMoves(s.past.claimed, ClaimsIn(s.past.recovered), PendingAt(s), m);
    }
  }

  lemma PendingAfterEnqueue(s: System, who: Who)
    ensures var c, t := ScannerOf(s, who), DoScanEnqueue(s, who);
            c.Scanning? && c.phase.ToEnqueue? && c.index < |c.candidates| ==>
              PendingAt(s) == multiset{Claim(c.candidates[c.index].name, c.phase.occurrence)} + PendingAt(t)
  {
  }

  lemma EnqueueRecords(s: System, who: Who)
    ensures var c, t := ScannerOf(s, who), DoScanEnqueue(s, who);
            if c.Scanning? && c.phase.ToEnqueue? && c.index < |c.candidates| then
              var claim := Claim(c.candidates[c.index].name, c.phase.occurrence);
              t.past == WithRecovery(s.past, claim, Request(claim.name, "missed", s.shared.issued)) &&
              t.shared.issued == s.shared.issued + 1
            else t == s
  {
  }

  lemma QueuedAfterEnqueue(s: System, who: Who)
    requires ClaimsQueued(s) && RecoveriesOk(s.past, s.shared.issued)
    ensures var t := DoScanEnqueue(s, who); ClaimsQueued(t) && RecoveriesOk(t.past, t.shared.issued)
  {
    var c := ScannerOf(s, who);
    EnqueueRecords(s, who);
    PendingAfterEnqueue(s, who);
    if c.Scanning? && c.phase.ToEnqueue? && c.index < |c.candidates| {
      var claim := Claim(c.candidates[c.index].name, c.phase.occurrence);
      OneMoreRecovery(s.past, s.shared.issued, claim);
      UnionAssociates(ClaimsIn(s.past.recovered), multiset{claim}, PendingAt(DoScanEnqueue(s, who)));
    }
  }

  lemma ScanClaimKeeps(s: System, lt: LocalTime, who: Who)
    requires ScanInvariant(s, lt)
    ensures ScanInvariant(DoScanClaim(s, who), lt)
  {
    ScanClaimOk(s, lt, who);
    QueuedAfterClaim(s, who);
    ScanClaimFrame(s, who);
    var c, t := ScannerOf(s, who), DoScanClaim(s, who);
    if c.Scanning? && c.phase.ToClaim? && c.index < |c.candidates| {
      ClaimKeepsClaims(s.shared, s.past, Claim(c.candidates[c.index].name, c.phase.occurrence));
    }
    assert t.past.recovered == s.past.recovered;
    SameRecoveries(s.past, t.past, s.shared.issued);
  }

  lemma SameRecoveries(h: History, h': History, issued: nat)
    requires RecoveriesOk(h, issued) && h'.recovered == h.recovered && h'.accepted == h.accepted
    ensures RecoveriesOk(h', issued)
  {
  }

  lemma EnqueueKeepsMarks(s: System, who: Who)
    ensures var t := DoScanEnqueue(s, who);
            t.shared.missedHandled == s.shared.missedHandled && t.past.claims == s.past.claims
  {
  }

  lemma ScanEnqueueKeeps(s: System, lt: LocalTime, who: Who)
    requires ScanInvariant(s, lt)
    ensures ScanInvariant(DoScanEnqueue(s, who), lt)
  {
    ScanEnqueueOk(s, lt, who);
    QueuedAfterEnqueue(s, who);
    EnqueueKeepsMarks(s, who);
    FrameKeepsClaims(s.shared, s.past, DoScanEnqueue(s, who).shared, DoScanEnqueue(s, who).past);
  }

  lemma RemoveKeeps(s: System, lt: LocalTime)
    requires ScanInvariant(s, lt)
    ensures ScanInvariant(DoRemoveCommit(s), lt)
  {
    if s.api.RemoveDeleted? {
      var h := s.past.(claims := s.past.claims - {s.api.name});
      var sh := AfterRemove(s.shared, s.api.name);
      RemoveKeepsClaims(s.shared, s.past, s.api.name);
      FrameKeepsClaims(sh, h, sh, DoRemoveCommit(s).past);
      RemoveOk(s, lt);
      SameRecoveries(s.past, DoRemoveCommit(s).past, s.shared.issued);
    }
  }

  lemma RunEnqueueKeeps(s: System, lt: LocalTime)
    requires ScanInvariant(s, lt)
    ensures ScanInvariant(DoRunEnqueue(s), lt)
  {
    if s.api.RunChecked? {
      var t := DoRunEnqueue(s);
      assert MarksGrow(s.shared, t.shared, {});
      GrowingMarksKeepScan(s.shared, t.shared, lt, s.starter);
      GrowingMarksKeepScan(s.shared, t.shared, lt, s.looper);
      FrameKeepsClaims(s.shared, s.past, t.shared, t.past);
      ManualKeepsRecoveries(s.past, s.shared.issued, s.api.name);
    }
  }

  lemma FarKeeps(s: System, t: System, lt: LocalTime)
    requires ScanInvariant(s, lt) && ScanFrame(s, t)
    ensures ScanInvariant(t, lt)
  {
    assert MarksGrow(s.shared, t.shared, {});
    GrowingMarksKeepScan(s.shared, t.shared, lt, s.starter);
    GrowingMarksKeepScan(s.shared, t.shared, lt, s.looper);
    FrameKeepsClaims(s.shared, s.past, t.shared, t.past);
    SameRecoveries(s.past, t.past, s.shared.issued);
  }

  lemma StepKeepsScans(s: System, lt: LocalTime, step: Step)
    requires ScanInvariant(s, lt)
    ensures ScanInvariant(Do(s, lt, step), lt)
  {
    if IsScan(step) {
      ScanStepKeeps(s, lt, step);
    } else if step.RemoveCommit? {
      RemoveKeeps(s, lt);
    } else if step.RunEnqueue? {
      RunEnqueueKeeps(s, lt);
    } else {
      StepFrame(s, lt, step);
      FarKeeps(s, Do(s, lt, step), lt);
    }
  }

  lemma ScanStepKeeps(s: System, lt: LocalTime, step: Step)
    requires IsScan(step) && ScanInvariant(s, lt)
    ensures ScanInvariant(Do(s, lt, step), lt)
  {
    match step
    case ScanStart(who, now) => ScanStartKeeps(s, lt, who, now);
    case ScanRead(who) => ScanReadKeeps(s, lt, who);
    case ScanClaim(who) => ScanClaimKeeps(s, lt, who);
    case ScanEnqueue(who) => ScanEnqueueKeeps(s, lt, who);
  }

  /** Over every interleaving of the two scanners with everything else: per job and between
      removals the claimed occurrences strictly increase, so none is claimed twice; every claim
      puts exactly one "missed" request into the queue; and no such request has another origin. */
  lemma {:induction false} MissedRunsRecoveredOnce(u: Setup, lt: LocalTime, steps: seq<Step>)
    ensures ScanInvariant(Run(u, lt, steps), lt)
  {
    if steps != [] {
      MissedRunsRecoveredOnce(u, lt, steps[..|steps| - 1]);
      StepKeepsScans(Run(u, lt, steps[..|steps| - 1]), lt, steps[|steps| - 1]);
    }
  }

  /** When a scan has gone through its candidates, the latest occurrence of each one not removed
      meanwhile is no later than the start read for it or its handled mark, whichever is larger. */
  lemma FinishedScanCovers(u: Setup, lt: LocalTime, steps: seq<Step>, who: Who, j: nat)
    requires var c := ScannerOf(Run(u, lt, steps), who);
             c.Scanning? && c.index == |c.candidates| && j < |c.candidates|
    ensures var s := Run(u, lt, steps);
            var c := ScannerOf(s, who);
            var job := c.candidates[j];
            j < |c.read| && (job.name !in c.removed && job.schedule.Some? ==>
              match PrevBefore(job.schedule.value, lt, c.now)
              case None => true
              case Some(p) => p <= c.read[j] || p <= Handled(s.shared, job.name))
  {
    MissedRunsRecoveredOnce(u, lt, steps);
    var c := ScannerOf(Run(u, lt, steps), who);
    assert Settled(Run(u, lt, steps).shared, lt, c, j);
  }
}

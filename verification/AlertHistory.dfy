/** The alert engine against a statement over the whole sample history. */
module AlertHistory {
  import opened Basics
  import opened Alerts

  /** A history of samples; time 0 is the engine's "not set" mark and never a sample time. */
  ghost predicate RealTimes(h: seq<Sample>) {
    forall i :: 0 <= i < |h| ==> h[i].ts != 0
  }

  /** First sample of the unbroken streak of condition-met samples that ends at `k`. */
  ghost function StreakStart(rule: Rule, h: seq<Sample>, k: nat): (i: nat)
    requires k < |h| && Met(rule, h[k])
    ensures i <= k && (forall j :: i <= j <= k ==> Met(rule, h[j])) && (i > 0 ==> !Met(rule, h[i - 1]))
  {
    if k > 0 && Met(rule, h[k - 1]) then StreakStart(rule, h, k - 1) else k
  }

  /** When a rule should announce "firing" at sample `k`: the streak has lasted the duration,
      nothing was announced in it, and the last announcement is at least the cooldown old. */
  ghost predicate Fires(rule: Rule, h: seq<Sample>, k: nat)
    requires k < |h|
    decreases k, 1
  {
    && Met(rule, h[k])
    && var i := StreakStart(rule, h, k);
       && h[k].ts - h[i].ts >= rule.duration
       && (forall j :: i <= j < k ==> !Fires(rule, h, j))
       && (forall j :: 0 <= j < k && IsLastFiring(rule, h, j, k) ==> h[k].ts - h[j].ts >= rule.cooldown)
  }

  ghost predicate IsLastFiring(rule: Rule, h: seq<Sample>, j: nat, k: nat)
    requires j < k <= |h|
    decreases k, 0
  {
    Fires(rule, h, j) && forall l :: j < l < k ==> !Fires(rule, h, l)
  }

  /** Something was announced in the streak that ends at `k`. */
  ghost predicate FiredInStreak(rule: Rule, h: seq<Sample>, k: nat)
    requires k < |h|
  {
    Met(rule, h[k]) && exists j :: StreakStart(rule, h, k) <= j <= k && Fires(rule, h, j)
  }

  /** When a rule should announce "recovered" at sample `k`. */
  ghost predicate Recovers(rule: Rule, h: seq<Sample>, k: nat)
    requires k < |h|
  {
    !Met(rule, h[k]) && k > 0 && FiredInStreak(rule, h, k - 1)
  }

  /** The engine's state of one rule after the first `k` samples. */
  ghost function After(rule: Rule, h: seq<Sample>, k: nat): RuleState
    requires k <= |h|
  {
    if k == 0 then FRESH else NextState(rule, After(rule, h, k - 1), h[k - 1])
  }

  ghost function EventAt(rule: Rule, q: QuietHours, h: seq<Sample>, k: nat): Option<AlertEvent>
    requires k < |h|
  {
    EventFor(rule, After(rule, h, k), h[k], InQuietHours(q, h[k].hour))
  }

  /** `ts` is the time of the last announcement before `k`, or 0 when there is none. */
  ghost predicate LastFiringTime(rule: Rule, h: seq<Sample>, k: nat, ts: int)
    requires k <= |h|
  {
    (ts == 0 && forall j :: 0 <= j < k ==> !Fires(rule, h, j)) ||
    exists j :: 0 <= j < k && IsLastFiring(rule, h, j, k) && h[j].ts == ts
  }

  /** What the four state fields mean. */
  ghost predicate Tracks(rule: Rule, h: seq<Sample>, k: nat, st: RuleState)
    requires k <= |h|
  {
    && (k > 0 && Met(rule, h[k - 1]) ==> st.since == h[StreakStart(rule, h, k - 1)].ts)
    && (!(k > 0 && Met(rule, h[k - 1])) ==> st.since == 0)
    && (st.notified <==> k > 0 && FiredInStreak(rule, h, k - 1))
    && LastFiringTime(rule, h, k, st.lastFired)
  }

  lemma SinceIsStreakStart(rule: Rule, h: seq<Sample>, k: nat, st: RuleState)
    requires RealTimes(h) && k < |h| && Met(rule, h[k]) && Tracks(rule, h, k, st)
    ensures Since(st, h[k]) == h[StreakStart(rule, h, k)].ts
  {
  }

  /** With the state meaning what it should, the engine's test is the specification's. */
  lemma EmitsIffFires(rule: Rule, h: seq<Sample>, k: nat, st: RuleState)
    requires RealTimes(h) && k < |h| && Tracks(rule, h, k, st)
    ensures EmitsFiring(rule, st, h[k]) <==> Fires(rule, h, k)
  {
    if Met(rule, h[k]) {
      SinceIsStreakStart(rule, h, k, st);
      var i := StreakStart(rule, h, k);
      assert st.notified <==> exists j :: i <= j < k && Fires(rule, h, j);
      assert (st.lastFired == 0 || h[k].ts - st.lastFired >= rule.cooldown) <==>
             forall j :: 0 <= j < k && IsLastFiring(rule, h, j, k) ==> h[k].ts - h[j].ts >= rule.cooldown by {
        CooldownIff(rule, h, k, st.lastFired);
      }
    }
  }

  lemma CooldownIff(rule: Rule, h: seq<Sample>, k: nat, ts: int)
    requires RealTimes(h) && k < |h| && LastFiringTime(rule, h, k, ts)
    ensures (ts == 0 || h[k].ts - ts >= rule.cooldown) <==>
            forall j :: 0 <= j < k && IsLastFiring(rule, h, j, k) ==> h[k].ts - h[j].ts >= rule.cooldown
  {
  }

  lemma TracksStep(rule: Rule, h: seq<Sample>, k: nat, st: RuleState)
    requires RealTimes(h) && k < |h| && Tracks(rule, h, k, st)
    ensures Tracks(rule, h, k + 1, NextState(rule, st, h[k]))
  {
    EmitsIffFires(rule, h, k, st);
    var st' := NextState(rule, st, h[k]);
    LastFiringStep(rule, h, k, st.lastFired);
    if Met(rule, h[k]) {
      SinceIsStreakStart(rule, h, k, st);
      var i := StreakStart(rule, h, k);
      if st.notified {
        var j :| i <= j < k && Fires(rule, h, j);
        assert FiredInStreak(rule, h, k);
      } else {
        assert forall j :: i <= j < k ==> !Fires(rule, h, j);
      }
    }
  }

  lemma LastFiringStep(rule: Rule, h: seq<Sample>, k: nat, ts: int)
    requires k < |h| && LastFiringTime(rule, h, k, ts)
    ensures LastFiringTime(rule, h, k + 1, if Fires(rule, h, k) then h[k].ts else ts)
  {
  }

  lemma {:induction false} StateTracksHistory(rule: Rule, h: seq<Sample>, k: nat)
    requires RealTimes(h) && k <= |h|
    ensures Tracks(rule, h, k, After(rule, h, k))
  {
    if k > 0 {
      StateTracksHistory(rule, h, k - 1);
      TracksStep(rule, h, k - 1, After(rule, h, k - 1));
    }
  }

  /** The engine refines the history statement: at every sample of every history a rule
      announces "firing" exactly when `Fires` says so and "recovered" exactly when `Recovers`
      does, and otherwise nothing. */
  lemma EngineRefinesHistory(rule: Rule, q: QuietHours, h: seq<Sample>, k: nat)
    requires RealTimes(h) && k < |h|
    ensures EventAt(rule, q, h, k) ==
            if Fires(rule, h, k) then Some(MakeEvent(rule, h[k], Firing, InQuietHours(q, h[k].hour)))
            else if Recovers(rule, h, k) then Some(MakeEvent(rule, h[k], Recovered, InQuietHours(q, h[k].hour)))
            else None
  {
    StateTracksHistory(rule, h, k);
    EmitsIffFires(rule, h, k, After(rule, h, k));
  }

  /** Over any history: a rule's event at sample `k` is the announcement the history calls for, with
      the rule's and the sample's contents. */
  lemma AnnouncementsCarry(rule: Rule, q: QuietHours, h: seq<Sample>, k: nat)
    requires RealTimes(h) && k < |h|
    ensures match EventAt(rule, q, h, k)
            case Some(e) =>
              && TellsOf(rule, h[k], e) && NotifiesRightly(q, h[k], e)
              && e.kind == (if Fires(rule, h, k) then Firing else Recovered) && (Fires(rule, h, k) || Recovers(rule, h, k))
            case None => !Fires(rule, h, k) && !Recovers(rule, h, k)
  {
    EngineRefinesHistory(rule, q, h, k);
    OneEvent(rule, After(rule, h, k), q, h[k]);
  }

  /** `firing` in the state: the current streak has lasted the duration at some sample of it. */
  lemma {:induction false} FiringFlagMeaning(rule: Rule, h: seq<Sample>, k: nat)
    requires RealTimes(h) && k <= |h|
    ensures After(rule, h, k).firing <==>
            k > 0 && Met(rule, h[k - 1]) &&
            exists m :: StreakStart(rule, h, k - 1) <= m < k &&
                        h[m].ts - h[StreakStart(rule, h, k - 1)].ts >= rule.duration
  {
    if k > 0 {
      FiringFlagMeaning(rule, h, k - 1);
      StateTracksHistory(rule, h, k - 1);
      if Met(rule, h[k - 1]) {
        SinceIsStreakStart(rule, h, k - 1, After(rule, h, k - 1));
        var i := StreakStart(rule, h, k - 1);
        if m :| i <= m < k && h[m].ts - h[i].ts >= rule.duration {
          assert m < k - 1 || HeldLongEnough(rule, After(rule, h, k - 1), h[k - 1]);
        }
      }
    }
  }

  // ----- Whole runs of one rule -----

  /** notified implies firing implies since != 0, after any number of samples. */
  lemma {:induction false} FlagsNest(rule: Rule, h: seq<Sample>, k: nat)
    requires RealTimes(h) && k <= |h|
    ensures After(rule, h, k).notified ==> After(rule, h, k).firing
    ensures After(rule, h, k).firing ==> After(rule, h, k).since != 0
  {
    if k > 0 {
      FlagsNest(rule, h, k - 1);
    }
  }

  /** All the rule's events up to sample `k`, in order. */
  ghost function EventsUpTo(rule: Rule, q: QuietHours, h: seq<Sample>, k: nat): seq<AlertEvent>
    requires k <= |h|
  {
    if k == 0 then [] else EventsUpTo(rule, q, h, k - 1) + Listed(EventAt(rule, q, h, k - 1))
  }

  /** Over any run, a rule's events alternate strictly, starting with "firing". */
  lemma {:induction false} EventsAlternate(rule: Rule, q: QuietHours, h: seq<Sample>, k: nat)
    requires k <= |h|
    ensures forall i :: 0 <= i < |EventsUpTo(rule, q, h, k)| ==>
              EventsUpTo(rule, q, h, k)[i].kind == if i % 2 == 0 then Firing else Recovered
    ensures After(rule, h, k).notified <==> |EventsUpTo(rule, q, h, k)| % 2 == 1
  {
    if k > 0 {
      EventsAlternate(rule, q, h, k - 1);
    }
  }

  /** The times of the rule's "firing" events. */
  ghost function FiringTimes(rule: Rule, h: seq<Sample>, k: nat): seq<int>
    requires k <= |h|
  {
    if k == 0 then []
    else if EmitsFiring(rule, After(rule, h, k - 1), h[k - 1]) then FiringTimes(rule, h, k - 1) + [h[k - 1].ts]
    else FiringTimes(rule, h, k - 1)
  }

  lemma {:induction false} FiringsAreSpaced(rule: Rule, h: seq<Sample>, k: nat)
    requires RealTimes(h) && k <= |h|
    ensures var f := FiringTimes(rule, h, k);
            && (forall i :: 0 < i < |f| ==> f[i] - f[i - 1] >= rule.cooldown)
            && After(rule, h, k).lastFired == (if f == [] then 0 else f[|f| - 1])
            && forall i :: 0 <= i < |f| ==> f[i] != 0
  {
    if k > 0 {
      FiringsAreSpaced(rule, h, k - 1);
    }
  }

  function CountWithin(f: seq<int>, a: int, b: int): nat {
    if f == [] then 0
    else CountWithin(f[..|f| - 1], a, b) + if a <= f[|f| - 1] <= b then 1 else 0
  }

  lemma {:induction false} SpacedCount(f: seq<int>, c: int, a: int, b: int)
    requires c > 0 && forall i :: 0 < i < |f| ==> f[i] - f[i - 1] >= c
    ensures CountWithin(f, a, b) > 0 ==> |f| > 0 && a + (CountWithin(f, a, b) - 1) * c <= f[|f| - 1]
    ensures CountWithin(f, a, b) > 0 ==> (CountWithin(f, a, b) - 1) * c <= b - a
  {
    if f != [] {
      var g := f[..|f| - 1];
      SpacedCount(g, c, a, b);
      var n := CountWithin(g, a, b);
      assert (n - 1) * c + c == n * c;
    }
  }

  lemma MultipleAtLeast(p: int, c: int)
    requires c > 0
    ensures p >= 1 ==> p * c >= c
  {
  }

  lemma AtMostQuotient(n: nat, c: int, d: int)
    requires c > 0 && n > 0 && (n - 1) * c <= d
    ensures n <= d / c + 1
  {
    var q := d / c;
    assert d < q * c + c;
    assert (n - 1 - q) * c == (n - 1) * c - q * c;
    MultipleAtLeast(n - 1 - q, c);
  }

  lemma SpacedCountBound(f: seq<int>, c: int, a: int, b: int)
    requires c > 0 && a <= b && forall i :: 0 < i < |f| ==> f[i] - f[i - 1] >= c
    ensures CountWithin(f, a, b) <= (b - a) / c + 1
  {
    var n := CountWithin(f, a, b);
    if n > 0 {
      SpacedCount(f, c, a, b);
      AtMostQuotient(n, c, b - a);
    } else {
      NonNegativeQuotient(b - a, c);
    }
  }

  lemma NonNegativeQuotient(d: int, c: int)
    requires c > 0 && d >= 0
    ensures d / c >= 0
  {
  }

  /** Over any run of one engine, any time window [a, b] holds at most (b - a)/cooldown + 1
      firings of a rule with a positive cooldown, even if the clock steps back. */
  lemma FiringRateBound(rule: Rule, h: seq<Sample>, k: nat, a: int, b: int)
    requires RealTimes(h) && k <= |h| && rule.cooldown > 0 && a <= b
    ensures CountWithin(FiringTimes(rule, h, k), a, b) <= (b - a) / rule.cooldown + 1
  {
    FiringsAreSpaced(rule, h, k);
    SpacedCountBound(FiringTimes(rule, h, k), rule.cooldown, a, b);
  }

  // ----- Many rules -----

  ghost predicate DistinctNames(rules: seq<Rule>) {
    forall i, j :: 0 <= i < j < |rules| ==> rules[i].name != rules[j].name
  }

  /** The engine's whole state after `k` samples. */
  ghost function EngineAfter(rules: seq<Rule>, q: QuietHours, h: seq<Sample>, k: nat): map<string, RuleState>
    requires k <= |h|
  {
    if k == 0 then map[]
    else EvaluateAll(rules, EngineAfter(rules, q, h, k - 1), h[k - 1], InQuietHours(q, h[k - 1].hour)).state
  }

  lemma {:induction false} OtherNamesUntouched(rules: seq<Rule>, state: map<string, RuleState>, x: Sample, quiet: bool,
                                               name: string)
    requires forall i :: 0 <= i < |rules| ==> rules[i].name != name
    ensures Lookup(EvaluateAll(rules, state, x, quiet).state, name) == Lookup(state, name)
  {
    if rules != [] {
      OtherNamesUntouched(rules[..|rules| - 1], state, x, quiet, name);
    }
  }

  lemma {:induction false} OwnState(rules: seq<Rule>, state: map<string, RuleState>, x: Sample, quiet: bool, i: nat)
    requires i < |rules| && DistinctNames(rules)
    ensures Lookup(EvaluateAll(rules, state, x, quiet).state, rules[i].name) ==
            NextState(rules[i], Lookup(state, rules[i].name), x)
  {
    var n := |rules| - 1;
    if i == n {
      OtherNamesUntouched(rules[..n], state, x, quiet, rules[n].name);
    } else {
      OwnState(rules[..n], state, x, quiet, i);
    }
  }

  /** Each rule's own event at sample `k`, in rule order. */
  ghost function OwnEvents(rules: seq<Rule>, q: QuietHours, h: seq<Sample>, k: nat): seq<AlertEvent>
    requires k < |h|
  {
    if rules == [] then []
    else OwnEvents(rules[..|rules| - 1], q, h, k) + Listed(EventAt(rules[|rules| - 1], q, h, k))
  }

  lemma {:induction false} EventsAreOwn(rules: seq<Rule>, state: map<string, RuleState>, q: QuietHours, h: seq<Sample>, k: nat)
    requires k < |h| && DistinctNames(rules)
    requires forall i :: 0 <= i < |rules| ==> Lookup(state, rules[i].name) == After(rules[i], h, k)
    ensures EvaluateAll(rules, state, h[k], InQuietHours(q, h[k].hour)).events == OwnEvents(rules, q, h, k)
  {
    if rules != [] {
      var n := |rules| - 1;
      EventsAreOwn(rules[..n], state, q, h, k);
      OtherNamesUntouched(rules[..n], state, h[k], InQuietHours(q, h[k].hour), rules[n].name);
    }
  }

  /** Rules do not affect each other: with distinct names the engine's state and output are,
      sample by sample, those of each rule evaluated alone. */
  lemma {:induction false} RulesAreIndependent(rules: seq<Rule>, q: QuietHours, h: seq<Sample>, k: nat)
    requires k <= |h| && DistinctNames(rules)
    ensures forall i :: 0 <= i < |rules| ==> Lookup(EngineAfter(rules, q, h, k), rules[i].name) == After(rules[i], h, k)
    ensures k < |h| ==>
              EvaluateAll(rules, EngineAfter(rules, q, h, k), h[k], InQuietHours(q, h[k].hour)).events
              == OwnEvents(rules, q, h, k)
  {
    if k > 0 {
      RulesAreIndependent(rules, q, h, k - 1);
      forall i | 0 <= i < |rules|
        ensures Lookup(EngineAfter(rules, q, h, k), rules[i].name) == After(rules[i], h, k)
      {
        OwnState(rules, EngineAfter(rules, q, h, k - 1), h[k - 1], InQuietHours(q, h[k - 1].hour), i);
      }
    }
    if k < |h| {
      EventsAreOwn(rules, EngineAfter(rules, q, h, k), q, h, k);
    }
  }
}

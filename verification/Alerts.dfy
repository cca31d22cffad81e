/** The alert engine: constant-size state per rule, evaluated sample by sample. */
module Alerts {
  import opened Basics

  datatype Condition = GreaterThan | LessThan | AtLeast

  predicate ConditionMet(condition: Condition, value: real, threshold: real) {
    match condition
    case GreaterThan => value > threshold
    case LessThan => value < threshold
    case AtLeast => value >= threshold
  }

  /** The laws that make the three conditions "above", "below" and "not below" the threshold. */
  lemma ComparisonLaws(v: real, w: real, t: real)
    ensures !ConditionMet(GreaterThan, t, t) && !ConditionMet(LessThan, t, t) && ConditionMet(AtLeast, t, t)
    ensures !(ConditionMet(GreaterThan, v, t) && ConditionMet(LessThan, v, t))
    ensures v != t ==> ConditionMet(GreaterThan, v, t) || ConditionMet(LessThan, v, t)
    ensures v <= w && ConditionMet(GreaterThan, v, t) ==> ConditionMet(GreaterThan, w, t)
    ensures w <= v && ConditionMet(LessThan, v, t) ==> ConditionMet(LessThan, w, t)
    ensures ConditionMet(AtLeast, v, t) <==> !ConditionMet(LessThan, v, t)
  {
  }

  datatype Rule = Rule(name: string, metric: string, condition: Condition, threshold: real,
                       duration: int, cooldown: int, severity: string)

  datatype QuietHours = QuietHours(enabled: bool, startHour: int, endHour: int)

  predicate InQuietHours(q: QuietHours, hour: int) {
    if !q.enabled || q.startHour == q.endHour then false
    else if q.startHour < q.endHour then q.startHour <= hour < q.endHour
    else hour >= q.startHour || hour < q.endHour
  }

  /** On a 24-hour clock the two branches are one circular interval from start to end. */
  lemma QuietIsCircularInterval(q: QuietHours, hour: int)
    requires q.enabled && 0 <= q.startHour < 24 && 0 <= q.endHour < 24 && 0 <= hour < 24
    ensures InQuietHours(q, hour) <==> (hour - q.startHour) % 24 < (q.endHour - q.startHour) % 24
  {
  }

  datatype Kind = Firing | Recovered

  datatype AlertEvent = AlertEvent(ruleName: string, severity: string, metric: string, kind: Kind, value: real,
                                   threshold: real, ts: int, attribution: string, notify: bool)

  /** One call's inputs: the time, its local hour, the metric snapshot and the CPU attribution. */
  datatype Sample = Sample(ts: int, hour: int, metrics: map<string, real>, cpuAttribution: string)

  datatype RuleState = RuleState(since: int, firing: bool, notified: bool, lastFired: int)

  const FRESH := RuleState(0, false, false, 0)

  function Value(rule: Rule, x: Sample): real {
    if rule.metric in x.metrics then x.metrics[rule.metric] else 0.0
  }

  /** The metric is present and satisfies the rule's condition. */
  predicate Met(rule: Rule, x: Sample) {
    rule.metric in x.metrics && ConditionMet(rule.condition, x.metrics[rule.metric], rule.threshold)
  }

  /** A rule is met by a sample exactly when the sample has its metric and the value is on the
      rule's side of the threshold; an absent metric never meets a rule. */
  lemma MetPlainly(rule: Rule, x: Sample)
    ensures rule.metric !in x.metrics ==> !Met(rule, x)
    ensures rule.metric in x.metrics ==>
              var v := x.metrics[rule.metric];
              (Met(rule, x) <==>
              || (rule.condition == GreaterThan && rule.threshold < v)
              || (rule.condition == LessThan && v < rule.threshold)
              || (rule.condition == AtLeast && rule.threshold <= v))
  {
  }

  function Since(st: RuleState, x: Sample): int {
    if st.since == 0 then x.ts else st.since
  }

  predicate HeldLongEnough(rule: Rule, st: RuleState, x: Sample) {
    Met(rule, x) && x.ts - Since(st, x) >= rule.duration
  }

  predicate EmitsFiring(rule: Rule, st: RuleState, x: Sample) {
    HeldLongEnough(rule, st, x) && !st.notified && (st.lastFired == 0 || x.ts - st.lastFired >= rule.cooldown)
  }

  function NextState(rule: Rule, st: RuleState, x: Sample): RuleState {
    if Met(rule, x) then
      RuleState(Since(st, x), st.firing || HeldLongEnough(rule, st, x), st.notified || EmitsFiring(rule, st, x),
                if EmitsFiring(rule, st, x) then x.ts else st.lastFired)
    else RuleState(0, false, false, st.lastFired)
  }

  const CPU_METRIC := "system.cpu.percent"

  function MakeEvent(rule: Rule, x: Sample, kind: Kind, quiet: bool): AlertEvent {
    AlertEvent(rule.name, rule.severity, rule.metric, kind, Value(rule, x), rule.threshold, x.ts,
               if kind == Firing && rule.metric == CPU_METRIC then x.cpuAttribution else "",
               rule.severity == "critical" || !quiet)
  }

  function EventFor(rule: Rule, st: RuleState, x: Sample, quiet: bool): Option<AlertEvent> {
    if EmitsFiring(rule, st, x) then Some(MakeEvent(rule, x, Firing, quiet))
    else if !Met(rule, x) && st.notified then Some(MakeEvent(rule, x, Recovered, quiet))
    else None
  }

  function Listed<T>(o: Option<T>): seq<T> {
    match o
    case None => []
    case Some(v) => [v]
  }

  function Lookup(state: map<string, RuleState>, name: string): RuleState {
    if name in state then state[name] else FRESH
  }

  datatype Evaluation = Evaluation(state: map<string, RuleState>, events: seq<AlertEvent>)

  /** One call over all rules, in order. */
  function EvaluateAll(rules: seq<Rule>, state: map<string, RuleState>, x: Sample, quiet: bool): Evaluation {
    if rules == [] then Evaluation(state, [])
    else
      var before := EvaluateAll(rules[..|rules| - 1], state, x, quiet);
      var rule := rules[|rules| - 1];
      var st := Lookup(before.state, rule.name);
      Evaluation(before.state[rule.name := NextState(rule, st, x)],
                 before.events + Listed(EventFor(rule, st, x, quiet)))
  }

  /** Hours of a 24-hour clock, in the sample and in the configuration. */
  ghost predicate ClockHours(q: QuietHours, hour: int) {
    0 <= hour < 24 && 0 <= q.startHour < 24 && 0 <= q.endHour < 24
  }

  /** The hour lies in the quiet interval, going round the clock from its start to its end. */
  ghost predicate Quiet(q: QuietHours, hour: int) {
    q.enabled && (hour - q.startHour) % 24 < (q.endHour - q.startHour) % 24
  }

  /** The event tells of this rule and this sample. */
  ghost predicate TellsOf(rule: Rule, x: Sample, e: AlertEvent) {
    && e.ruleName == rule.name && e.severity == rule.severity && e.metric == rule.metric
    && e.threshold == rule.threshold && e.ts == x.ts
    && e.value == (if rule.metric in x.metrics then x.metrics[rule.metric] else 0.0)
    && e.attribution == (if e.kind == Firing && rule.metric == "system.cpu.percent" then x.cpuAttribution else "")
    && (e.kind == Firing ==> rule.metric in x.metrics)
  }

  /** It is pushed exactly when it is critical or the hour is not quiet. */
  ghost predicate NotifiesRightly(q: QuietHours, x: Sample, e: AlertEvent) {
    && (e.severity == "critical" ==> e.notify)
    && (!q.enabled || q.startHour == q.endHour ==> e.notify)
    && (ClockHours(q, x.hour) ==> (e.notify <==> e.severity == "critical" || !Quiet(q, x.hour)))
  }

  lemma QuietAsCoded(q: QuietHours, hour: int)
    ensures ClockHours(q, hour) ==> (InQuietHours(q, hour) <==> Quiet(q, hour))
    ensures !q.enabled || q.startHour == q.endHour ==> !InQuietHours(q, hour)
  {
    if q.enabled && ClockHours(q, hour) {
      QuietIsCircularInterval(q, hour);
    }
  }

  lemma OneEvent(rule: Rule, st: RuleState, q: QuietHours, x: Sample)
    ensures var o := EventFor(rule, st, x, InQuietHours(q, x.hour));
            o.Some? ==> TellsOf(rule, x, o.value) && NotifiesRightly(q, x, o.value)
  {
    QuietAsCoded(q, x.hour);
  }

  /** Every event of a call tells of one of the rules and of the sample it was called with, and
      asks for a notification exactly when it should. */
  lemma {:induction false} EventsCarry(rules: seq<Rule>, state: map<string, RuleState>, q: QuietHours, x: Sample)
    ensures forall e :: e in EvaluateAll(rules, state, x, InQuietHours(q, x.hour)).events ==>
              NotifiesRightly(q, x, e) && exists i :: 0 <= i < |rules| && TellsOf(rules[i], x, e)
  {
    if rules != [] {
      var n := |rules| - 1;
      var before := EvaluateAll(rules[..n], state, x, InQuietHours(q, x.hour));
      EventsCarry(rules[..n], state, q, x);
      OneEvent(rules[n], Lookup(before.state, rules[n].name), q, x);
      forall e | e in EvaluateAll(rules, state, x, InQuietHours(q, x.hour)).events
        ensures NotifiesRightly(q, x, e) && exists i :: 0 <= i < |rules| && TellsOf(rules[i], x, e)
      {
        if e in before.events {
          var i :| 0 <= i < n && TellsOf(rules[..n][i], x, e);
          assert TellsOf(rules[i], x, e);
        } else {
          assert TellsOf(rules[n], x, e);
        }
      }
    }
  }

  class AlertEngine {
    const rules: seq<Rule>
    const quietHours: QuietHours
    var state: map<string, RuleState>

    constructor (rules: seq<Rule>, quietHours: QuietHours)
      ensures this.rules == rules && this.quietHours == quietHours && state == map[]
    {
      this.rules := rules;
      this.quietHours := quietHours;
      this.state := map[];
    }

    /** Evaluates every rule against one sample and returns the transitions. */
    method Evaluate(x: Sample) returns (events: seq<AlertEvent>)
      modifies this
      ensures Evaluation(state, events) == EvaluateAll(rules, old(state), x, InQuietHours(quietHours, x.hour))
      ensures forall e :: e in events ==>
                NotifiesRightly(quietHours, x, e) && exists i :: 0 <= i < |rules| && TellsOf(rules[i], x, e)
    {
      events := [];
      var quiet := InQuietHours(quietHours, x.hour);
      var i := 0;
      while i < |rules|
        invariant 0 <= i <= |rules|
        invariant Evaluation(state, events) == EvaluateAll(rules[..i], old(state), x, quiet)
      {
        assert rules[..i + 1][..i] == rules[..i];
        var event := EvaluateRule(rules[i], x, quiet);
        if event.Some? {
          events := events + [event.value];
        }
        i := i + 1;
      }
      assert rules[..i] == rules;
      EventsCarry(rules, old(state), quietHours, x);
    }

    /** The loop body: one rule against one sample. */
    method EvaluateRule(rule: Rule, x: Sample, quiet: bool) returns (event: Option<AlertEvent>)
      modifies this
      ensures state == old(state)[rule.name := NextState(rule, Lookup(old(state), rule.name), x)]
      ensures event == EventFor(rule, Lookup(old(state), rule.name), x, quiet)
    {
      event := None;
      var st := if rule.name in state then state[rule.name] else FRESH;
      var haveValue := rule.metric in x.metrics;
      var value := if haveValue then x.metrics[rule.metric] else 0.0;
      if haveValue && ConditionMet(rule.condition, value, rule.threshold) {
        if st.since == 0 {
          st := st.(since := x.ts);
        }
        if x.ts - st.since >= rule.duration {
          st := st.(firing := true);
          if !st.notified {
            if st.lastFired == 0 || x.ts - st.lastFired >= rule.cooldown {
              st := st.(notified := true, lastFired := x.ts);
              event := Some(AlertEvent(rule.name, rule.severity, rule.metric, Firing, value, rule.threshold, x.ts,
                                       if rule.metric == CPU_METRIC then x.cpuAttribution else "",
                                       rule.severity == "critical" || !quiet));
            }
          }
        }
      } else {
        st := st.(since := 0, firing := false);
        if st.notified {
          st := st.(notified := false);
          event := Some(AlertEvent(rule.name, rule.severity, rule.metric, Recovered, value, rule.threshold, x.ts, "",
                                   rule.severity == "critical" || !quiet));
        }
      }
      state := state[rule.name := st];
    }
  }
}

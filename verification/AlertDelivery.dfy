/** Alert delivery: the daemon's newest-first ring and the app's notification dedupe. */
module AlertDelivery {
  import opened Basics

  datatype Alert = Alert(ts: int, rule: string, severity: string, metric: string, kind: string, value: real,
                         threshold: real, message: string, attribution: string, notify: bool)

  const CAP := 25

  // ----- The key the dedupe rests on -----

  function SignedDecimal(n: int): string {
    if n < 0 then "-" + Decimal(-n) else Decimal(n)
  }

  lemma SignedDecimalShape(n: int)
    ensures |SignedDecimal(n)| > 0 && forall i :: 0 < i < |SignedDecimal(n)| ==> IsDigit(SignedDecimal(n)[i])
  {
    DecimalIsDigits(if n < 0 then -n else n);
  }

  function Id(a: Alert): string {
    SignedDecimal(a.ts) + "-" + a.rule + "-" + a.kind
  }

  lemma SignedDecimalInjective(m: int, n: int)
    requires SignedDecimal(m) == SignedDecimal(n)
    ensures m == n
  {
    var s := SignedDecimal(m);
    if m < 0 {
      DecimalRoundTrip(-m);
      assert s[1..] == Decimal(-m);
    } else {
      DecimalRoundTrip(m);
      DecimalIsDigits(m);
      assert IsDigit(s[0]);
    }
    if n < 0 {
      DecimalRoundTrip(-n);
      assert s[1..] == Decimal(-n);
    } else {
      DecimalRoundTrip(n);
      DecimalIsDigits(n);
      assert IsDigit(s[0]);
    }
  }

  lemma CommonPrefix(x: string, y: string, s: string, t: string)
    requires |x| > 0 && |y| > 0
    requires forall i :: 0 < i < |x| ==> x[i] != '-'
    requires forall i :: 0 < i < |y| ==> y[i] != '-'
    requires x + "-" + s == y + "-" + t
    ensures x == y && s == t
  {
    var u := x + "-" + s;
    assert u[|x|] == '-' && u[|y|] == '-';
    assert forall i :: 0 <= i < |x| ==> u[i] == x[i];
    assert forall i :: 0 <= i < |y| ==> u[i] == y[i];
    assert u[..|x|] == x && u[..|y|] == y && u[|x| + 1..] == s && u[|y| + 1..] == t;
  }

  lemma CommonSuffix(x: string, y: string, s: string, t: string)
    requires '-' !in s && '-' !in t
    requires x + "-" + s == y + "-" + t
    ensures x == y && s == t
  {
    var u := x + "-" + s;
    assert u[|x|] == '-' && u[|y|] == '-';
    assert forall i :: |x| < i < |u| ==> u[i] == s[i - |x| - 1];
    assert forall i :: |y| < i < |u| ==> u[i] == t[i - |y| - 1];
    assert u[..|x|] == x && u[..|y|] == y && u[|x| + 1..] == s && u[|y| + 1..] == t;
  }

  /** The id text determines time, rule and kind, for every integer time, every rule name and
      every kind without a dash ("firing" and "recovered" have none). */
  lemma IdInjective(a: Alert, b: Alert)
    requires '-' !in a.kind && '-' !in b.kind
    requires Id(a) == Id(b)
    ensures a.ts == b.ts && a.rule == b.rule && a.kind == b.kind
  {
    var x, y := SignedDecimal(a.ts), SignedDecimal(b.ts);
    var s, t := a.rule + "-" + a.kind, b.rule + "-" + b.kind;
    assert Id(a) == x + "-" + s && Id(b) == y + "-" + t;
    SignedDecimalShape(a.ts);
    SignedDecimalShape(b.ts);
    CommonPrefix(x, y, s, t);
    SignedDecimalInjective(a.ts, b.ts);
    CommonSuffix(a.rule, b.rule, a.kind, b.kind);
  }

  // ----- The ring -----

  function RingAdd(ring: seq<Alert>, a: Alert, cap: nat): seq<Alert> {
    var longer := [a] + ring;
    if |longer| > cap then longer[..cap] else longer
  }

  class SharedState {
    var alerts: seq<Alert>

    constructor ()
      ensures alerts == []
    {
      alerts := [];
    }

    method AddAlert(a: Alert, cap: nat := CAP)
      modifies this
      ensures alerts == RingAdd(old(alerts), a, cap)
    {
      alerts := [a] + alerts;
      if |alerts| > cap {
        alerts := alerts[..cap];
      }
    }
  }

  /** The ring after a sequence of additions. */
  function Ring(added: seq<Alert>): seq<Alert> {
    if added == [] then [] else RingAdd(Ring(added[..|added| - 1]), added[|added| - 1], CAP)
  }

  /** The last additions of the first `count`, newest first and at most 25 of them. */
  ghost predicate NewestFirst(added: seq<Alert>, count: nat, ring: seq<Alert>) {
    && count <= |added| && |ring| == (if count < 25 then count else 25)
    && forall i :: 0 <= i < |ring| ==> ring[i] == added[count - 1 - i]
  }

  lemma AddIsNewest(added: seq<Alert>, count: nat, ring: seq<Alert>)
    requires NewestFirst(added, count, ring) && count < |added|
    ensures NewestFirst(added, count + 1, RingAdd(ring, added[count], CAP))
  {
  }

  /** The ring is the last 25 additions, newest first. */
  lemma {:induction false} RingIsNewest(added: seq<Alert>, count: nat)
    requires count <= |added|
    ensures NewestFirst(added, count, Ring(added[..count]))
  {
    if count > 0 {
      RingIsNewest(added, count - 1);
      AddIsNewest(added, count - 1, Ring(added[..count - 1]));
      assert added[..count][..count - 1] == added[..count - 1];
    }
  }

  // ----- The app -----

  /** `posted` is the record of notifications sent so far. */
  datatype App = App(seeded: bool, seen: set<string>, posted: seq<Alert>)

  predicate Notifiable(a: Alert) {
    a.notify && a.kind == "firing"
  }

  function NotifyOne(app: App, a: Alert): App {
    if Id(a) in app.seen then app
    else app.(seen := app.seen + {Id(a)}, posted := if Notifiable(a) then app.posted + [a] else app.posted)
  }

  function NotifyEach(app: App, alerts: seq<Alert>): App {
    if alerts == [] then app else NotifyOne(NotifyEach(app, alerts[..|alerts| - 1]), alerts[|alerts| - 1])
  }

  /** The ids of a list of alerts, position by position. */
  function IdsOf(alerts: seq<Alert>): (ids: seq<string>)
    ensures |ids| == |alerts| && forall i :: 0 <= i < |alerts| ==> ids[i] == Id(alerts[i])
  {
    seq(|alerts|, i requires 0 <= i < |alerts| => Id(alerts[i]))
  }

  function Ids(alerts: seq<Alert>): set<string> {
    set x | x in IdsOf(alerts)
  }

  lemma IdsNext(alerts: seq<Alert>, i: nat)
    requires i < |alerts|
    ensures Ids(alerts[..i + 1]) == Ids(alerts[..i]) + {Id(alerts[i])}
  {
    assert IdsOf(alerts[..i + 1]) == IdsOf(alerts[..i]) + [Id(alerts[i])];
  }

  lemma NotifyNext(app: App, alerts: seq<Alert>, i: nat)
    requires i < |alerts|
    ensures NotifyEach(app, alerts[..i + 1]) == NotifyOne(NotifyEach(app, alerts[..i]), alerts[i])
  {
    assert alerts[..i + 1][..i] == alerts[..i];
  }

  /** The effect of one status response on the app. */
  function Poll(app: App, alerts: seq<Alert>): App {
    if !app.seeded then App(true, app.seen + Ids(alerts), app.posted) else NotifyEach(app, alerts)
  }

  class StatusStore {
    var seededAlerts: bool
    var seenAlertIds: set<string>
    var posted: seq<Alert>

    constructor ()
      ensures View() == App(false, {}, [])
    {
      seededAlerts, seenAlertIds, posted := false, {}, [];
    }

    ghost function View(): App
      reads this
    {
      App(seededAlerts, seenAlertIds, posted)
    }

    method NotifyNewAlerts(alerts: seq<Alert>)
      modifies this
      ensures View() == Poll(old(View()), alerts)
    {
      if !seededAlerts {
        Seed(alerts);
        seededAlerts := true;
        return;
      }
      var i := 0;
      while i < |alerts|
        invariant 0 <= i <= |alerts|
        invariant View() == NotifyEach(old(View()), alerts[..i])
      {
        NotifyNext(old(View()), alerts, i);
        Notice(alerts[i]);
        i := i + 1;
      }
      assert alerts[..i] == alerts;
    }

    /** The loop body: mark an alert not seen before, and post it if it asks for that. */
    method Notice(a: Alert)
      modifies this
      ensures View() == NotifyOne(old(View()), a)
    {
      if Id(a) !in seenAlertIds {
        seenAlertIds := seenAlertIds + {Id(a)};
        if a.notify && a.kind == "firing" {
          posted := posted + [a];
        }
      }
    }

    /** The first response only marks what is there as seen. */
    method Seed(alerts: seq<Alert>)
      modifies this`seenAlertIds
      ensures seenAlertIds == old(seenAlertIds) + Ids(alerts)
    {
      var i := 0;
      while i < |alerts|
        invariant 0 <= i <= |alerts|
        invariant seenAlertIds == old(seenAlertIds) + Ids(alerts[..i])
      {
        IdsNext(alerts, i);
        seenAlertIds := seenAlertIds + {Id(alerts[i])};
        i := i + 1;
      }
      assert alerts[..i] == alerts;
    }
  }

  // ----- Daemon, in-flight responses and app together -----

  /** `taken[i]` counts the additions made when in-flight response i was produced; `applied`
      and `polls` are the same counts for the responses applied, and produced, so far. */
  datatype System = System(ring: seq<Alert>, inFlight: seq<seq<Alert>>, app: App,
                           added: seq<Alert>, taken: seq<nat>, applied: seq<nat>, polls: seq<nat>)

  const START := System([], [], App(false, {}, []), [], [], [], [])

  datatype Event = Add(alert: Alert) | Take | Apply(i: nat) | Lose(i: nat)

  function Without<T>(xs: seq<T>, i: nat): seq<T>
    requires i < |xs|
  {
    xs[..i] + xs[i + 1..]
  }

  /** One event; events about a response that is not in flight do nothing. */
  function Step(s: System, e: Event): System {
    match e
    case Add(a) => s.(ring := RingAdd(s.ring, a, CAP), added := s.added + [a])
    case Take => s.(inFlight := s.inFlight + [s.ring], taken := s.taken + [|s.added|], polls := s.polls + [|s.added|])
    case Apply(i) =>
      if i < |s.inFlight| && i < |s.taken| then
        s.(app := Poll(s.app, s.inFlight[i]), inFlight := Without(s.inFlight, i), taken := Without(s.taken, i),
           applied := s.applied + [s.taken[i]])
      else s
    case Lose(i) =>
      if i < |s.inFlight| && i < |s.taken| then s.(inFlight := Without(s.inFlight, i), taken := Without(s.taken, i))
      else s
  }

  function Run(events: seq<Event>): System {
    if events == [] then START else Step(Run(events[..|events| - 1]), events[|events| - 1])
  }

  /** The app after responses produced at the given addition counts. */
  ghost function AppAfter(added: seq<Alert>, counts: seq<nat>): App
    requires forall i :: 0 <= i < |counts| ==> counts[i] <= |added|
  {
    if counts == [] then App(false, {}, [])
    else Poll(AppAfter(added, counts[..|counts| - 1]), Ring(added[..counts[|counts| - 1]]))
  }

  lemma {:induction false} AppAfterGrows(added: seq<Alert>, a: Alert, counts: seq<nat>)
    requires forall i :: 0 <= i < |counts| ==> counts[i] <= |added|
    ensures AppAfter(added + [a], counts) == AppAfter(added, counts)
  {
    if counts != [] {
      AppAfterGrows(added, a, counts[..|counts| - 1]);
      var c := counts[|counts| - 1];
      assert (added + [a])[..c] == added[..c];
    }
  }

  ghost predicate Consistent(s: System) {
    && s.ring == Ring(s.added)
    && |s.inFlight| == |s.taken|
    && (forall i :: 0 <= i < |s.taken| ==> s.taken[i] <= |s.added| && s.inFlight[i] == Ring(s.added[..s.taken[i]]))
    && (forall i :: 0 <= i < |s.applied| ==> s.applied[i] <= |s.added|)
    && s.app == AppAfter(s.added, s.applied)
  }

  lemma AddConsistent(s: System, a: Alert)
    requires Consistent(s)
    ensures Consistent(Step(s, Add(a)))
  {
    var more := s.added + [a];
    assert more[..|more| - 1] == s.added;
    AppAfterGrows(s.added, a, s.applied);
    forall i | 0 <= i < |s.taken| ensures s.inFlight[i] == Ring(more[..s.taken[i]]) {
      assert more[..s.taken[i]] == s.added[..s.taken[i]];
    }
  }

  lemma ApplyConsistent(s: System, i: nat)
    requires Consistent(s) && i < |s.taken|
    ensures Consistent(Step(s, Apply(i)))
  {
  }

  lemma StepConsistent(s: System, e: Event)
    requires Consistent(s)
    ensures Consistent(Step(s, e))
  {
    match e
    case Add(a) => AddConsistent(s, a);
    case Take => assert s.added[..|s.added|] == s.added;
    case Apply(i) => if i < |s.taken| { ApplyConsistent(s, i); }
    case Lose(i) =>
  }

  lemma {:induction false} RunConsistent(events: seq<Event>)
    ensures Consistent(Run(events))
  {
    if events != [] {
      RunConsistent(events[..|events| - 1]);
      StepConsistent(Run(events[..|events| - 1]), events[|events| - 1]);
    }
  }

  // ----- At most once, whatever happens to the responses -----

  ghost predicate PostedOnce(app: App) {
    && (forall i :: 0 <= i < |app.posted| ==> Id(app.posted[i]) in app.seen)
    && (forall i, j :: 0 <= i < j < |app.posted| ==> Id(app.posted[i]) != Id(app.posted[j]))
  }

  lemma {:induction false} NotifyEachOnce(app: App, alerts: seq<Alert>)
    requires PostedOnce(app)
    ensures PostedOnce(NotifyEach(app, alerts))
  {
    if alerts != [] {
      NotifyEachOnce(app, alerts[..|alerts| - 1]);
    }
  }

  /** In every run - responses overtaking each other, lost, or applied late - no id is posted twice. */
  lemma {:induction false} PostedAtMostOnce(events: seq<Event>)
    ensures PostedOnce(Run(events).app)
  {
    if events != [] {
      var s, e := Run(events[..|events| - 1]), events[|events| - 1];
      PostedAtMostOnce(events[..|events| - 1]);
      if e.Apply? && e.i < |s.inFlight| && e.i < |s.taken| {
        NotifyEachOnce(s.app, s.inFlight[e.i]);
      }
    }
  }

  // ----- Exactly which alerts are posted -----

  /** The alerts with id `x`, in order. */
  function WithId(alerts: seq<Alert>, x: string): seq<Alert> {
    if alerts == [] then []
    else WithId(alerts[..|alerts| - 1], x) + if Id(alerts[|alerts| - 1]) == x then [alerts[|alerts| - 1]] else []
  }

  lemma WithIdSnoc(alerts: seq<Alert>, a: Alert, x: string)
    ensures WithId(alerts + [a], x) == WithId(alerts, x) + if Id(a) == x then [a] else []
  {
    assert (alerts + [a])[..|alerts|] == alerts;
  }

  /** The first alert of a response with id `x`: on the newest-first ring, the newest one. */
  function FirstWith(alerts: seq<Alert>, ids: seq<string>, x: string): Option<Alert>
    requires |ids| == |alerts|
  {
    if alerts == [] then None
    else
      var n := |alerts| - 1;
      var before := FirstWith(alerts[..n], ids[..n], x);
      if before.None? && ids[n] == x then Some(alerts[n]) else before
  }

  lemma {:induction false} SomeWith(alerts: seq<Alert>, ids: seq<string>, x: string)
    requires |ids| == |alerts|
    ensures FirstWith(alerts, ids, x).Some? <==> x in ids
  {
    if alerts != [] {
      var n := |alerts| - 1;
      SomeWith(alerts[..n], ids[..n], x);
      assert ids == ids[..n] + [ids[n]];
    }
  }

  lemma {:induction false} FirstWithAt(alerts: seq<Alert>, ids: seq<string>, i: nat)
    requires |ids| == |alerts| && i < |alerts| && ids[i] !in ids[..i]
    ensures FirstWith(alerts, ids, ids[i]) == Some(alerts[i])
  {
    var n := |alerts| - 1;
    if i < n {
      assert ids[..n][..i] == ids[..i];
      FirstWithAt(alerts[..n], ids[..n], i);
    } else {
      SomeWith(alerts[..n], ids[..n], ids[i]);
    }
  }

  lemma {:induction false} NotifyEachSees(app: App, alerts: seq<Alert>)
    ensures NotifyEach(app, alerts).seen == app.seen + Ids(alerts)
    ensures NotifyEach(app, alerts).seeded == app.seeded
  {
    if alerts == [] {
      assert Ids(alerts) == {};
    } else {
      NotifyEachSees(app, alerts[..|alerts| - 1]);
      IdsNext(alerts, |alerts| - 1);
      assert alerts[..|alerts|] == alerts;
    }
  }

  /** What a later response posts under id `x`. */
  function NewPosts(seen: set<string>, alerts: seq<Alert>, x: string): seq<Alert> {
    var first := FirstWith(alerts, IdsOf(alerts), x);
    if x !in seen && first.Some? && Notifiable(first.value) then [first.value] else []
  }

  lemma NotifyOneExact(app: App, a: Alert, x: string)
    ensures WithId(NotifyOne(app, a).posted, x) ==
            WithId(app.posted, x) + if Id(a) == x && x !in app.seen && Notifiable(a) then [a] else []
  {
    WithIdSnoc(app.posted, a, x);
    assert WithId(app.posted, x) + [] == WithId(app.posted, x);
  }

  /** Under each id not seen before, one response posts the first alert that bears it if that one
      is notifiable, and nothing else. */
  lemma {:induction false} NotifyEachExact(app: App, alerts: seq<Alert>, x: string)
    ensures WithId(NotifyEach(app, alerts).posted, x) == WithId(app.posted, x) + NewPosts(app.seen, alerts, x)
  {
    if alerts != [] {
      var front, last := alerts[..|alerts| - 1], alerts[|alerts| - 1];
      NotifyEachExact(app, front, x);
      NotifyEachSees(app, front);
      NotifyOneExact(NotifyEach(app, front), last, x);
      NewPostsSnoc(app.seen, alerts, x);
      Reassociate(WithId(app.posted, x), NewPosts(app.seen, front, x),
                  if Id(last) == x && x !in app.seen + Ids(front) && Notifiable(last) then [last] else []);
    }
  }

  lemma NewPostsSnoc(seen: set<string>, alerts: seq<Alert>, x: string)
    requires alerts != []
    ensures var front, last := alerts[..|alerts| - 1], alerts[|alerts| - 1];
            NewPosts(seen, alerts, x) == NewPosts(seen, front, x) +
              if Id(last) == x && x !in seen + Ids(front) && Notifiable(last) then [last] else []
  {
    var n := |alerts| - 1;
    assert IdsOf(alerts[..n]) == IdsOf(alerts)[..n];
    SomeWith(alerts[..n], IdsOf(alerts[..n]), x);
  }

  /** Addition `j` is on the ring when `count` additions have been made. */
  predicate OnRing(count: nat, j: nat) {
    count - CAP <= j < count
  }

  /** A response produced after `count` additions with these ids shows id `x`. */
  ghost predicate ShowsId(ids: seq<string>, count: nat, x: string) {
    exists j :: 0 <= j < |ids| && OnRing(count, j) && ids[j] == x
  }

  /** Addition `j` is the newest with its id that such a response shows. */
  ghost predicate NewestAt(ids: seq<string>, count: nat, j: nat) {
    j < |ids| && OnRing(count, j) && forall k :: j < k < count && k < |ids| ==> ids[k] != ids[j]
  }

  lemma RingShows(added: seq<Alert>, ids: seq<string>, count: nat, ring: seq<Alert>, x: string)
    requires NewestFirst(added, count, ring) && ids == IdsOf(added)
    ensures x in Ids(ring) <==> ShowsId(ids, count, x)
  {
    var ringIds := IdsOf(ring);
    assert forall i :: 0 <= i < |ring| ==> ringIds[i] == ids[count - 1 - i];
    if i :| 0 <= i < |ringIds| && ringIds[i] == x {
      assert ids[count - 1 - i] == x && OnRing(count, count - 1 - i);
    }
    if j :| 0 <= j < |ids| && OnRing(count, j) && ids[j] == x {
      assert ringIds[count - 1 - j] == x;
    }
  }

  lemma RingIds(added: seq<Alert>, ids: seq<string>, count: nat, ring: seq<Alert>)
    requires NewestFirst(added, count, ring) && ids == IdsOf(added)
    ensures forall k :: 0 <= k < |ring| ==> IdsOf(ring)[k] == ids[count - 1 - k]
  {
  }

  lemma NoneNewer(ringIds: seq<string>, ids: seq<string>, count: nat, j: nat)
    requires count <= |ids| && |ringIds| == (if count < 25 then count else 25) && NewestAt(ids, count, j)
    requires forall k :: 0 <= k < |ringIds| ==> ringIds[k] == ids[count - 1 - k]
    ensures 0 <= count - 1 - j < |ringIds| && ringIds[count - 1 - j] == ids[j]
    ensures ids[j] !in ringIds[..count - 1 - j]
  {
  }

  lemma RingNewest(added: seq<Alert>, ids: seq<string>, count: nat, ring: seq<Alert>, j: nat)
    requires NewestFirst(added, count, ring) && ids == IdsOf(added) && NewestAt(ids, count, j)
    ensures FirstWith(ring, IdsOf(ring), ids[j]) == Some(added[j])
  {
    var ringIds := IdsOf(ring);
    RingIds(added, ids, count, ring);
    NoneNewer(ringIds, ids, count, j);
    FirstWithAt(ring, ringIds, count - 1 - j);
  }

  lemma {:induction false} NewestExists(ids: seq<string>, count: nat, j: nat) returns (n: nat)
    requires j < count <= |ids| && OnRing(count, j)
    ensures NewestAt(ids, count, n) && ids[n] == ids[j]
    decreases count - j
  {
    if k :| j < k < count && ids[k] == ids[j] {
      n := NewestExists(ids, count, k);
    } else {
      n := j;
    }
  }

  /** Response `i` is the first to show the id of addition `j`, and `j` is the newest with it there. */
  ghost predicate FirstShown(ids: seq<string>, counts: seq<nat>, i: nat, j: nat) {
    && i < |counts| && NewestAt(ids, counts[i], j)
    && forall k :: 0 <= k < i ==> !ShowsId(ids, counts[k], ids[j])
  }

  ghost predicate NeverShown(ids: seq<string>, counts: seq<nat>, x: string) {
    forall i :: 0 <= i < |counts| ==> !ShowsId(ids, counts[i], x)
  }

  /** Every id that is shown at all is shown first somewhere. */
  lemma {:induction false} ShownHasFirst(ids: seq<string>, counts: seq<nat>, x: string) returns (i: nat, j: nat)
    requires forall k :: 0 <= k < |counts| ==> counts[k] <= |ids|
    requires !NeverShown(ids, counts, x)
    ensures FirstShown(ids, counts, i, j) && ids[j] == x
  {
    var front := counts[..|counts| - 1];
    if NeverShown(ids, front, x) {
      i := |front|;
      assert forall k :: 0 <= k < i ==> counts[k] == front[k];
      assert ShowsId(ids, counts[i], x);
      var m :| 0 <= m < |ids| && OnRing(counts[i], m) && ids[m] == x;
      j := NewestExists(ids, counts[i], m);
    } else {
      i, j := ShownHasFirst(ids, front, x);
    }
  }

  /** What should be posted under id `x` when it is first shown by addition `j` in response `i`. */
  function Announcement(added: seq<Alert>, i: nat, j: nat): seq<Alert>
    requires j < |added|
  {
    if i > 0 && added[j].notify && added[j].kind == "firing" then [added[j]] else []
  }

  ghost predicate PostsExactly(added: seq<Alert>, counts: seq<nat>, app: App, x: string) {
    var ids := IdsOf(added);
    && (x in app.seen <==> !NeverShown(ids, counts, x))
    && (NeverShown(ids, counts, x) ==> WithId(app.posted, x) == [])
    && forall i: nat, j: nat :: FirstShown(ids, counts, i, j) && ids[j] == x ==>
                                  WithId(app.posted, x) == Announcement(added, i, j)
  }

  lemma NeverShownSnoc(ids: seq<string>, front: seq<nat>, c: nat, x: string)
    ensures NeverShown(ids, front + [c], x) <==> NeverShown(ids, front, x) && !ShowsId(ids, c, x)
  {
    var counts := front + [c];
    assert counts[|front|] == c;
    assert forall i :: 0 <= i < |front| ==> counts[i] == front[i];
  }

  /** The first response that shows the id of addition `j`, one response later. */
  lemma FirstShownSnoc(ids: seq<string>, front: seq<nat>, c: nat, i: nat, j: nat)
    requires FirstShown(ids, front + [c], i, j)
    ensures i < |front| ==> FirstShown(ids, front, i, j) && !NeverShown(ids, front, ids[j])
    ensures i == |front| ==> NewestAt(ids, c, j) && NeverShown(ids, front, ids[j])
  {
    var counts := front + [c];
    assert forall k :: 0 <= k < |front| ==> counts[k] == front[k];
    assert ShowsId(ids, counts[i], ids[j]);
  }

  /** One more response: the first only marks, a later one posts what it is the first to show. */
  lemma PollPosts(app: App, ring: seq<Alert>, x: string)
    ensures Poll(app, ring).seeded && Poll(app, ring).seen == app.seen + Ids(ring)
    ensures WithId(Poll(app, ring).posted, x) ==
            WithId(app.posted, x) + if !app.seeded then [] else NewPosts(app.seen, ring, x)
  {
    if app.seeded {
      NotifyEachExact(app, ring, x);
      NotifyEachSees(app, ring);
    } else {
      assert WithId(app.posted, x) + [] == WithId(app.posted, x);
    }
  }

  lemma AlreadyShown(added: seq<Alert>, front: seq<nat>, c: nat, app: App, app': App, x: string)
    requires PostsExactly(added, front, app, x) && !NeverShown(IdsOf(added), front, x)
    requires x in app'.seen && WithId(app'.posted, x) == WithId(app.posted, x)
    ensures PostsExactly(added, front + [c], app', x)
  {
    var ids := IdsOf(added);
    NeverShownSnoc(ids, front, c, x);
    forall i: nat, j: nat | FirstShown(ids, front + [c], i, j) && ids[j] == x
      ensures WithId(app'.posted, x) == Announcement(added, i, j)
    {
      FirstShownSnoc(ids, front, c, i, j);
    }
  }

  lemma ShownNow(added: seq<Alert>, front: seq<nat>, c: nat, ring: seq<Alert>, app: App, app': App, x: string)
    requires NewestFirst(added, c, ring) && PostsExactly(added, front, app, x) && NeverShown(IdsOf(added), front, x)
    requires x in app'.seen <==> ShowsId(IdsOf(added), c, x)
    requires WithId(app'.posted, x) == if front == [] then [] else NewPosts(app.seen, ring, x)
    ensures PostsExactly(added, front + [c], app', x)
  {
    var ids := IdsOf(added);
    NeverShownSnoc(ids, front, c, x);
    RingShows(added, ids, c, ring, x);
    SomeWith(ring, IdsOf(ring), x);
    forall i: nat, j: nat | FirstShown(ids, front + [c], i, j) && ids[j] == x
      ensures WithId(app'.posted, x) == Announcement(added, i, j)
    {
      FirstShownSnoc(ids, front, c, i, j);
      RingNewest(added, ids, c, ring, j);
    }
  }

  lemma PollPostsExactly(added: seq<Alert>, front: seq<nat>, c: nat, ring: seq<Alert>, app: App, x: string)
    requires NewestFirst(added, c, ring) && (app.seeded <==> front != []) && PostsExactly(added, front, app, x)
    ensures PostsExactly(added, front + [c], Poll(app, ring), x)
  {
    PollPosts(app, ring, x);
    RingShows(added, IdsOf(added), c, ring, x);
    if NeverShown(IdsOf(added), front, x) {
      assert [] + NewPosts(app.seen, ring, x) == NewPosts(app.seen, ring, x);
      ShownNow(added, front, c, ring, app, Poll(app, ring), x);
    } else {
      assert WithId(app.posted, x) + [] == WithId(app.posted, x);
      AlreadyShown(added, front, c, app, Poll(app, ring), x);
    }
  }

  lemma {:induction false} AppPostsExactly(added: seq<Alert>, counts: seq<nat>, x: string)
    requires forall i :: 0 <= i < |counts| ==> counts[i] <= |added|
    ensures AppAfter(added, counts).seeded <==> counts != []
    ensures PostsExactly(added, counts, AppAfter(added, counts), x)
  {
    if counts != [] {
      var front, c := counts[..|counts| - 1], counts[|counts| - 1];
      assert counts == front + [c];
      AppPostsExactly(added, front, x);
      RingIsNewest(added, c);
      PollPosts(AppAfter(added, front), Ring(added[..c]), x);
      PollPostsExactly(added, front, c, Ring(added[..c]), AppAfter(added, front), x);
    }
  }

  /** Whatever is posted is flagged for notification and firing, in every run. */
  lemma {:induction false} PostedAskForIt(events: seq<Event>)
    ensures forall a :: a in Run(events).app.posted ==> a.notify && a.kind == "firing"
  {
    if events != [] {
      var s, e := Run(events[..|events| - 1]), events[|events| - 1];
      PostedAskForIt(events[..|events| - 1]);
      if e.Apply? && e.i < |s.inFlight| && e.i < |s.taken| {
        NotifyEachAsk(s.app, s.inFlight[e.i]);
      }
    }
  }

  lemma {:induction false} NotifyEachAsk(app: App, alerts: seq<Alert>)
    requires forall a :: a in app.posted ==> a.notify && a.kind == "firing"
    ensures forall a :: a in NotifyEach(app, alerts).posted ==> a.notify && a.kind == "firing"
  {
    if alerts != [] {
      NotifyEachAsk(app, alerts[..|alerts| - 1]);
    }
  }

  /** End to end, for every run whatever: under an id that no applied response shows nothing is
      posted; under one that response `i` is the first to show, the newest alert with it there is
      posted, once, if it is notifiable and `i` is not the first response, and nothing else is. */
  lemma DeliveryExact(events: seq<Event>, x: string)
    ensures var s := Run(events);
            && (forall i :: 0 <= i < |s.applied| ==> s.applied[i] <= |s.added|)
            && PostsExactly(s.added, s.applied, s.app, x)
            && |WithId(s.app.posted, x)| <= 1
  {
    var s := Run(events);
    RunConsistent(events);
    AppPostsExactly(s.added, s.applied, x);
    if !NeverShown(IdsOf(s.added), s.applied, x) {
      var i, j := ShownHasFirst(IdsOf(s.added), s.applied, x);
    }
  }

  // ----- Distinct alerts -----

  /** Distinct (time, rule, kind) triples, with the two kinds the daemon produces. */
  ghost predicate DistinctAlerts(added: seq<Alert>) {
    && (forall i :: 0 <= i < |added| ==> added[i].kind == "firing" || added[i].kind == "recovered")
    && (forall i, j :: 0 <= i < j < |added| ==>
          (added[i].ts, added[i].rule, added[i].kind) != (added[j].ts, added[j].rule, added[j].kind))
  }

  lemma DistinctAlertsHaveDistinctIds(added: seq<Alert>)
    requires DistinctAlerts(added)
    ensures Distinct(IdsOf(added))
  {
    forall i, j | 0 <= i < j < |added| ensures Id(added[i]) != Id(added[j]) {
      if Id(added[i]) == Id(added[j]) {
        IdInjective(added[i], added[j]);
        assert false;
      }
    }
  }

  lemma DistinctShows(ids: seq<string>, count: nat, j: nat)
    requires Distinct(ids) && j < |ids|
    ensures ShowsId(ids, count, ids[j]) <==> OnRing(count, j)
  {
    if ShowsId(ids, count, ids[j]) {
      var k :| 0 <= k < |ids| && OnRing(count, k) && ids[k] == ids[j];
      assert k == j;
    }
  }

  ghost predicate Shown(counts: seq<nat>, from: nat, j: nat) {
    exists i :: from <= i < |counts| && OnRing(counts[i], j)
  }

  /** With distinct alerts each one is posted, once, if it is notifiable, was not on the first applied
      response and is on some later one, and never otherwise. */
  lemma DistinctDelivery(events: seq<Event>, j: nat)
    requires DistinctAlerts(Run(events).added) && j < |Run(events).added|
    ensures var s := Run(events);
            WithId(s.app.posted, Id(s.added[j])) ==
            if s.applied != [] && s.added[j].notify && s.added[j].kind == "firing" &&
               !OnRing(s.applied[0], j) && Shown(s.applied, 1, j)
            then [s.added[j]] else []
  {
    var s := Run(events);
    var ids := IdsOf(s.added);
    DistinctAlertsHaveDistinctIds(s.added);
    DeliveryExact(events, ids[j]);
    forall i | 0 <= i < |s.applied| ensures ShowsId(ids, s.applied[i], ids[j]) <==> OnRing(s.applied[i], j) {
      DistinctShows(ids, s.applied[i], j);
    }
    if !NeverShown(ids, s.applied, ids[j]) {
      var i, k := ShownHasFirst(ids, s.applied, ids[j]);
      assert k == j;
      assert i == 0 <==> OnRing(s.applied[0], j);
    }
  }

  // ----- In-order polling that keeps up -----

  ghost predicate InOrder(events: seq<Event>) {
    forall i :: 0 <= i < |events| ==> !events[i].Lose? && (events[i].Apply? ==> events[i].i == 0)
  }

  lemma {:induction false} InOrderApplies(events: seq<Event>)
    requires InOrder(events)
    ensures var s := Run(events);
            && s.applied + s.taken == s.polls
            && (forall i :: 0 < i < |s.polls| ==> s.polls[i - 1] <= s.polls[i])
            && (forall i :: 0 <= i < |s.polls| ==> s.polls[i] <= |s.added|)
  {
    if events != [] {
      InOrderApplies(events[..|events| - 1]);
    }
  }

  /** Successive responses are at most 25 additions apart. */
  ghost predicate KeepsUp(counts: seq<nat>) {
    forall i :: 0 < i < |counts| ==> counts[i - 1] <= counts[i] <= counts[i - 1] + CAP
  }

  /** Up to response `i` exactly the additions from 25 before the first response on are shown. */
  lemma {:induction false} Covered(counts: seq<nat>, i: nat, j: nat)
    requires KeepsUp(counts) && i < |counts|
    ensures counts[0] <= counts[i]
    ensures (exists k :: 0 <= k <= i && OnRing(counts[k], j)) <==> counts[0] - CAP <= j < counts[i]
  {
    if i > 0 {
      Covered(counts, i - 1, j);
      assert (exists k :: 0 <= k <= i && OnRing(counts[k], j)) <==>
             (exists k :: 0 <= k <= i - 1 && OnRing(counts[k], j)) || OnRing(counts[i], j);
    } else {
      assert OnRing(counts[0], j) ==> exists k :: 0 <= k <= i && OnRing(counts[k], j);
    }
  }

  /** Addition `j` came between responses `i - 1` and `i`, was not followed by another with its id
      before `i`, and is the first of that id since 25 before the first response. */
  ghost predicate Fresh(ids: seq<string>, counts: seq<nat>, i: nat, j: nat) {
    && 0 < i < |counts| && counts[i - 1] <= j < counts[i] && j < |ids|
    && (forall k :: j < k < counts[i] && k < |ids| ==> ids[k] != ids[j])
    && (forall k :: 0 <= k < counts[i - 1] && counts[0] - CAP <= k && k < |ids| ==> ids[k] != ids[j])
  }

  lemma ShownUpTo(ids: seq<string>, counts: seq<nat>, i: nat, x: string)
    requires KeepsUp(counts) && i < |counts|
    ensures (exists k :: 0 <= k <= i && ShowsId(ids, counts[k], x)) <==>
            exists j :: 0 <= j < |ids| && counts[0] - CAP <= j < counts[i] && ids[j] == x
  {
    if k :| 0 <= k <= i && ShowsId(ids, counts[k], x) {
      var j :| 0 <= j < |ids| && OnRing(counts[k], j) && ids[j] == x;
      Covered(counts, i, j);
    }
    if j :| 0 <= j < |ids| && counts[0] - CAP <= j < counts[i] && ids[j] == x {
      Covered(counts, i, j);
      var k :| 0 <= k <= i && OnRing(counts[k], j);
      assert ShowsId(ids, counts[k], x);
    }
  }

  lemma FreshIsFirstShown(ids: seq<string>, counts: seq<nat>, i: nat, j: nat)
    requires KeepsUp(counts) && Fresh(ids, counts, i, j)
    ensures FirstShown(ids, counts, i, j)
  {
    ShownUpTo(ids, counts, i - 1, ids[j]);
    assert OnRing(counts[i], j);
  }

  lemma FirstShownIsFresh(ids: seq<string>, counts: seq<nat>, i: nat, j: nat)
    requires KeepsUp(counts) && FirstShown(ids, counts, i, j) && i > 0
    ensures Fresh(ids, counts, i, j)
  {
    ShownUpTo(ids, counts, i - 1, ids[j]);
    Covered(counts, i - 1, j);
    Covered(counts, i, j);
    assert OnRing(counts[i], j);
  }

  /** With responses applied in order and at most 25 alerts added between polls, whatever the alerts:
      an addition that is fresh at some response is posted, once, if it is notifiable, and it is the
      only one with its id; under an id without a fresh addition nothing is ever posted. */
  lemma InOrderDelivery(events: seq<Event>, x: string)
    requires InOrder(events)
    requires var p := Run(events).polls; forall i :: 0 < i < |p| ==> p[i] <= p[i - 1] + 25
    ensures var s := Run(events);
            PostsFresh(s.added, IdsOf(s.added), s.applied, WithId(s.app.posted, x), x)
  {
    var s := Run(events);
    var ids := IdsOf(s.added);
    DeliveryExact(events, x);
    AppliedKeepsUp(events);
    FreshPosts(s.added, s.applied, s.app, x);
  }

  ghost predicate PostsFresh(added: seq<Alert>, ids: seq<string>, counts: seq<nat>, posts: seq<Alert>, x: string)
    requires |ids| == |added|
  {
    && (forall i: nat, j: nat :: Fresh(ids, counts, i, j) && ids[j] == x ==>
                                   posts == if added[j].notify && added[j].kind == "firing" then [added[j]] else [])
    && ((forall i: nat, j: nat :: Fresh(ids, counts, i, j) ==> ids[j] != x) ==> posts == [])
  }

  lemma FreshPosts(added: seq<Alert>, counts: seq<nat>, app: App, x: string)
    requires KeepsUp(counts) && PostsExactly(added, counts, app, x)
    requires forall k :: 0 <= k < |counts| ==> counts[k] <= |added|
    ensures PostsFresh(added, IdsOf(added), counts, WithId(app.posted, x), x)
  {
    var ids := IdsOf(added);
    forall i: nat, j: nat | Fresh(ids, counts, i, j) && ids[j] == x
      ensures WithId(app.posted, x) == Announcement(added, i, j)
    {
      FreshIsFirstShown(ids, counts, i, j);
    }
    if !NeverShown(ids, counts, x) {
      var i, j := ShownHasFirst(ids, counts, x);
      if i > 0 {
        FirstShownIsFresh(ids, counts, i, j);
      }
    }
  }

  lemma AppliedKeepsUp(events: seq<Event>)
    requires InOrder(events)
    requires var p := Run(events).polls; forall i :: 0 < i < |p| ==> p[i] <= p[i - 1] + 25
    ensures KeepsUp(Run(events).applied)
  {
    var s := Run(events);
    InOrderApplies(events);
    assert forall i :: 0 <= i < |s.applied| ==> s.applied[i] == s.polls[i];
  }

  lemma {:induction false} BetweenResponses(counts: seq<nat>, j: nat) returns (i: nat)
    requires KeepsUp(counts) && |counts| > 0 && counts[0] <= j < counts[|counts| - 1]
    ensures 0 < i < |counts| && counts[i - 1] <= j < counts[i]
  {
    var n := |counts| - 1;
    if counts[n - 1] <= j {
      i := n;
    } else {
      i := BetweenResponses(counts[..n], j);
    }
  }

  /** With distinct alerts that is every notifiable alert added after the first poll and before the
      last applied one, exactly once, and nothing that was there at the first poll. */
  lemma InOrderDistinct(events: seq<Event>, j: nat)
    requires InOrder(events) && DistinctAlerts(Run(events).added) && j < |Run(events).added|
    requires var p := Run(events).polls; forall i :: 0 < i < |p| ==> p[i] <= p[i - 1] + 25
    requires Run(events).applied != []
    ensures var s := Run(events);
            WithId(s.app.posted, Id(s.added[j])) ==
            if s.added[j].notify && s.added[j].kind == "firing" && s.applied[0] <= j < s.applied[|s.applied| - 1]
            then [s.added[j]] else []
  {
    var s := Run(events);
    AppliedKeepsUp(events);
    DistinctAlertsHaveDistinctIds(s.added);
    InOrderDelivery(events, IdsOf(s.added)[j]);
    FreshIffBetween(IdsOf(s.added), s.applied, j);
  }

  lemma FreshIffBetween(ids: seq<string>, counts: seq<nat>, j: nat)
    requires Distinct(ids) && KeepsUp(counts) && counts != [] && j < |ids|
    ensures counts[0] <= j < counts[|counts| - 1] ==> exists i: nat :: Fresh(ids, counts, i, j)
    ensures !(counts[0] <= j < counts[|counts| - 1]) ==>
              forall i: nat, k: nat :: Fresh(ids, counts, i, k) ==> ids[k] != ids[j]
  {
    if counts[0] <= j < counts[|counts| - 1] {
      var i := BetweenResponses(counts, j);
      assert Fresh(ids, counts, i, j);
    } else {
      forall i: nat, k: nat | Fresh(ids, counts, i, k) ensures ids[k] != ids[j] {
        Covered(counts, i - 1, k);
        InOrderLast(counts, i);
        assert k != j;
      }
    }
  }

  lemma {:induction false} InOrderLast(counts: seq<nat>, i: nat)
    requires KeepsUp(counts) && i < |counts|
    ensures counts[i] <= counts[|counts| - 1]
    decreases |counts| - i
  {
    if i < |counts| - 1 {
      InOrderLast(counts, i + 1);
    }
  }

  // ----- Why the alerts must be distinct -----

  lemma TwinsNotify(app: App, a: Alert, b: Alert)
    requires Notifiable(a) && Notifiable(b) && Id(a) == Id(b) && Id(a) !in app.seen
    ensures NotifyEach(app, [b, a]).posted == app.posted + [b]
  {
    assert [b, a][..1] == [b] && [b][..0] == [];
    assert NotifyEach(app, []) == app;
    assert NotifyEach(app, [b]) == NotifyOne(app, b);
  }

  /** Two different alerts of one job or rule in the same second - a missed-run alert and a failure
      alert, say - share an id; of such twins between two polls only the newer one is ever posted. */
  lemma TwinsLoseOne(a: Alert, b: Alert)
    requires a.notify && b.notify && a.kind == "firing" && b.kind == "firing" && a.ts == b.ts && a.rule == b.rule && a != b
    ensures var seeded := Step(Step(START, Take), Apply(0));
            var s := Step(Step(Step(Step(seeded, Add(a)), Add(b)), Take), Apply(0));
            s.added == [a, b] && s.app.posted == [b]
  {
    var seeded := Step(Step(START, Take), Apply(0));
    assert Ids([]) == {};
    assert seeded == START.(app := App(true, {}, []), applied := [0], polls := [0]);
    var t := Step(Step(seeded, Add(a)), Add(b));
    assert t.added == [a, b] && t.ring == [b, a] && t.app == seeded.app && t.inFlight == [] && t.taken == [];
    var u := Step(t, Take);
    assert u.inFlight == [[b, a]] && u.taken == [2];
    TwinsNotify(seeded.app, a, b);
  }
}

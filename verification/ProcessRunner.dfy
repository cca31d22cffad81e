/** Process supervision: capped capture of two streams, the deadline and the final status. */
module ProcessRunner {
  import opened Basics

  const MAX_CAPTURE: nat := 64 * 1024

  /** One captured stream. */
  datatype Stream = Stream(text: seq<byte>, truncated: bool, open: bool)

  const NEW_STREAM := Stream([], false, true)

  function AppendedText(text: seq<byte>, data: seq<byte>): seq<byte> {
    if |text| + |data| <= MAX_CAPTURE then text + data
    else if |text| >= MAX_CAPTURE then text
    else text + data[..MAX_CAPTURE - |text|]
  }

  /** One read from an open stream; no bytes stand for end of file or an error. */
  function Absorb(s: Stream, data: seq<byte>): Stream {
    if !s.open then s
    else if data == [] then s.(open := false)
    else
      var fits := |s.text| + |data| <= MAX_CAPTURE;
      Stream(AppendedText(s.text, data), s.truncated || !fits, fits)
  }

  class Capture {
    var text: seq<byte>
    var truncated: bool
    var keep: bool

    constructor ()
      ensures View() == NEW_STREAM
    {
      text, truncated, keep := [], false, true;
    }

    ghost function View(): Stream
      reads this
    {
      Stream(text, truncated, keep)
    }

    /** Appends up to the cap; false once something did not fit. */
    method AppendCapped(data: seq<byte>) returns (ok: bool)
      modifies this`text, this`truncated
      ensures text == (if |old(text)| >= MAX_CAPTURE then old(text) else AppendedText(old(text), data))
      ensures ok <==> |old(text)| < MAX_CAPTURE && |old(text)| + |data| <= MAX_CAPTURE
      ensures truncated == (old(truncated) || !ok)
    {
      if |text| >= MAX_CAPTURE {
        truncated := true;
        return false;
      }
      var room := MAX_CAPTURE - |text|;
      var take := if |data| < room then |data| else room;
      text := text + data[..take];
      if take < |data| {
        truncated := true;
        return false;
      }
      return true;
    }

    method Drain(data: seq<byte>)
      modifies this
      ensures View() == Absorb(old(View()), data)
    {
      if !keep {
        return;
      }
      if |data| == 0 {
        keep := false;
      } else {
        var ok := AppendCapped(data);
        if !ok {
          keep := false;
        }
      }
    }
  }

  /** What one turn of the loop sees: poll's outcome and, for a signalled stream, what read gave. */
  datatype Round = Interrupted | PollFailed | TimedOut | Ready(out: Option<seq<byte>>, err: Option<seq<byte>>)

  datatype State = State(out: Stream, err: Stream, timedOut: bool, killed: bool, broken: bool)

  const START := State(NEW_STREAM, NEW_STREAM, false, false, false)

  predicate Looping(s: State) {
    (s.out.open || s.err.open) && !s.broken
  }

  function AbsorbIf(s: Stream, data: Option<seq<byte>>): Stream {
    match data
    case None => s
    case Some(d) => Absorb(s, d)
  }

  function Step(s: State, r: Round): State {
    if !Looping(s) then s
    else
      match r
      case Interrupted => s
      case PollFailed => s.(broken := true)
      case TimedOut => s.(timedOut := true, killed := true)
      case Ready(o, e) => s.(out := AbsorbIf(s.out, o), err := AbsorbIf(s.err, e))
  }

  function After(rounds: seq<Round>): State {
    if rounds == [] then START else Step(After(rounds[..|rounds| - 1]), rounds[|rounds| - 1])
  }

  /** The drain loop over the rounds the system delivers. */
  method DrainLoop(out: Capture, err: Capture, rounds: seq<Round>) returns (timedOut: bool, killed: bool, ghost broken: bool)
    requires out != err && out.View() == NEW_STREAM && err.View() == NEW_STREAM
    modifies out, err
    ensures State(out.View(), err.View(), timedOut, killed, broken) == After(rounds)
  {
    timedOut, killed, broken := false, false, false;
    var i := 0;
    while (out.keep || err.keep) && i < |rounds|
      invariant 0 <= i <= |rounds| && !broken
      invariant State(out.View(), err.View(), timedOut, killed, broken) == After(rounds[..i])
    {
      var r := rounds[i];
      assert rounds[..i + 1][..i] == rounds[..i];
      i := i + 1;
      if r.Interrupted? {
        continue;
      }
      if r.PollFailed? {
        broken := true;
        break;
      }
      if r.TimedOut? {
        timedOut := true;
        if !killed {
          killed := true;
        }
        continue;
      }
      if r.out.Some? {
        out.Drain(r.out.value);
      }
      if r.err.Some? {
        err.Drain(r.err.value);
      }
    }
    FinishedStays(rounds, i);
  }

  lemma {:induction false} FinishedStays(rounds: seq<Round>, i: nat)
    requires i <= |rounds| && (i == |rounds| || !Looping(After(rounds[..i])))
    ensures After(rounds) == After(rounds[..i])
  {
    if i == |rounds| {
      assert rounds[..i] == rounds;
    } else {
      assert rounds[..|rounds| - 1][..i] == rounds[..i];
      FinishedStays(rounds[..|rounds| - 1], i);
    }
  }

  // ----- Capture -----

  datatype Side = Out | Err

  function StreamOf(s: State, side: Side): Stream {
    if side == Out then s.out else s.err
  }

  function ChunkOf(r: Round, side: Side): Option<seq<byte>> {
    match r
    case Ready(o, e) => if side == Out then o else e
    case _ => None
  }

  /** Everything the system has to offer on a stream, read by read, until a poll fails. */
  ghost function Chunks(rounds: seq<Round>, side: Side): seq<seq<byte>> {
    if rounds == [] then []
    else
      var front, last := rounds[..|rounds| - 1], rounds[|rounds| - 1];
      if PollFailed in front then Chunks(front, side)
      else
        match ChunkOf(last, side)
        case None => Chunks(front, side)
        case Some(d) => Chunks(front, side) + [d]
  }

  /** The bytes of these reads up to the first empty one, which marks the end of the stream. */
  ghost function Content(chunks: seq<seq<byte>>): seq<byte> {
    if chunks == [] then []
    else
      var front := chunks[..|chunks| - 1];
      if [] in front then Content(front) else Content(front) + chunks[|chunks| - 1]
  }

  ghost predicate Captures(s: Stream, chunks: seq<seq<byte>>) {
    var all := Content(chunks);
    && s.text == (if |all| <= 65536 then all else all[..65536])
    && (s.truncated <==> |all| > 65536)
    && (s.open <==> [] !in chunks && |all| <= 65536)
  }

  lemma ContentNext(chunks: seq<seq<byte>>, data: seq<byte>)
    ensures Content(chunks + [data]) == if [] in chunks then Content(chunks) else Content(chunks) + data
  {
    assert (chunks + [data])[..|chunks|] == chunks;
  }

  lemma CutAgain(all: seq<byte>, data: seq<byte>)
    ensures |all| >= MAX_CAPTURE ==> (all + data)[..MAX_CAPTURE] == all[..MAX_CAPTURE]
    ensures |all| <= MAX_CAPTURE < |all| + |data| ==> (all + data)[..MAX_CAPTURE] == all + data[..MAX_CAPTURE - |all|]
  {
  }

  lemma AbsorbCaptures(s: Stream, chunks: seq<seq<byte>>, data: seq<byte>)
    requires Captures(s, chunks)
    ensures Captures(Absorb(s, data), chunks + [data])
  {
    var all := Content(chunks);
    ContentNext(chunks, data);
    CutAgain(all, data);
    if |all| == MAX_CAPTURE {
      assert all + data[..0] == all;
    }
    if data == [] {
      assert all + data == all;
    }
  }

  lemma {:induction false} FailedStops(rounds: seq<Round>)
    ensures After(rounds).broken ==> PollFailed in rounds
    ensures PollFailed in rounds ==> !Looping(After(rounds))
  {
    if rounds != [] {
      FailedStops(rounds[..|rounds| - 1]);
      assert rounds == rounds[..|rounds| - 1] + [rounds[|rounds| - 1]];
    }
  }

  /** For every chunking and interleaving of the two streams, each captured text is the stream's
      content cut at 65536 bytes, it is flagged truncated exactly when there was more, and the stream
      is read on exactly until it ends or overflows. */
  lemma {:induction false} CaptureExact(rounds: seq<Round>, side: Side)
    ensures Captures(StreamOf(After(rounds), side), Chunks(rounds, side))
  {
    if rounds != [] {
      var front, r := rounds[..|rounds| - 1], rounds[|rounds| - 1];
      var s := After(front);
      CaptureExact(front, side);
      FailedStops(front);
      if PollFailed !in front && ChunkOf(r, side).Some? {
        AbsorbCaptures(StreamOf(s, side), Chunks(front, side), ChunkOf(r, side).value);
      }
    }
  }

  /** Something was appended, a stream was closed or the group was killed. */
  predicate Progress(s: State, t: State) {
    s.out != t.out || s.err != t.err || s.killed != t.killed
  }

  ghost function ProgressRounds(rounds: seq<Round>): nat {
    if rounds == [] then 0
    else
      var before := rounds[..|rounds| - 1];
      ProgressRounds(before) + if Progress(After(before), After(rounds)) then 1 else 0
  }

  function StreamBudget(s: Stream): int {
    if s.open then MAX_CAPTURE - |s.text| + 1 else 0
  }

  function Budget(s: State): int {
    StreamBudget(s.out) + StreamBudget(s.err) + if s.killed then 0 else 1
  }

  lemma AbsorbSpendsBudget(s: Stream, data: seq<byte>)
    requires |s.text| <= MAX_CAPTURE
    ensures |Absorb(s, data).text| <= MAX_CAPTURE
    ensures 0 <= StreamBudget(Absorb(s, data)) <= StreamBudget(s)
    ensures Absorb(s, data) != s ==> StreamBudget(Absorb(s, data)) < StreamBudget(s)
  {
  }

  lemma {:induction false} ProgressSpendsBudget(rounds: seq<Round>)
    ensures |After(rounds).out.text| <= MAX_CAPTURE && |After(rounds).err.text| <= MAX_CAPTURE
    ensures ProgressRounds(rounds) + Budget(After(rounds)) <= 2 * (MAX_CAPTURE + 1) + 1
  {
    if rounds != [] {
      ProgressSpendsBudget(rounds[..|rounds| - 1]);
      var s, r := After(rounds[..|rounds| - 1]), rounds[|rounds| - 1];
      if r.Ready? {
        if r.out.Some? { AbsorbSpendsBudget(s.out, r.out.value); }
        if r.err.Some? { AbsorbSpendsBudget(s.err, r.err.value); }
      }
    }
  }

  /** However long the loop runs, only 2*(65536+1)+1 of its rounds can make progress. */
  lemma BoundedProgress(rounds: seq<Round>)
    ensures ProgressRounds(rounds) <= 2 * (65536 + 1) + 1
  {
    ProgressSpendsBudget(rounds);
    var s := After(rounds);
    assert Budget(s) >= 0;
  }

  // ----- Deadline -----

  const SECOND := 1_000_000_000
  const MILLISECOND := 1_000_000

  /** Conversion of a long to a 32-bit int. */
  function ToInt32(x: int): int {
    (x + 0x8000_0000) % 0x1_0000_0000 - 0x8000_0000
  }

  /** The timeout passed to poll when `elapsed` nanoseconds have gone by. */
  function PollTimeout(timeout: int, killed: bool, elapsed: nat): int {
    if timeout > 0 && !killed then
      var ms := (timeout - elapsed / SECOND) * 1000;
      if ms > 0 then ToInt32(ms) else 0
    else -1
  }

  /** A round with the elapsed times at which its poll began and ended. */
  datatype TimedRound = TimedRound(begin: nat, end: nat, round: Round)

  function Rounds(ts: seq<TimedRound>): seq<Round> {
    seq(|ts|, i requires 0 <= i < |ts| => ts[i].round)
  }

  /** Ideal poll timing: a poll reports a timeout exactly when its timeout has run out, and a
      negative timeout never runs out. */
  ghost predicate IdealTiming(timeout: int, ts: seq<TimedRound>) {
    forall i :: 0 <= i < |ts| && ts[i].round.TimedOut? ==>
                  var ms := PollTimeout(timeout, After(Rounds(ts[..i])).killed, ts[i].begin);
                  0 <= ms && ts[i].end == ts[i].begin + ms * MILLISECOND
  }

  /** Round `i` sends the kill. */
  ghost predicate KillsAt(ts: seq<TimedRound>, i: nat)
    requires i < |ts|
  {
    !After(Rounds(ts[..i])).killed && After(Rounds(ts[..i + 1])).killed
  }

  lemma KillRound(ts: seq<TimedRound>, i: nat)
    requires i < |ts|
    ensures Rounds(ts[..i + 1])[..i] == Rounds(ts[..i])
    ensures KillsAt(ts, i) ==> ts[i].round.TimedOut?
  {
  }

  lemma {:induction false} KilledStays(ts: seq<TimedRound>, i: nat, j: nat)
    requires i <= j <= |ts| && After(Rounds(ts[..i])).killed
    ensures After(Rounds(ts[..j])).killed
    decreases j
  {
    if i < j {
      KilledStays(ts, i, j - 1);
      KillRound(ts, j - 1);
    }
  }

  /** The kill is sent at most once. */
  lemma KilledAtMostOnce(ts: seq<TimedRound>, i: nat, j: nat)
    requires i < |ts| && j < |ts| && KillsAt(ts, i) && KillsAt(ts, j)
    ensures i == j
  {
    if i < j { KilledStays(ts, i + 1, j); }
    if j < i { KilledStays(ts, j + 1, i); }
  }

  /** The largest timeouts, in seconds, whose millisecond count fits a signed and an unsigned
      32-bit integer. */
  const LONGEST_TIMEOUT := 2147483
  const LONGEST_SAFE_TIMEOUT := 4294967

  lemma RemainingSeconds(elapsed: nat)
    ensures elapsed / SECOND * SECOND <= elapsed < (elapsed / SECOND + 1) * SECOND
  {
  }

  /** Up to 4294967 s a poll gets the whole remaining time or no deadline at all. */
  lemma PollTimeoutSafe(timeout: int, elapsed: nat)
    requires 0 < timeout <= LONGEST_SAFE_TIMEOUT
    ensures var ms := (timeout - elapsed / SECOND) * 1000;
            PollTimeout(timeout, false, elapsed) == if ms <= 0 then 0 else if ms < 0x8000_0000 then ms else ms - 0x1_0000_0000
  {
    var left := timeout - elapsed / SECOND;
    assert left <= LONGEST_SAFE_TIMEOUT;
  }

  /** For all timeouts up to 4294967 s and ideal timing the kill is never sent before the deadline,
      and a poll begun before the deadline sends it less than a second after. A non-positive
      timeout never kills. */
  lemma KillWithinDeadline(timeout: int, ts: seq<TimedRound>, i: nat)
    requires timeout <= LONGEST_SAFE_TIMEOUT && IdealTiming(timeout, ts) && i < |ts| && KillsAt(ts, i)
    ensures 0 < timeout && timeout * SECOND <= ts[i].end
    ensures ts[i].begin < timeout * SECOND ==> ts[i].end < (timeout + 1) * SECOND
  {
    KillRound(ts, i);
    PollTimeoutSafe(timeout, ts[i].begin);
    RemainingSeconds(ts[i].begin);
  }

  /** Round `i` sends the kill before the deadline. */
  ghost predicate KillsEarly(timeout: int, ts: seq<TimedRound>, i: nat)
    requires i < |ts|
  {
    KillsAt(ts, i) && ts[i].end < timeout * SECOND
  }

  /** The rounds follow one another, and none outlasts the timeout its poll was given. */
  ghost predicate Orderly(timeout: int, ts: seq<TimedRound>) {
    && (forall i :: 0 < i < |ts| ==> ts[i - 1].end <= ts[i].begin)
    && forall i :: 0 <= i < |ts| ==>
                     var ms := PollTimeout(timeout, After(Rounds(ts[..i])).killed, ts[i].begin);
                     ts[i].begin <= ts[i].end && (0 <= ms ==> ts[i].end <= ts[i].begin + ms * MILLISECOND)
  }

  lemma NothingYet()
    ensures Rounds([]) == [] && After([]) == START
  {
  }

  lemma OneTimeout(r: TimedRound)
    requires r.round == TimedOut
    ensures [r][..0] == [] && [r][..1] == [r] && KillsAt([r], 0)
  {
    NothingYet();
    assert Rounds([r])[..0] == [];
    assert After(Rounds([r])) == Step(START, TimedOut);
  }

  lemma InterruptedThenTimeout(q: TimedRound, r: TimedRound)
    requires q.round == Interrupted && r.round == TimedOut
    ensures var ts := [q, r];
            ts[..0] == [] && ts[..1] == [q] && !After(Rounds([q])).killed && KillsAt(ts, 1)
  {
    var ts := [q, r];
    NothingYet();
    assert ts[..2] == ts;
    assert Rounds([q])[..0] == [] && After(Rounds([q])) == Step(START, Interrupted);
    assert Rounds(ts)[..1] == Rounds([q]) && After(Rounds(ts)) == Step(After(Rounds([q])), TimedOut);
  }

  lemma WrappedEarly(timeout: int)
    requires LONGEST_SAFE_TIMEOUT < timeout
    ensures PollTimeout(timeout, false, 0) < timeout * 1000
    ensures var e := (timeout - 4294968) * SECOND; e >= 0 && PollTimeout(timeout, false, e) == 704
  {
    var e := (timeout - 4294968) * SECOND;
    assert e / SECOND == timeout - 4294968;
    assert ToInt32(4294968 * 1000) == 704;
    assert ToInt32(timeout * 1000) < 0x8000_0000;
  }

  /** Every longer timeout has a run that kills early: its first poll already wraps to a shorter
      wait, or, if that one waits without a deadline and is interrupted, a later one does. */
  lemma EarlyKill(timeout: int) returns (ts: seq<TimedRound>, i: nat)
    requires LONGEST_SAFE_TIMEOUT < timeout
    ensures IdealTiming(timeout, ts) && Orderly(timeout, ts) && i < |ts| && KillsEarly(timeout, ts, i)
  {
    WrappedEarly(timeout);
    NothingYet();
    var ms := PollTimeout(timeout, false, 0);
    if 0 <= ms {
      var r := TimedRound(0, ms * MILLISECOND, TimedOut);
      ts, i := [r], 0;
      OneTimeout(r);
    } else {
      var e := (timeout - 4294968) * SECOND;
      var q, r := TimedRound(0, e, Interrupted), TimedRound(e, e + 704 * MILLISECOND, TimedOut);
      ts, i := [q, r], 1;
      InterruptedThenTimeout(q, r);
    }
  }

  /** No ideally timed run kills early if and only if the timeout is at most 4294967 s. */
  lemma NeverEarlyIff(timeout: int)
    ensures timeout <= LONGEST_SAFE_TIMEOUT <==>
            forall ts, i: nat :: i < |ts| && IdealTiming(timeout, ts) ==> !KillsEarly(timeout, ts, i)
  {
    if timeout <= LONGEST_SAFE_TIMEOUT {
      forall ts, i: nat | i < |ts| && IdealTiming(timeout, ts) ensures !KillsEarly(timeout, ts, i) {
        if KillsAt(ts, i) { KillWithinDeadline(timeout, ts, i); }
      }
    } else {
      var ts, i := EarlyKill(timeout);
    }
  }

  /** Every poll before the kill has a deadline if and only if the timeout is at most 2147483 s;
      above that some poll waits without one, as the first does from 2147484 to 4294967 s. */
  lemma DeadlineKeptIff(timeout: int)
    requires 0 < timeout
    ensures timeout <= LONGEST_TIMEOUT <==> forall elapsed: nat :: 0 <= PollTimeout(timeout, false, elapsed)
    ensures LONGEST_TIMEOUT < timeout <= LONGEST_SAFE_TIMEOUT ==> PollTimeout(timeout, false, 0) < 0
  {
    if timeout <= LONGEST_SAFE_TIMEOUT {
      forall elapsed: nat ensures timeout <= LONGEST_TIMEOUT ==> 0 <= PollTimeout(timeout, false, elapsed) {
        PollTimeoutSafe(timeout, elapsed);
      }
    }
    if LONGEST_TIMEOUT < timeout {
      var e: nat := (timeout - 2147484) * SECOND;
      assert e / SECOND == timeout - 2147484;
      assert ToInt32(2147484 * 1000) < 0;
      assert PollTimeout(timeout, false, e) < 0;
    }
  }

  // ----- Status -----

  datatype RunStatus = Success | Failed | Timeout | SpawnError
  datatype WaitStatus = Exited(code: int) | Signaled(signal: int) | Other
  datatype Outcome = Outcome(status: RunStatus, exitCode: int)

  const SIGKILL := 9

  function Classify(timedOut: bool, w: WaitStatus): Outcome {
    if timedOut then Outcome(Timeout, -SIGKILL)
    else
      match w
      case Exited(code) => Outcome(if code == 0 then Success else Failed, code)
      case Signaled(sig) => Outcome(Failed, -sig)
      case Other => Outcome(Failed, -1)
  }

  /** What is reported, from how the command ended and whether the deadline was hit. */
  lemma OutcomeExact(timedOut: bool, w: WaitStatus)
    ensures var o := Classify(timedOut, w);
            && (timedOut ==> o == Outcome(Timeout, -9))
            && (!timedOut && w.Exited? ==> o.exitCode == w.code && (o.status == Success <==> w.code == 0) &&
                                           (o.status == Failed <==> w.code != 0))
            && (!timedOut && w.Signaled? ==> o == Outcome(Failed, -w.signal))
            && (!timedOut && w.Other? ==> o == Outcome(Failed, -1))
            && o.status != SpawnError
  {
  }

  /** In every loop state `timedOut` equals `killed`, so the run is reported as a timeout exactly
      when its group was killed, and as a success only if it exited 0 by itself. */
  lemma {:induction false} TimeoutIffKilled(rounds: seq<Round>, w: WaitStatus)
    ensures After(rounds).timedOut == After(rounds).killed
    ensures Classify(After(rounds).timedOut, w).status == Timeout <==> After(rounds).killed
    ensures Classify(After(rounds).timedOut, w).status == Success <==> !After(rounds).killed && w == Exited(0)
  {
    if rounds != [] {
      TimeoutIffKilled(rounds[..|rounds| - 1], w);
    }
  }

  // ----- When is the kill sent at all? -----

  /** Some poll times out while a stream is still open. */
  ghost predicate TimesOutOpen(rounds: seq<Round>) {
    exists i :: 0 <= i < |rounds| && rounds[i].TimedOut? && Looping(After(rounds[..i]))
  }

  /** The group is killed, and the run reported as a timeout, if and only if a poll times out while
      a stream is still open: nothing outside the drain loop watches the deadline. */
  lemma {:induction false} KilledIff(rounds: seq<Round>, w: WaitStatus)
    ensures After(rounds).killed <==> TimesOutOpen(rounds)
    ensures Classify(After(rounds).timedOut, w).status == Timeout <==> TimesOutOpen(rounds)
  {
    TimeoutIffKilled(rounds, w);
    if rounds != [] {
      var n := |rounds| - 1;
      var front := rounds[..n];
      KilledIff(front, w);
      assert TimesOutOpen(rounds) <==> TimesOutOpen(front) || (rounds[n].TimedOut? && Looping(After(front))) by {
        assert forall i :: 0 <= i < n ==> front[..i] == rounds[..i] && front[i] == rounds[i];
      }
    }
  }

  /** Once both streams have ended or overflowed without a kill there never is one, however long the
      command runs on: it is reported as it ends by itself. */
  lemma ClosedNeverKilled(rounds: seq<Round>, more: seq<Round>, w: WaitStatus)
    requires !Looping(After(rounds)) && !After(rounds).killed
    ensures !After(rounds + more).killed
    ensures Classify(After(rounds + more).timedOut, w) == Classify(false, w)
  {
    assert (rounds + more)[..|rounds|] == rounds;
    FinishedStays(rounds + more, |rounds|);
    TimeoutIffKilled(rounds, w);
  }

  /** A command that closes both streams, or sends them elsewhere, gets there in one round: whatever
      its timeout and however long it takes, it is reported as a success when it exits 0. */
  lemma SilentCommandOutlivesTimeout(more: seq<Round>)
    ensures var rounds := [Ready(Some([]), Some([]))] + more;
            !TimesOutOpen(rounds) && Classify(After(rounds).timedOut, Exited(0)).status == Success
  {
    var first := [Ready(Some([]), Some([]))];
    assert first[..0] == [];
    assert After(first) == Step(START, first[0]);
    ClosedNeverKilled(first, more, Exited(0));
    KilledIff(first + more, Exited(0));
  }

  /** What holds the other way: while a stream is open and nothing was killed, no poll of an orderly
      run that begins before the deadline outlasts it by a second, and later ones do not wait at all. */
  lemma OpenPollsEnd(timeout: int, ts: seq<TimedRound>, i: nat)
    requires 0 < timeout <= LONGEST_TIMEOUT && Orderly(timeout, ts) && i < |ts| && !After(Rounds(ts[..i])).killed
    ensures ts[i].begin < timeout * SECOND ==> ts[i].end < (timeout + 1) * SECOND
    ensures timeout * SECOND <= ts[i].begin ==> ts[i].end == ts[i].begin
  {
    PollTimeoutSafe(timeout, ts[i].begin);
    RemainingSeconds(ts[i].begin);
  }
}

# AgentPulse: a Dafny model of its five state machines

AgentPulse is a macOS monitor: a daemon schedules and supervises local jobs, samples system
health, raises alerts and answers a menu-bar app over a Unix socket. This project models the
parts whose correctness is about whole runs and proves what they promise.

| module | what it models |
|---|---|
| `Cron`, `CronParser`, `CronTexts`, `CronExpressions` | cron texts and exactly which of them are accepted, the day rule, the forward and backward minute searches, missed-run detection |
| `Calendar`, `Horizon` | the Gregorian calendar and whether the four-year search horizon is long enough |
| `SchedulerModel`, `SchedulerObject` | the scheduler's fields, the effect of each critical section, and the object whose methods have those effects |
| `SchedulerRuns` | all interleavings of the loop thread, workers, the API thread and two missed-run scanners, one critical section per step |
| `SchedulerSafety`, `SchedulerDue`, `SchedulerScans`, `SchedulerStarts`, `SchedulerRequests`, `SchedulerStore` | what every such run keeps, and when one ends the process |
| `SchedulerRecovery` | what recovering a missed run after a wake leads to |
| `SchedulerRefinement` | any client of the object as a run of the model |
| `Worker` | one job execution: attempts, backoff, failure alert, shutdown |
| `Alerts`, `AlertHistory` | the alert engine and its statement over the full sample history |
| `AlertDelivery` | the daemon's alert ring and the app's notification dedupe |
| `ProcessRunner` | the drain loop, the capture cap, the deadline and the final status |
| `SocketServer` | request framing and the reply of one connection |

`dafny verify dfyconfig.toml` checks the whole project.

## How the pieces fit

* Code that works step by step is a method or a class; its `ensures` ties the result or the new
  state to a function, and the theorems are about that function. `NextAfter`, `PrevBefore` and
  `FieldValue` are defined by what they mean (least hit, greatest hit, union of spans), not by a loop.
* `SchedulerRuns.Do` is one atomic step of one thread. It is built from the same effect functions
  (`AfterTick`, `AfterLaunch`, `AfterAdd`, ...) that the methods of `SchedulerObject.Scheduler` are
  proved to have; `SchedulerRefinement.Drive` shows that any sequence of calls on the object is such a run. A run is
  any sequence of steps; a step that its thread cannot take at that moment does nothing. This admits
  more interleavings than the code (a scanner may start at any time), so the theorems cover the code's.
* A worker is live while its `done` flag is false. An entry of `running_` is there until the loop reaps it,
  finished or not, and owns an unjoined thread all that time. Storing another entry over it destroys that
  thread, and destroying a joinable `std::thread` calls `std::terminate`; a launch onto an occupied entry is
  therefore an abort step, after which nothing happens.
* `past` in the scheduler's system, and `added`, `taken`, `applied` and `polls` in the delivery system, record
  history only.

## Where the code and its promise differ

* **At most one concurrent run per job** (daemon/src/jobs/scheduler.hpp:22-24) holds over every
  interleaving (`SchedulerSafety.AtMostOneWorker`), but at a price the header does not mention: a launch
  that would break it, or that merely finds the finished entry of the last run, ends the daemon.
  `TickAbortsIff` gives the exact condition, checkable before the tick: an idle known job is requested
  twice, or requested and due (a tick looks at `running_` but not at the batch it is building), or a job
  that is requested or due has finished since the last reap. `TwoRequestsAbort`, `RecoveryAborts` and
  `LateFinishAborts` show each kind over all runs, `TwoRequestsHappen`, `RecoveryHappens` and `CalmAbort` that
  it is reached.
* **Wake recovery** (daemon/src/jobs/scheduler.cpp:202-247) meets that condition by itself. Queueing the
  recovery of an idle job is fatal at a tick up to the scan if and only if the job's next run was computed
  before the missed occurrence, or the job was requested already, or its last entry is not reaped
  (`SchedulerRecovery.RecoveryFatalIff`). The first is what a sleep leads to: the job is requested and due at
  the same tick, and the daemon ends whatever the threads do in between (`RecoveryAborts`). The scan at
  start-up survives, unless a due minute falls between computing the next runs and the scan.
* **"Smallest minute strictly after" and "largest minute at or before"** (daemon/src/schedule/cron.hpp:24-31)
  hold on every clock for all accepted expressions if and only if the time is not negative or is a whole
  minute; `%` truncates, and "* * * * *" shows the failure at every other time
  (`CronParser.NextPromiseIff`, `PrevPromiseIff`, `PromisesBroken`).
* **"Returns false on any malformed token"** (daemon/src/schedule/cron.cpp:15-17) is not so:
  `CronTexts.TokenExact` says exactly which tokens are accepted. A number may have a plus sign in front and any text
  behind it ("+5", "1x", "1-5-7", "*/2x"), and a field one trailing comma ("5,"). Every such token means what
  some documented one means (`SameAsDocumented`).
* **The search horizon** of four years is long enough for every schedule, in any century, unless 29
  February is the only day its fields allow; then a run is found if and only if a due minute of a 29
  February lies in the window (`Horizon.HorizonExact`). That is always so inside 1970 to 2099
  (`HorizonSuffices`) and fails in the eight-year gaps around the century years that are not leap years,
  first from 1 March 2096 on: there is no run if and only if the window lies between the due minutes of two
  leap days eight years apart (`LeapDayLostIff`, `LeapDayLostAfter2096`; "0 0 29 2 *" is such a schedule).
* **"If the command runs longer, its process group is killed and the status is Timeout"**
  (daemon/src/jobs/process_runner.hpp:30-33): only the drain loop watches the deadline, and the wait after it
  has none. The group is killed, and the status is Timeout, if and only if a poll times out while a stream is
  still open (`ProcessRunner.KilledIff`). A command whose two streams have ended or overflowed before that is
  never killed, whatever its timeout, and is reported as it ends by itself (`ClosedNeverKilled`); one that
  sends its output elsewhere is there after one round and can succeed hours late
  (`SilentCommandOutlivesTimeout`).
* **Timeouts**, moreover, do not all fit the millisecond `int` passed to `poll`. Up to 2147483 s every poll has a
  deadline, and only then (`ProcessRunner.DeadlineKeptIff`); from 2147484 s a poll may wait without one,
  even while the streams are open. Up to 4294967 s the kill is never early, and only then
  (`NeverEarlyIff`); from 4294968 s the count wraps past zero and the group may be killed early, at 4294968 s
  after 0.7 s (`EarlyKill`).
* **Notification of every new alert** is per (time, rule, kind): of several alerts that agree in all three
  only the newest one on the first response that shows any of them can be posted
  (`AlertDelivery.DeliveryExact`; `TwinsLoseOne` is an example). With distinct triples it is what one expects
  (`DistinctDelivery`, `InOrderDistinct`).
* **Retries below zero** are rejected in the configuration (daemon/src/config/config.cpp:86-91) but not in
  jobs added through the API (daemon/src/ipc/api.cpp:268); such a job is never attempted and raises its
  failure alert straight away (`Worker.AttemptedIff`).

## Model

| member | source | states |
|---|---|---|
| `Cron.FindNext` | daemon/src/schedule/cron.cpp:125-140 | the forward loop returns the least due whole minute of its window of 2108160 minutes, or nothing when the window holds none |
| `Cron.FindPrev` | daemon/src/schedule/cron.cpp:142-155 | the backward loop returns the greatest due whole minute of its window, or nothing |
| `Cron.NextExact` | daemon/src/schedule/cron.hpp:24-26 | for times that are not negative or are whole minutes the result is the smallest matching minute strictly after the argument, or the window holds none |
| `Cron.PrevExact` | daemon/src/schedule/cron.hpp:28-31 | for the same times the result is the largest matching minute at or before the argument, or the window holds none |
| `Cron.PrevOfNext` | daemon/src/schedule/cron.cpp:125-155 | a minute found forward is found again backward from itself |
| `Cron.NextOfPrev` | daemon/src/schedule/cron.cpp:125-155 | going back to the latest due minute and forward again gives the same minute as going forward directly |
| `Cron.DetectMissedRun` | daemon/src/jobs/scheduler.cpp:47-56 | the latest due minute, unless the last run started at or after it |
| `Cron.MissedRunExact` | daemon/src/jobs/scheduler.cpp:47-56 | a missed run is reported if and only if some due minute of the horizon lies in (last run, now], and it is the latest such minute |
| `Basics.Find` | daemon/src/schedule/cron.cpp:31-47 | index of the first occurrence of an element, none exactly when it does not occur |
| `CronParser.ParseToken` | daemon/src/schedule/cron.cpp:24-64 | an accepted token is a span inside the field's range with a positive step (which span: `CronTexts.TokenExact`) |
| `CronParser.InsertSpan` | daemon/src/schedule/cron.cpp:65-67 | the stepping loop inserts exactly the values lo <= v <= hi with (v - lo) mod step = 0 |
| `CronParser.ParseField` | daemon/src/schedule/cron.cpp:18-70 | the field parser accepts exactly the fields that denote a set and returns that set; only a bare star is a wildcard |
| `CronParser.FieldExact` | daemon/src/schedule/cron.cpp:18-70 | a field is accepted if and only if it has a token and all tokens are well formed; it then denotes the union of their spans, non-empty and in range |
| `CronParser.FieldRoundTrip` | daemon/src/schedule/cron.cpp:18-70 | every non-empty subset of a range, printed as a comma list, parses back to itself |
| `CronParser.StarIsFullRange` | daemon/src/schedule/cron.cpp:45-46 | a star denotes the whole range |
| `CronParser.ParseFields` | daemon/src/schedule/cron.cpp:93-101 | all five fields in their own ranges, and the wildcard flags of the two day fields |
| `CronParser.Parse` | daemon/src/schedule/cron.cpp:74-107 | exactly the texts of five well-formed words are accepted, with 7 also counted as Sunday |
| `CronParser.LadderIsDayRule` | daemon/src/schedule/cron.cpp:109-123 | the four-way ladder is "or" when both day fields are restricted and "and" otherwise |
| `CronParser.DayRule` | daemon/src/schedule/cron.cpp:93-123 | for every accepted text a time matches if and only if minute, hour and month match and the cron day rule holds of the sets the text spells out |
| `CronParser.ExpressionRoundTrip` | daemon/src/schedule/cron.cpp:74-107 | any five printable sets, printed as an expression, parse back to that schedule |
| `CronParser.ParsedIsWellFormed` | daemon/src/schedule/cron.cpp:74-107 | a parsed schedule has non-empty in-range fields, and a wildcard day field holds its full range |
| `CronParser.EveryMinuteParses` | daemon/src/schedule/cron.cpp:74-107 | "* * * * *" denotes the full ranges with both day fields unrestricted |
| `CronParser.NextPromiseIff` | daemon/src/schedule/cron.cpp:125-140 | on every clock with fields in range, `next_after` keeps the header's promise for all accepted expressions if and only if the time is not negative or is a whole minute |
| `CronParser.PrevPromiseIff` | daemon/src/schedule/cron.cpp:142-155 | the same for `prev_before` |
| `CronParser.PromisesBroken` | daemon/src/schedule/cron.cpp:125-155 | at every other time, on every such clock, "* * * * *" shows both searches breaking it |
| `CronTexts.StoiExact` | daemon/src/schedule/cron.cpp:33-59 | a number text is accepted if and only if it is white space, an optional sign, digits and any rest, within 32 bits, and it then has that value |
| `CronTexts.TokenExact` | daemon/src/schedule/cron.cpp:24-64 | a token is accepted with a span if and only if it spells that span: a star, a number or two numbers with a dash, optionally a slash and a positive step, in range |
| `CronTexts.DocumentedTokens` | daemon/src/schedule/cron.cpp:15-17 | a, a-b, a-b/n and a stepped star in decimal denote Span(a,a,1), Span(a,b,1), Span(a,b,n) and Span(lo,hi,n) |
| `CronTexts.SameAsDocumented` | daemon/src/schedule/cron.cpp:15-17 | every accepted token, however spelled, means what a documented one means |
| `CronTexts.SloppyNumber` | daemon/src/schedule/cron.cpp:54-60 | a number with a plus sign or with any trailing text without dash or slash is accepted as that number |
| `CronTexts.TrailingCommaAccepted` | daemon/src/schedule/cron.cpp:22-27 | one trailing comma changes nothing |
| `CronTexts.TokensOfJoin` | daemon/src/schedule/cron.cpp:22-27 | a field is cut exactly at its commas, empty pieces included, except that nothing follows a last comma |
| `CronTexts.EmptyPieceRejected` | daemon/src/schedule/cron.cpp:25-27 | an empty piece anywhere but at the end makes a field malformed |
| `CronExpressions.WordsExact` | daemon/src/schedule/cron.cpp:75-80 | texts free of the six white-space characters, with any runs of those between and around them, are exactly the words |
| `CronExpressions.WrongCount` | daemon/src/schedule/cron.cpp:81-83 | any number of words other than five is rejected |
| `CronExpressions.DocumentedField` | daemon/src/schedule/cron.cpp:15-70 | a comma list of stars, numbers, ranges and stepped ones in range is accepted and denotes exactly the values written out |
| `CronExpressions.DocumentedExpression` | daemon/src/schedule/cron.cpp:74-107 | five such fields with any white space are accepted, each field denotes exactly what is written in its own range, 7 also counts as Sunday, and only a bare star is a wildcard |
| `Calendar.DayNumberInjective` | daemon/src/schedule/cron.cpp:133-134 | different calendar dates have different day numbers |
| `Calendar.DateExists` | daemon/src/schedule/cron.cpp:133-134 | every day number from 1970-01-01 on is a calendar date |
| `Calendar.KnownDates` | daemon/src/schedule/cron.cpp:133-134 | 1 January 1970 is day 0 and a Thursday, 1 January 2000 is day 10957 and a Saturday |
| `Calendar.MonthDayComesRound` | daemon/src/schedule/cron.cpp:129-131 | until 2099 every day of every month, 29 February included, comes round within any 1461 days |
| `Calendar.MonthWeekdayComesRound` | daemon/src/schedule/cron.cpp:129-131 | every weekday of every month comes round within any 732 days |
| `Calendar.OrdinaryDayComesRound` | daemon/src/schedule/cron.cpp:129-131 | every day of a month but 29 February comes round within any 732 days, in any century |
| `Calendar.FixedOffsetClockWorks` | daemon/src/schedule/cron.cpp:133-134 | for every whole-minute offset there is a local clock of the kind the horizon results assume |
| `Horizon.HorizonExact` | daemon/src/schedule/cron.cpp:125-140 | with a fixed-offset clock, from every start since 1970 without an upper bound, a run is found if and only if some real date matches and, where 29 February is the only day allowed, a due minute of one lies in the window |
| `Horizon.ParsedHorizonExact` | daemon/src/schedule/cron.cpp:74-140 | the same for every accepted expression |
| `Horizon.HorizonSuffices` | daemon/src/schedule/cron.cpp:125-140 | for every window inside 1970 to 2099 a run is found if and only if some real date matches, 29 February included |
| `Horizon.NoDateNoRun` | daemon/src/schedule/cron.cpp:125-140 | a schedule that matches no real date never gets a run, however late the start |
| `Horizon.SomeDateMatchesIff` | daemon/src/schedule/cron.cpp:109-131 | whether some real date matches is decided by the fields alone |
| `Horizon.LeapDayLostIff` | daemon/src/schedule/cron.cpp:125-140 | a schedule that allows only 29 February finds nothing if and only if the start lies after the last due minute of a 29 February and the window ends by the first due minute of the next one, eight years later |
| `Horizon.LeapDayLost` | daemon/src/schedule/cron.cpp:129-131 | so from every start between two such leap days whose window ends before the second |
| `Horizon.LeapDayExpression` | daemon/src/schedule/cron.cpp:74-107 | "0 0 29 2 *" is such a schedule |
| `Horizon.LeapDayLostAfter2096` | daemon/src/schedule/cron.cpp:129-131 | the first gap: every start from 1 March 2096 to 25 February 2100 |
| `SchedulerModel.JobReloadsIff` | daemon/src/jobs/scheduler.cpp:18-44 | a job's definition reloads to the same job if and only if it is UI-managed and its schedule is what its text denotes |
| `SchedulerModel.DefinedJob` | daemon/src/jobs/scheduler.cpp:19-32 | each field of a job made from a definition, with the policy its text names |
| `SchedulerModel.PersistedJob` | daemon/src/jobs/scheduler.cpp:35-44 | each field of a definition made from a job |
| `SchedulerModel.FindJob` | daemon/src/jobs/scheduler.cpp:87-92 | a job with that name, none exactly when no job has it |
| `SchedulerModel.Erased` | daemon/src/jobs/scheduler.cpp:183-185 | keeps exactly the jobs with another name |
| `SchedulerModel.Candidates` | daemon/src/jobs/scheduler.cpp:205-216 | exactly the jobs with a schedule and a missed-run policy |
| `SchedulerObject.BuildJob` | daemon/src/jobs/scheduler.cpp:19-32 | the runtime job of a definition, with the schedule its text denotes |
| `SchedulerObject.MergeDefs` | daemon/src/jobs/scheduler.cpp:64-69 | definitions behind the configured jobs, each only if its name is free |
| `SchedulerObject.ArmAll` | daemon/src/jobs/scheduler.cpp:71-77 | every scheduled job with a next due minute gets it as its next run |
| `SchedulerObject.EraseByName` | daemon/src/jobs/scheduler.cpp:183-185 | the erase loop keeps exactly the other jobs, in order |
| `SchedulerObject.Scheduler.constructor` | daemon/src/jobs/scheduler.cpp:58-83 | merged jobs, first runs, last recorded runs of known jobs, empty queue and tables |
| `SchedulerObject.Scheduler.Enqueue` | daemon/src/jobs/scheduler.cpp:197-200 | appends one numbered request and changes nothing else |
| `SchedulerObject.Scheduler.RequestRun` | daemon/src/jobs/scheduler.cpp:121-128 | accepted if and only if the job is known; then one manual request is queued, else nothing changes |
| `SchedulerObject.Scheduler.AddJob` | daemon/src/jobs/scheduler.cpp:130-162 | succeeds if and only if name and command are given, the name is free and the database accepts; otherwise nothing changes |
| `SchedulerObject.Scheduler.RemoveJob` | daemon/src/jobs/scheduler.cpp:164-193 | succeeds if and only if the job is known, UI-managed and the database accepts; otherwise nothing changes |
| `SchedulerObject.Scheduler.Forget` | daemon/src/jobs/scheduler.cpp:181-189 | drops the job, its next run, last run and handled mark, and nothing of `running_` or the queue |
| `SchedulerObject.Scheduler.TakeQueue` | daemon/src/jobs/scheduler.cpp:277-288 | launches idle known requests, keeps those of running jobs in order, drops the unknown |
| `SchedulerObject.Scheduler.TakeDue` | daemon/src/jobs/scheduler.cpp:290-305 | advances every due schedule and launches those not running |
| `SchedulerObject.Scheduler.TakeIfDue` | daemon/src/jobs/scheduler.cpp:292-301 | due if and only if the stored next run has come; then it is recomputed, or forgotten when there is none |
| `SchedulerObject.Scheduler.Tick` | daemon/src/jobs/scheduler.cpp:267-306 | requests first, then due schedules, with the new queue and next runs |
| `SchedulerObject.Scheduler.StartTask` | daemon/src/jobs/scheduler.cpp:317-331 | a new unfinished worker takes the job's free entry of `running_`; an occupied entry ends the process |
| `SchedulerObject.Scheduler.LaunchBatch` | daemon/src/jobs/scheduler.cpp:308-310 | the batch is launched one by one up to the first occupied entry |
| `SchedulerObject.Scheduler.Turn` | daemon/src/jobs/scheduler.cpp:256-311 | one turn of the loop: reap, scan after a wake, tick, launches |
| `SchedulerObject.Scheduler.ReapAndScan` | daemon/src/jobs/scheduler.cpp:257-265 | the turn up to its tick |
| `SchedulerObject.Scheduler.FinishTask` | daemon/src/jobs/scheduler.cpp:403-404 | a worker's completion flag, and nothing else |
| `SchedulerObject.Scheduler.RecordRun` | daemon/src/jobs/scheduler.cpp:359-362 | the start a worker records, also when its job has been removed |
| `SchedulerObject.Scheduler.ReapFinished` | daemon/src/jobs/scheduler.cpp:407-419 | an entry stays in `running_` if and only if its worker has not set its completion flag |
| `SchedulerObject.Scheduler.ScanMissed` | daemon/src/jobs/scheduler.cpp:202-247 | an undisturbed scan claims and queues the missed occurrence of every candidate not handled yet |
| `SchedulerObject.Scheduler.ScanOne` | daemon/src/jobs/scheduler.cpp:218-246 | one candidate: read, detect, claim, enqueue |
| `SchedulerRefinement.Drive` | daemon/src/jobs/scheduler.cpp:58-423 | whatever calls a client makes on the object, until the process ends, what it sees is a run of the model, so no job has two live workers |
| `SchedulerRefinement.Perform` | daemon/src/jobs/scheduler.cpp:121-331 | each call has the effect its method states, on jobs, definitions and the process |
| `SchedulerRefinement.CallIsRun` | daemon/src/jobs/scheduler.cpp:121-331 | each such effect is that of a run of critical sections |
| `SchedulerRefinement.TurnIsRun` | daemon/src/jobs/scheduler.cpp:256-311 | one turn of the loop is a run of reap, scan, tick and launch steps, abort included |
| `SchedulerRefinement.TurnAbortsIff` | daemon/src/jobs/scheduler.cpp:256-311 | from every reachable state at rest a turn of the loop ends the process if and only if the queue, after the scan if any, clashes; what has finished before the turn does not matter |
| `SchedulerRefinement.AddIsThreeSteps` | daemon/src/jobs/scheduler.cpp:130-162 | check, store and commit steps together have the effect stated for `AddJob`, refusals included |
| `SchedulerRefinement.RemoveIsThreeSteps` | daemon/src/jobs/scheduler.cpp:164-193 | the same for `RemoveJob` |
| `SchedulerRefinement.ScanIsSteps` | daemon/src/jobs/scheduler.cpp:202-247 | an undisturbed scan is a run of the interleaved read, claim and enqueue steps |
| `SchedulerSafety.BatchDistinctIff` | daemon/src/jobs/scheduler.cpp:277-305 | a tick's batch has no repeated name if and only if no idle known job is requested twice or both requested and due |
| `SchedulerSafety.TickLaunchesExact` | daemon/src/jobs/scheduler.cpp:267-306 | a tick launches a job if and only if it is known, has no live worker, and is requested or due |
| `SchedulerSafety.StepSafe` | daemon/src/jobs/scheduler.cpp:249-331 | every step of every thread keeps "one live worker per name, held in `running_`" |
| `SchedulerSafety.AtMostOneWorker` | daemon/src/jobs/scheduler.hpp:22-24 | over every interleaving each name has at most one live worker and `running_` holds it |
| `SchedulerSafety.RunningIffLive` | daemon/src/jobs/scheduler.cpp:272-275 | in every reachable state a job is taken for running if and only if a worker of it is live |
| `SchedulerSafety.TickAbortsIff` | daemon/src/jobs/scheduler.cpp:267-331 | from every reachable state and for every interleaving between a tick and its launches, the launches end the process if and only if the tick meets a clash or launches a job whose finished entry is not reaped |
| `SchedulerSafety.LaunchPhase` | daemon/src/jobs/scheduler.cpp:308-331 | between two ticks, whatever else happens, either the launches so far each have their new worker in batch order or the process has ended |
| `SchedulerSafety.ReapedFatalIff` | daemon/src/jobs/scheduler.cpp:257-306 | from every reachable state, a reap leaves exactly the entries of live workers, and right after it a tick is fatal if and only if it clashes |
| `SchedulerSafety.FinishedRunsAgain` | daemon/src/jobs/scheduler.cpp:257-331 | a job without a live worker that is requested or due is started again by reap, tick and launches, without an abort and with a new worker |
| `SchedulerSafety.CalmRunLives` | daemon/src/jobs/scheduler.cpp:249-331 | a run none of whose ticks meets that condition never ends the process |
| `SchedulerSafety.LateFinishAborts` | daemon/src/jobs/scheduler.cpp:257-325 | a worker that finishes between reap and tick while its job is requested or due ends the process |
| `SchedulerSafety.CalmAbort` | daemon/src/jobs/scheduler.cpp:257-325 | a run without any clash that ends so |
| `SchedulerSafety.FatalIffSome` | daemon/src/jobs/scheduler.cpp:267-331 | the condition holds exactly when it holds because of one job: requested twice, requested and due, or wanted with an entry not reaped |
| `SchedulerSafety.TwoRequestsAbort` | daemon/src/jobs/scheduler.cpp:121-128 | from every reachable state, two manual requests for an idle job before a tick end the process |
| `SchedulerSafety.TwoRequestsHappen` | daemon/src/jobs/scheduler.cpp:58-83 | the state after start-up is such a state |
| `SchedulerDue.AdvancedOwn` | daemon/src/jobs/scheduler.cpp:290-305 | a pass over uniquely named jobs recomputes a job's next run exactly when it is due and leaves it otherwise |
| `SchedulerDue.TickEntry` | daemon/src/jobs/scheduler.cpp:290-305 | a tick moves a job's next run and the time it was computed at together, exactly when the job is due |
| `SchedulerDue.ArmingExact` | daemon/src/jobs/scheduler.cpp:71-158 | in every reachable state, after start-up, additions and ticks alike, every registered scheduled job has a time its next run was computed at, and its stored next run is the first due minute of the window from there, absent if and only if the window holds none |
| `SchedulerDue.DueIff` | daemon/src/jobs/scheduler.cpp:290-305 | in every reachable state a tick finds a registered scheduled job due if and only if a due minute of that window lies in (time computed, now] |
| `SchedulerDue.ReachableTimed` | daemon/src/jobs/scheduler.cpp:71-77 | in every reachable state each stored next run is the first due minute after the time it was computed at |
| `SchedulerDue.DueExact` | daemon/src/jobs/scheduler.cpp:290-305 | where a next run is stored, the end of the window does not matter |
| `SchedulerDue.StepMovesForward` | daemon/src/jobs/scheduler.cpp:290-305 | a due tick moves the stored next run strictly forward past now, even if the clock stepped back, and no other step moves it |
| `SchedulerDue.EveryMinuteInOneWindow` | daemon/src/jobs/scheduler.cpp:290-305 | while a job stays registered, every minute between its first and last computation lies in the window of exactly one due tick |
| `SchedulerScans.MissedRunsRecoveredOnce` | daemon/src/jobs/scheduler.cpp:202-247 | with two scanners interleaving, claimed occurrences of a job strictly increase between removals, each claim queues exactly one request, and missed requests have no other origin |
| `SchedulerScans.StepKeepsScans` | daemon/src/jobs/scheduler.cpp:218-246 | every step of every thread keeps that invariant |
| `SchedulerScans.FinishedScanCovers` | daemon/src/jobs/scheduler.cpp:202-247 | after a scan, each candidate not removed meanwhile has its latest occurrence covered by the start read for it or by its handled mark |
| `SchedulerStarts.LastStartsKept` | daemon/src/jobs/scheduler.cpp:78-80 | over every run the last start known of a job is the one recorded last, by the database at start-up or by a worker since, and none after a removal |
| `SchedulerStarts.RecordIsLast` | daemon/src/jobs/scheduler.cpp:359-362 | a start recorded by a live worker is from then on the last of its job, and no other job's |
| `SchedulerStarts.ScanReadExact` | daemon/src/jobs/scheduler.cpp:218-227 | in every reachable state a scan reads the start recorded last, and goes on to claim an occurrence if and only if it is the latest due minute up to the scan and later than that start |
| `SchedulerStarts.NothingExecutedIsClaimed` | daemon/src/jobs/scheduler.cpp:218-246 | over every run, whatever a scan claims or queues is later than the start on record for the job when it read |
| `SchedulerRecovery.RequestedAndDueClashes` | daemon/src/jobs/scheduler.cpp:277-305 | in every reachable state an idle requested job with a due minute since its next run was computed makes the tick clash |
| `SchedulerRecovery.RecoveredDueIff` | daemon/src/jobs/scheduler.cpp:229-305 | at a tick between a missed occurrence and the scan that claimed it, the job is due if and only if its next run was computed before the occurrence |
| `SchedulerRecovery.RecoveryFatalIff` | daemon/src/jobs/scheduler.cpp:229-310 | queueing the recovery makes such a tick fatal because of this job if and only if that holds, or it was requested already, or its last entry is not reaped |
| `SchedulerRecovery.RecoveryAborts` | daemon/src/jobs/scheduler.cpp:229-310 | over every run, once a recovery of an idle job armed before the occurrence is queued, then whatever happens before the next tick while the job stays registered, that tick, at any time from the occurrence on, clashes and its launches end the process |
| `SchedulerRecovery.RecoveryHappens` | daemon/src/jobs/scheduler.cpp:202-246 | on every clock such a recovery is reached with "* * * * *": start at 0, wake at 120 |
| `SchedulerRequests.QueueSplits` | daemon/src/jobs/scheduler.cpp:277-288 | the queue is exactly the deferred, launched and dropped requests |
| `SchedulerRequests.DroppedAreUnknown` | daemon/src/jobs/scheduler.cpp:280-281 | only requests for jobs that no longer exist are dropped |
| `SchedulerRequests.DeferredInOrder` | daemon/src/jobs/scheduler.cpp:277-288 | deferred requests keep their relative order |
| `SchedulerRequests.BatchExact` | daemon/src/jobs/scheduler.cpp:277-305 | in every reachable state a tick's batch holds registered jobs as they are, for queued requests of their names first and in order of acceptance, then for being due |
| `SchedulerRequests.RequestsConserved` | daemon/src/jobs/scheduler.cpp:121-310 | over every run, accepted requests are queued, about to be launched, launched or dropped, each exactly once, and the queue keeps the order of acceptance |
| `SchedulerStore.StepStored` | daemon/src/jobs/scheduler.cpp:130-193 | every step keeps names unique, definitions known and UI jobs equal to their reloaded definitions |
| `SchedulerStore.RunStored` | daemon/src/jobs/scheduler.cpp:130-193 | the same over every run with arbitrary database failures |
| `SchedulerStore.MergedExact` | daemon/src/jobs/scheduler.cpp:64-69 | a start builds exactly the configured jobs and the definitions they do not shadow, with unique names |
| `SchedulerStore.RestartKeepsJobs` | daemon/src/jobs/scheduler.cpp:58-193 | restarting at any moment of any run rebuilds exactly the current jobs, up to an add or remove that is half done |
| `Worker.Work` | daemon/src/jobs/scheduler.cpp:333-405 | for every retry count, outcome sequence and shutdown moment the worker does exactly the uninterrupted execution, cut at the load of the flag that sees the shutdown |
| `Worker.Backoff` | daemon/src/jobs/scheduler.cpp:371-379 | ten 100 ms sleeps per attempt made, cut short only by a shutdown |
| `Worker.CountsFrom` | daemon/src/jobs/scheduler.cpp:337-380 | attempts, sleeps and alerts from any attempt on |
| `Worker.WorkCounts` | daemon/src/jobs/scheduler.cpp:333-405 | exactly k attempts (first success, else retries + 1), 5*k*(k-1) sleeps, one alert if and only if the last attempt failed, and attempt j after j - 1 attempts and 5*j*(j-1) sleeps |
| `Worker.AttemptedIff` | daemon/src/jobs/scheduler.cpp:333-336 | the command is attempted if and only if the retry count is not negative; otherwise only the alert is raised |
| `Worker.ShutdownNeverAlerts` | daemon/src/jobs/scheduler.cpp:382-400 | a shutdown shortens an execution to exactly the events whose flag load found the daemon active, and a shortened one raises no alert |
| `Alerts.QuietIsCircularInterval` | daemon/src/alerts/alert_engine.cpp:21-35 | on a 24-hour clock the two branches are one circular interval, also past midnight |
| `Alerts.ComparisonLaws` | daemon/src/alerts/alert_engine.cpp:9-16 | at the threshold only "at least" is met; above and below are disjoint, cover everything else and are kept by larger and smaller values; "at least" is "not below" |
| `Alerts.MetPlainly` | daemon/src/alerts/alert_engine.cpp:62-66 | a rule is met if and only if the metric is present and its value on the rule's side of the threshold |
| `Alerts.EventsCarry` | daemon/src/alerts/alert_engine.cpp:85-119 | every event carries its rule's and the sample's contents, and asks for a notification if and only if it is critical or the hour is outside the quiet interval |
| `Alerts.AlertEngine.constructor` | daemon/src/alerts/alert_engine.cpp:18-19 | an engine starts with its rules and no state |
| `Alerts.AlertEngine.Evaluate` | daemon/src/alerts/alert_engine.cpp:53-124 | one call makes each rule's transition in order; its events tell of the rules and the sample and notify if and only if critical or not quiet |
| `Alerts.AlertEngine.EvaluateRule` | daemon/src/alerts/alert_engine.cpp:59-121 | one rule's new state and event, other rules untouched |
| `AlertHistory.EngineRefinesHistory` | daemon/src/alerts/alert_engine.cpp:53-124 | at every sample of every history a rule announces firing if and only if its streak lasted the duration, nothing was announced in it and the last announcement is a cooldown old; recovered if and only if an announced streak ended; else nothing |
| `AlertHistory.AnnouncementsCarry` | daemon/src/alerts/alert_engine.cpp:53-124 | over any history the event at a sample is the announcement the history calls for, with the rule's and the sample's contents |
| `AlertHistory.StateTracksHistory` | daemon/src/alerts/alert_engine.cpp:68-121 | what `since`, `notified` and `last_fired` mean in terms of the history |
| `AlertHistory.FiringFlagMeaning` | daemon/src/alerts/alert_engine.cpp:68-106 | `firing` is set if and only if the current streak has lasted the duration at some sample |
| `AlertHistory.FlagsNest` | daemon/src/alerts/alert_engine.cpp:68-121 | notified implies firing implies a start time, always |
| `AlertHistory.EventsAlternate` | daemon/src/alerts/alert_engine.cpp:68-121 | a rule's events strictly alternate, starting with firing |
| `AlertHistory.FiringsAreSpaced` | daemon/src/alerts/alert_engine.cpp:78-84 | successive firings are at least a cooldown apart |
| `AlertHistory.FiringRateBound` | daemon/src/alerts/alert_engine.cpp:78-84 | any window [a, b] holds at most (b - a)/cooldown + 1 firings of a rule |
| `AlertHistory.OwnState` | daemon/src/alerts/alert_engine.cpp:59-60 | with distinct names a call moves each rule's state by that rule alone |
| `AlertHistory.RulesAreIndependent` | daemon/src/alerts/alert_engine.cpp:53-124 | over any run the engine's state and events are those of each rule evaluated alone |
| `AlertDelivery.IdInjective` | app/Sources/AgentPulseApp/Models.swift:87 | the id determines time, rule and kind for all times, all rule names and all kinds without a dash |
| `AlertDelivery.SharedState.AddAlert` | daemon/src/shared_state.hpp:134-138 | newest first, cut at the cap |
| `AlertDelivery.RingIsNewest` | daemon/src/shared_state.hpp:134-138 | the ring is the last 25 additions, newest first |
| `AlertDelivery.StatusStore.NotifyNewAlerts` | app/Sources/AgentPulseApp/StatusStore.swift:126-141 | the first response only marks its alerts; later ones mark and post what is new, notifiable and firing |
| `AlertDelivery.StatusStore.Seed` | app/Sources/AgentPulseApp/StatusStore.swift:127-131 | marks exactly the ids of the response |
| `AlertDelivery.StatusStore.Notice` | app/Sources/AgentPulseApp/StatusStore.swift:132-139 | the loop body: an unseen id is marked, and posted if notifiable and firing |
| `AlertDelivery.NotifyEachExact` | app/Sources/AgentPulseApp/StatusStore.swift:132-140 | under each unseen id a response posts the first alert that bears it if that is notifiable, and nothing else |
| `AlertDelivery.RunConsistent` | daemon/src/shared_state.hpp:134-143 | in every run each response in flight is the ring at some past moment and the app is the result of those applied |
| `AlertDelivery.PostedAtMostOnce` | app/Sources/AgentPulseApp/StatusStore.swift:126-141 | in every run, with responses lost, late or out of order, no id is posted twice |
| `AlertDelivery.PostedAskForIt` | app/Sources/AgentPulseApp/StatusStore.swift:134 | in every run whatever is posted is flagged for notification and firing |
| `AlertDelivery.DeliveryExact` | app/Sources/AgentPulseApp/StatusStore.swift:111-141 | in every run whatever, under each id: nothing if no applied response shows it or the first one does; else exactly the newest alert with it on the first response that shows it, if notifiable |
| `AlertDelivery.DistinctDelivery` | app/Sources/AgentPulseApp/StatusStore.swift:111-141 | with distinct alerts, one is posted (once) if and only if it is notifiable, off the first applied response and on a later one |
| `AlertDelivery.InOrderDelivery` | app/Sources/AgentPulseApp/StatusStore.swift:111-141 | with in-order responses and at most 25 additions between polls, whatever the alerts, exactly the notifiable additions that are the last of their id before the first poll after it appeared are posted, once each |
| `AlertDelivery.InOrderDistinct` | app/Sources/AgentPulseApp/StatusStore.swift:111-141 | with distinct alerts these are exactly the notifiable alerts added between the first and the last applied poll |
| `AlertDelivery.TwinsLoseOne` | app/Sources/AgentPulseApp/Models.swift:87 | two alerts with the same time, rule and kind between two polls: only the newer is posted |
| `ProcessRunner.Capture.AppendCapped` | daemon/src/jobs/process_runner.cpp:26-40 | appends what fits under the cap; false and truncated exactly when something did not fit or the buffer was full |
| `ProcessRunner.Capture.Drain` | daemon/src/jobs/process_runner.cpp:142-154 | one read closes the stream at its end or when the cap is exceeded, else appends |
| `ProcessRunner.DrainLoop` | daemon/src/jobs/process_runner.cpp:103-159 | the loop over any rounds ends in the state those rounds lead to |
| `ProcessRunner.CaptureExact` | daemon/src/jobs/process_runner.cpp:108-159 | for every chunking and interleaving each text is the stream's content cut at 65536 bytes, truncated if and only if there was more, and the stream is read on exactly until it ends or overflows |
| `ProcessRunner.BoundedProgress` | daemon/src/jobs/process_runner.cpp:108-159 | at most 2*(65536+1)+1 rounds can append, close or kill |
| `ProcessRunner.KilledAtMostOnce` | daemon/src/jobs/process_runner.cpp:132-140 | at most one round sends the kill |
| `ProcessRunner.KilledIff` | daemon/src/jobs/process_runner.cpp:108-186 | the group is killed and the status is Timeout if and only if a poll times out while a stream is still open |
| `ProcessRunner.ClosedNeverKilled` | daemon/src/jobs/process_runner.cpp:108-186 | once both streams have ended or overflowed without a kill there is none in any continuation, and the run is reported as it ends by itself |
| `ProcessRunner.SilentCommandOutlivesTimeout` | daemon/src/jobs/process_runner.hpp:30-33 | a command that closes both streams at once is reported as a success when it exits 0, however late |
| `ProcessRunner.OpenPollsEnd` | daemon/src/jobs/process_runner.cpp:109-127 | while nothing is killed, no orderly poll of a timeout up to 2147483 s outlasts the deadline by a second, and none begun after it waits |
| `ProcessRunner.KillWithinDeadline` | daemon/src/jobs/process_runner.cpp:109-140 | a kill that is sent, for timeouts up to 4294967 s, is never before the deadline, less than a second after it when the poll began before it, and never without a positive timeout |
| `ProcessRunner.NeverEarlyIff` | daemon/src/jobs/process_runner.cpp:109-140 | no ideally timed run kills before the deadline if and only if the timeout is at most 4294967 s |
| `ProcessRunner.EarlyKill` | daemon/src/jobs/process_runner.cpp:115-118 | every longer timeout has an orderly run that kills early |
| `ProcessRunner.DeadlineKeptIff` | daemon/src/jobs/process_runner.cpp:109-118 | every poll before the kill has a deadline if and only if the timeout is at most 2147483 s; from there to 4294967 s the first poll has none |
| `ProcessRunner.TimeoutIffKilled` | daemon/src/jobs/process_runner.cpp:174-186 | status is Timeout if and only if the group was killed, and Success if and only if it exited 0 unkilled |
| `ProcessRunner.OutcomeExact` | daemon/src/jobs/process_runner.cpp:174-186 | status and exit code for a timeout, an exit, a signal and anything else |
| `SocketServer.Connection.ReadRequest` | daemon/src/ipc/socket_server.cpp:114-140 | the read loop returns what the framing function gives for the reads delivered |
| `SocketServer.ReceiveExact` | daemon/src/ipc/socket_server.cpp:114-140 | a request is handed over if and only if the chunk with the first newline begins below 65536, and it is the bytes before that newline |
| `SocketServer.FramingIgnoresChunking` | daemon/src/ipc/socket_server.cpp:114-140 | a first newline below 65536 always yields exactly the bytes before it; none, or one from 66559 on, never yields a request |
| `SocketServer.InterruptsIgnored` | daemon/src/ipc/socket_server.cpp:121-124 | interrupted reads change nothing, wherever they come |
| `SocketServer.DeliveredInOrder` | daemon/src/ipc/socket_server.cpp:119-131 | what counts are the bytes read, in order, up to the end of the stream or an error |
| `SocketServer.Connection.WriteResponse` | daemon/src/ipc/socket_server.cpp:145-158 | partial writes put out a prefix of the response, without gaps or repeats |
| `SocketServer.WritesComplete` | daemon/src/ipc/socket_server.cpp:145-158 | without write errors the bytes out are as many as were taken, up to the whole response |
| `SocketServer.WrittenAfterError` | daemon/src/ipc/socket_server.cpp:150-156 | nothing goes out after a write error |
| `SocketServer.Connection.Serve` | daemon/src/ipc/socket_server.cpp:114-159 | the handler is called at most once, with exactly the framed request; what is sent is a prefix of its reply plus one newline, and all of that without write errors |

## Left out

- SQLite and `daemon/src/db.cpp`: `job_defs` is a map whose updates may fail and then change nothing; the `runs` and `alerts` tables are not modelled.
- System calls, signals, threads and clocks: outcomes of `poll`, `read`, `write`, `waitpid` and every time of day are inputs.
- Metric samplers, the sleep monitor, `osascript` notifications, logging and status publishing.
- YAML and JSON parsing and the API's responses; what `load_config` enforces (unique job and rule names, daemon/src/config/config.cpp:179-198) is assumed of the configuration.
- SwiftUI views, the app's socket client, the command-line client and packaging.
- Message texts, attribution texts beyond where they are attached, and the stderr excerpt of a failure alert.
- Time zones with daylight saving: `localtime_r` is an arbitrary total function of time, except in `Horizon`, where it is the Gregorian calendar at a fixed whole-minute offset.
- Floating point: metric values and thresholds are reals, so NaN and rounding are not modelled.
- 32-bit overflow of `v += step` in the field parser and of `retries + 1` in the worker: integers are unbounded there.
- Times before 1970: the scheduler's clock readings are taken as at least 0; `AlertHistory` takes sample times as different from 0, the engine's "not set" mark.
- Concurrent API calls: the socket server handles one connection at a time, so add, remove and run requests are serialised.
- Rebuilding the alert engine on SIGHUP: the claims are per engine.
- Worker threads as objects: workers are numbered, an entry of `running_` stands for its thread, and joining is part of reaping; `stop()` appears only as the shutdown flag of `Worker`.
- Alerts raised by a missed-run scan and by a worker are not connected to `AlertDelivery`, which takes any sequence of additions.
- Canonical equivalence of strings: ids are compared by code unit here, while Swift's `Set<String>` identifies texts that differ only in Unicode normalisation, so two rule names that differ only so share an id there.
- Termination of the drain loop: rounds without progress (interrupted polls, polls without data) are not bounded.

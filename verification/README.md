# Signal Auras: the input pipeline, verified

Signal Auras watches key and pointer input, recognises timed sequences of presses ("motions"), and
plays macros in answer: once, or repeatedly while some tokens stay held. It also watches regions of
the screen for cooldowns and progress bars. This project models the parts that decide what happens
and when, and proves what they promise. Times are natural numbers; the matcher and the macro runs
count nanoseconds, the trackers milliseconds.

What updates state in place in the repository is a class here. Each of its methods ensures that the
new state and the result are those of a function of the old state; the theorems are about those
functions, over every run.

| files | what they hold |
|---|---|
| `Motion`, `MotionRuns`, `MotionAccounting` | the motion matcher, its invariant, the soundness of every trigger, the accounting of loops and attempts |
| `Configuration`, `MotionCompleteness` | which configurations are accepted, and why the prefix check is both enough and necessary |
| `MacroPlan`, `MacroRefinement` | the incremental macro run, and how it refines the blocking executor |
| `MacroQueue`, `QueueInvariants` | the live macro queue: consistency, conservation, and what one drive does |
| `LiveRuntime`, `LiveLoop`, `LiveInvariants`, `LiveHistory`, `LiveTheorems`, `LiveRefinement`, `LiveLaws`, `LiveAfters`, `LiveScans`, `LiveScope`, `LiveCompleteness`, `LiveTicks`, `LiveLabels`, `LiveScenario` | matcher, queue, focus tracker and repeat ticks as one system: safety over whole runs, what it emits against the blocking executor, what it must queue and what it must not, completeness from inputs to the queue, and the timing of ticks and waits |
| `CallbackScheduler` | mutual exclusion of Lua callbacks as a protocol with the holders of popped tasks |
| `StateTrackers`, `TrackerTheorems`, `CooldownHistory`, `TrackerHistories` | state-tracker definitions, polling, and the estimate and prediction of a cooldown |
| `CircularMask` | the pixel mask: its ellipse, overflow, symmetry, monotonicity |
| `LatencyHistogram` | bucket percentiles against the real samples |
| `KeywordRewrite` | the Lua keyword rewriter |
| `CacheCodec`, `CacheFormat`, `CacheRoundTrip` | the device cache file: printer, parser, what each makes of its input, and round trip |
| `Wrappers`, `Bytes` | shared types |

Three facts of the code that the model keeps and its statements speak of:

- A press is in the held set before guards are checked, so the first press of a motion can satisfy
  its own guard: `Performs` and `Performed` speak of the state right after it.
- A run that emitted its last action stays queued, with its label taken and without a deadline
  (`RequestingRunStays`), until the next successful drive removes it (`FinishedRunLeaves`).
- A motion in scope consumes the input that triggers it whatever its mode (`PressConsumedIff`).

Where one would expect more of the code than it does, the model follows the code, and a theorem says
exactly when the expectation holds:

- A motion fires only at its last press if no configured trigger is a proper prefix of another
  (`AcceptedConfigurationIsComplete`), and only then (`PrefixOverlapIsAmbiguous`, from a reachable
  state). Another attempt may be open when it is begun, as long as the first press does not carry
  that one on: then it ends with one discard in front.
- A polled run can complete before the blocking executor returns if and only if its plan ends in a
  delay of positive length (`CompletesEarlyIff`), and by at most that delay
  (`EarlyByTrailingDelayAtMost`), which some polls reach (`TrailingDelayNotWaited`).
- Handing back a callback task that `cancel_all` dropped is harmless if and only if its label is free
  (`StaleReturnHarmlessIffFree`); otherwise two tasks of one registration can be out at once
  (`StaleReturnBreaksExclusion`).
- A percentile stays within the recorded maximum if and only if a bucket bound lies between the
  sample of its rank and the greatest sample (`AnswerWithinMaxIff`,
  `AnswerWithinMaxIffBoundBetween`; `AnswerMayExceedMax` has two witnesses).
- The mask's 64-bit arithmetic overflows on some pixel of a region if and only if the corner of the
  region does (`RegionOverflowIff`). A pixel accepted at a larger inset is accepted at a smaller one
  if and only if the smaller one's comparison fits (`ShrinksWithInset`), and a region has an accepted
  pixel if and only if the inset leaves both sides and what it leaves fits (`NonEmptyIff`); below
  2^31 pixels everything fits. The detector's guard (screen_state.rs:1140-1144) asks that the
  sample contain the region, so it takes a sample that large to see it.
- The string that the keyword rewrite returns is the source with its keys bracketed and all else
  copied if and only if the source is ASCII (`ReturnsExactlyKeysIffAscii`); only then is the rewrite
  idempotent (`IdempotentIffAscii`). Taking the brackets off the returned string restores the source
  if and only if the source is ASCII and had no bracketed keyword of its own outside strings
  (`RestoredIff`).
- The cache parser undoes the printer if and only if the version has no line feed and no final
  carriage return and no optional identity field is present and empty (`RoundTripIff`).

## Model

| member | source | states |
|---|---|---|
| Motion.MotionRuntime.constructor | crates/signal-auras-core/src/motion.rs:421-433 | collects the motions by trigger, the last definition of a trigger winning; a new runtime holds nothing and has no attempt and no active loop |
| Motion.MotionRuntime.HandlePress | crates/signal-auras-core/src/motion.rs:464-546 | the new state and the events of a press: the token is held before guards are checked, an expired or unrelated attempt is discarded and the press may open another |
| Motion.MotionRuntime.OpenAttempt | crates/signal-auras-core/src/motion.rs:523-545 | with no attempt open, a press fires the one-token trigger it spells or opens an attempt over every motion it can begin |
| Motion.MotionRuntime.TriggerEvent | crates/signal-auras-core/src/motion.rs:548-561 | reports the trigger and starts its loop exactly when the loop's tokens are held |
| Motion.MotionRuntime.HandleRelease | crates/signal-auras-core/src/motion.rs:563-604 | an attempt guarded by the token is discarded, and exactly the active loops that lose a token they need are cancelled |
| Motion.MotionRuntime.CancelActiveLoops | crates/signal-auras-core/src/motion.rs:458-462 | returns the active loops in configuration order and leaves none |
| MotionRuns.TriggerSoundness | crates/signal-auras-core/src/motion.rs:464-561 | over every run, a trigger is emitted only when the last presses spell it, from the first to the last within its window, with its guard held right after the first press and not released before the last; and it starts a loop exactly when the loop's tokens are held |
| MotionRuns.MatcherInvariant | crates/signal-auras-core/src/motion.rs:458-623 | in every reachable state each active loop is a configured loop motion with all it needs held; each candidate is configured, longer than the progress, agrees with all others so far, and has its guard held |
| MotionRuns.AttemptAliveIff | crates/signal-auras-core/src/motion.rs:606-616 | in every reachable state an open attempt has not expired at a time exactly when pressing some token at that time would carry it on |
| MotionRuns.HeldIffPressed | crates/signal-auras-core/src/motion.rs:464-469 | over every run a token is held exactly when it was pressed and not released since |
| MotionAccounting.ActiveLoopsAreOpen | crates/signal-auras-core/src/motion.rs:454-462 | over every run a loop is active exactly when the log has a start of it that no later event cancels |
| MotionAccounting.CancelsFollowStarts | crates/signal-auras-core/src/motion.rs:563-604 | no loop is cancelled unless it was started since its previous cancellation |
| MotionAccounting.CancelsDistinct | crates/signal-auras-core/src/motion.rs:576-603 | one input cancels distinct loops that were active before it, and no press cancels any |
| MotionAccounting.AttemptsBalance | crates/signal-auras-core/src/motion.rs:472-604 | over every run: attempts opened = multi-token triggers + discards + 1 if an attempt is open |
| MotionAccounting.ReleaseEndsIff | crates/signal-auras-core/src/motion.rs:576-603 | over every run, after a release exactly those loops stay active that were active and need the token neither in their guard nor in what they are held by |
| MotionAccounting.LoopActiveIff | crates/signal-auras-core/src/motion.rs:458-604 | over every run a loop is active exactly when some input started it and, since then, no token it needs was released and no ending of all loops came |
| MotionAccounting.ReleaseDiscardsIff | crates/signal-auras-core/src/motion.rs:563-575 | a release reports one discarded attempt, and drops it, exactly when some candidate of it is guarded by the token |
| Configuration.InsertAll | crates/signal-auras-core/src/config.rs:75-111 | keyed insertion succeeds exactly when no key repeats, and then the map holds exactly the items |
| Configuration.RejectPrefixOverlapping | crates/signal-auras-core/src/config.rs:182-206 | the pairwise check accepts exactly the sets where no trigger is a proper prefix of another |
| Configuration.WithBindingsAndMotions | crates/signal-auras-core/src/config.rs:59-122 | accepted exactly when nothing repeats, no motion is a prefix of another and something is configured; otherwise the first failing check is the error |
| MotionCompleteness.TriggerCompleteness | crates/signal-auras-core/src/motion.rs:464-546 | under an accepted configuration, performing a trigger emits it exactly at the last press and no other trigger on the way, from any state with no open attempt or with one that the first press does not carry on; that attempt is reported once, in front, with the reason it ended, and nothing else is discarded |
| MotionCompleteness.PrefixOverlapIsAmbiguous | crates/signal-auras-core/src/config.rs:182-205 | if one configured trigger is a proper prefix of another, some performance of the longer one, from a state some run reaches, fires a trigger before its last press |
| MotionCompleteness.QuietStateReachable | crates/signal-auras-core/src/motion.rs:464-604 | for any tokens, some run reaches the state where exactly they are held and no attempt or loop is open |
| MotionCompleteness.AcceptedTable | crates/signal-auras-core/src/config.rs:59-122 | an accepted configuration gives the runtime a valid, prefix-free table that holds exactly its motions |
| MotionCompleteness.AcceptedConfigurationIsComplete | crates/signal-auras-core/src/config.rs:59-206 | completeness from the configuration on: from any such state, performing any motion of an accepted configuration fires it at the last press and nowhere else |
| MacroPlan.MacroRunState.constructor | crates/signal-auras-core/src/macro_plan.rs:202-218 | a new run has emitted nothing and is ready at the given time |
| MacroPlan.MacroRunState.Poll | crates/signal-auras-core/src/macro_plan.rs:240-280 | the new state and outcome of one poll: cancelled, complete, pending for a delay or a gap, or the next request |
| MacroPlan.MacroRunState.Cancel | crates/signal-auras-core/src/macro_plan.rs:224-226 | marks the run cancelled and changes nothing else |
| MacroRefinement.ExecutePlan | crates/signal-auras-core/src/macro_plan.rs:293-317 | the blocking executor emits the blocking schedule up to the first failure, and returns at its end |
| MacroRefinement.BlockingRequests | crates/signal-auras-core/src/macro_plan.rs:293-317 | the blocking schedule is the actions other than delays, in order, numbered consecutively |
| MacroRefinement.PolledRunRefinesBlocking | crates/signal-auras-core/src/macro_plan.rs:240-317 | for any poll times the emitted requests are the first non-delay actions in order, numbered from 1, none earlier than in the blocking schedule, and at exactly its times when no poll is late |
| MacroRefinement.PolledRunCompletes | crates/signal-auras-core/src/macro_plan.rs:240-280 | for any poll times, a run answers complete exactly when enough earlier polls came at or past their deadlines, at most twice the number of actions less one, however many early polls lie between |
| MacroRefinement.CompleteMeansAllEmitted | crates/signal-auras-core/src/macro_plan.rs:240-280 | a complete run has emitted every action other than delays |
| MacroRefinement.EarlyByTrailingDelayAtMost | crates/signal-auras-core/src/macro_plan.rs:240-317 | for every plan and all non-decreasing poll times, a run completes at most the plan's trailing delay before the blocking executor returns |
| MacroRefinement.TrailingDelayNotWaited | crates/signal-auras-core/src/macro_plan.rs:240-317 | for every plan some poll times, none late, complete exactly the trailing delay before the blocking executor returns |
| MacroRefinement.CompletesEarlyIff | crates/signal-auras-core/src/macro_plan.rs:240-317 | early completion is possible if and only if the plan ends in a delay of positive length |
| MacroQueue.LiveMacroQueue.Schedule | crates/signal-auras-cli/src/runner.rs:3609-3630 | a busy label is skipped and counted; otherwise a run with the next id is queued under it |
| MacroQueue.LiveMacroQueue.RecordRepeatSkip | crates/signal-auras-cli/src/runner.rs:3636-3644 | counts one more skip of the label and returns the count |
| MacroQueue.LiveMacroQueue.CancelTrigger | crates/signal-auras-cli/src/runner.rs:3646-3659 | cancels in place every run of the label and counts those not cancelled before |
| MacroQueue.LiveMacroQueue.CancelProcessScoped | crates/signal-auras-cli/src/runner.rs:3661-3671 | cancels in place every process-scoped run and counts those not cancelled before |
| MacroQueue.LiveMacroQueue.CancelWhere | crates/signal-auras-cli/src/runner.rs:3650-3671 | the loop both cancellations share: exactly the selected runs end cancelled, the others are untouched, and the newly cancelled are counted |
| MacroQueue.LiveMacroQueue.RemoveRun | crates/signal-auras-cli/src/runner.rs:3716-3728 | the run at an index leaves, the others close up in order, and its label is free |
| MacroQueue.LiveMacroQueue.NextWaitTimeout | crates/signal-auras-cli/src/runner.rs:3673-3681 | the wait is the least time to a deadline, or the idle time when no run has one |
| MacroQueue.LiveMacroQueue.VisitRun | crates/signal-auras-cli/src/runner.rs:3690-3731 | polls the run at an index and keeps it, removes it and frees its label, or stops at a refusal |
| MacroQueue.LiveMacroQueue.DriveReady | crates/signal-auras-cli/src/runner.rs:3683-3733 | the loop over indices with removal in place does what visiting the runs in order does |
| QueueInvariants.ScheduledKeeps | crates/signal-auras-cli/src/runner.rs:3609-3630 | scheduling keeps: labels distinct and equal to the active set, ids increasing, accepted = completed + dropped + queued, cancellations counted once; each attempt is either accepted or counted as a collision |
| QueueInvariants.CancelKeeps | crates/signal-auras-cli/src/runner.rs:3646-3671 | cancelling keeps the same and counts no run twice |
| QueueInvariants.DriveKeeps | crates/signal-auras-cli/src/runner.rs:3683-3733 | driving keeps the same, also when a request is refused half way |
| QueueInvariants.DriveSplits | crates/signal-auras-cli/src/runner.rs:3683-3733 | every drive, refused or not, keeps or removes each run in order and leaves the runs behind a refusal untouched |
| QueueInvariants.DriveVisitsAll | crates/signal-auras-cli/src/runner.rs:3683-3733 | a successful drive polls each run present exactly once, keeps exactly those neither complete nor cancelled, and removes the others |
| QueueInvariants.DriveStopsAtRefusal | crates/signal-auras-cli/src/runner.rs:3683-3733 | a drive goes on exactly as long as each request is answered as emitted: it polls the runs in front of a point once each and leaves the rest as they are; a refused request is the last one and that of the run just in front of the rest |
| QueueInvariants.DriveOutputs | crates/signal-auras-cli/src/runner.rs:3683-3733 | the requests of a drive belong to distinct ready runs in queue order; in a successful drive every ready run has its request |
| QueueInvariants.CancelledRunsAreSilent | crates/signal-auras-cli/src/runner.rs:3683-3733 | no cancelled run makes a request, whatever the executor answers |
| QueueInvariants.RequestingRunStays | crates/signal-auras-cli/src/runner.rs:3691-3718 | a run whose request is made, refused or not, stays queued with its label taken; after its last action it has no deadline |
| QueueInvariants.FinishedRunLeaves | crates/signal-auras-cli/src/runner.rs:3720-3728 | a run with no action left is removed by the next successful drive, which frees its label |
| LiveLoop.ScopedFocusTracker.Observe | crates/signal-auras-cli/src/runner.rs:3570-3592 | notes the focus of a process scope and answers whether it was just lost |
| LiveLoop.ScopedFocusTracker.TakeDeactivation | crates/signal-auras-cli/src/runner.rs:3594-3598 | answers a loss of focus once |
| LiveLoop.LiveLoop.ScheduleLiveBinding | crates/signal-auras-cli/src/runner.rs:3968-4008 | a binding's macro is queued under its name when the scope allows it |
| LiveLoop.LiveLoop.ObserveFocus | crates/signal-auras-cli/src/runner.rs:3976-3980 | a focus just lost cancels every process-scoped run and records how many |
| LiveLoop.LiveLoop.ScheduleLivePress | crates/signal-auras-cli/src/runner.rs:4078-4122 | a press definition's macro is queued under its label when the scope allows it, and then it consumes the input exactly when its mode says so |
| LiveLoop.LiveLoop.FindMatchingPress | crates/signal-auras-cli/src/runner.rs:4064-4076 | the first press definition with this token and its guard held |
| LiveLoop.LiveLoop.ScheduleLiveLoopAfter | crates/signal-auras-cli/src/runner.rs:4124-4149 | the macro after a loop, if there is one, is queued |
| LiveLoop.LiveLoop.ScheduleLiveTrigger | crates/signal-auras-cli/src/runner.rs:4151-4202 | a motion's macro is queued and then its loop is started, when the scope allows it; and then it consumes the input, whatever its mode |
| LiveLoop.LiveLoop.ScheduleLiveLoopStart | crates/signal-auras-cli/src/runner.rs:4204-4248 | a one-shot loop queues its body after what comes before it; a repeating one queues what comes before it |
| LiveLoop.LiveLoop.ScheduleLiveRuntimeEvent | crates/signal-auras-cli/src/runner.rs:4010-4062 | a cancelled loop has its repeat, before and once runs cancelled and its after macro queued, and consumes the input |
| LiveLoop.LiveLoop.EndLoopsOnDeactivation | crates/signal-auras-cli/src/runner.rs:2333-2348 | a lost focus ends every active loop and queues what comes after each |
| LiveLoop.LiveLoop.HandleObservedInput | crates/signal-auras-cli/src/runner.rs:3747-3872 | one observed input: the matcher, then the press definition, then the events; a failing focus query ends it; it is consumed exactly when the press definition or one of the events consumes it |
| LiveLoop.LiveLoop.HandlePresses | crates/signal-auras-cli/src/runner.rs:3771-3807 | the first matching press definition is scheduled, and a focus it finds lost ends the loops |
| LiveLoop.LiveLoop.HandleShortcutEvent | crates/signal-auras-cli/src/runner.rs:3111-3154 | a shortcut that the developer diagnostics take or fail on goes no further; otherwise the first binding of the hotkey is scheduled |
| LiveLoop.LiveLoop.ScheduleRepeatTick | crates/signal-auras-cli/src/runner.rs:4250-4314 | a tick waits for what comes before the loop, is skipped and counted while the last one is queued, and is queued otherwise |
| LiveLoop.LiveLoop.ScanOne | crates/signal-auras-cli/src/runner.rs:2296-2351 | an inactive loop forgets its tick time; a due one is ticked and stamped |
| LiveLoop.LiveLoop.ScanRepeatTicks | crates/signal-auras-cli/src/runner.rs:2296-2351 | the scan of all repeating motions, stopped by the first failing focus query |
| LiveLoop.LiveLoop.NextTickTimeout | crates/signal-auras-cli/src/runner/runtime_loop.rs:76-97 | the least time to the next tick of an active repeating loop, or the idle time |
| LiveLoop.LiveLoop.WaitTimeout | crates/signal-auras-cli/src/runner.rs:2221-2224 | the event loop sleeps for the lesser of the tick wait and the run wait |
| LiveTicks.NothingDueWhileWaiting | crates/signal-auras-cli/src/runner.rs:2221-2224 | before that wait is over no tick of an active loop is due and no queued run with a deadline would do anything |
| LiveTicks.TickDueAfterWait | crates/signal-auras-cli/src/runner/runtime_loop.rs:76-97 | when the tick wait is over, unless idle, some active loop is due |
| LiveTicks.RunDueAfterWait | crates/signal-auras-cli/src/runner.rs:3673-3681 | when the run wait is over, and some run has a deadline, some run has reached its own and a poll moves it on; the wait is the idle one when none has |
| LiveTicks.TicksApart | crates/signal-auras-cli/src/runner.rs:2296-2351 | over every live run two ticks of one loop lie at least its interval apart, unless a scan between found the loop ended |
| LiveLoop.LiveLoop.PerformStep | crates/signal-auras-cli/src/runner.rs:2231-2353 | any step of the event loop changes the objects as the step of the system says, the clock being read again for each run it queues |
| LiveInvariants.LiveStepKeeps | crates/signal-auras-cli/src/runner.rs:2231-2353 | every step, also one that ends in an error, keeps the queue consistent, the matcher in a state of a run of its own, and a released loop silent unless the step starts it again |
| LiveHistory.StepMoves | crates/signal-auras-cli/src/runner.rs:2231-2353 | whatever step but a drive: of the matcher only the loops end besides its own step, and runs are only cancelled, or added with the next ids for macros configured under their labels |
| LiveHistory.LiveHistoryOf | crates/signal-auras-cli/src/runner.rs:3747-3872 | the matcher of a live run has handled exactly the inputs observed so far, in order, and nothing else but endings of its loops |
| LiveLaws.LoopStartQueues | crates/signal-auras-cli/src/runner.rs:4204-4248 | a started loop queues exactly one run under its own label: the actions before it followed by those of its body, or for a repeating one the actions before it, if any |
| LiveLaws.TriggerQueues | crates/signal-auras-cli/src/runner.rs:4151-4248 | a trigger in scope queues exactly the motion's macro, if its label is free, and then what its started loop is to queue, with the next ids; the runs in front are those the look at the focus left |
| LiveLaws.ObserveMeaning | crates/signal-auras-cli/src/runner.rs:3570-3598 | a look at the focus that finds it lost is noted and cancels exactly the process-scoped runs; any other changes no run |
| LiveLaws.PressQueues | crates/signal-auras-cli/src/runner.rs:4064-4122 | the first press definition that a press matches, in scope and with a free label, has its macro queued |
| LiveLaws.PressIgnored | crates/signal-auras-cli/src/runner.rs:3771-3807 | a press that matches no definition changes nothing, whatever the focus |
| LiveLaws.ShortcutQueues | crates/signal-auras-cli/src/runner.rs:3968-4008 | the first binding of a hotkey, in scope and with a free name, has its macro queued with no delay between actions |
| LiveLaws.ShortcutIgnored | crates/signal-auras-cli/src/runner.rs:3111-3154 | a shortcut bound to nothing, or that the developer diagnostics take or fail on, changes nothing |
| LiveLaws.ShortcutHandledIff | crates/signal-auras-cli/src/runner.rs:3111-3154 | a shortcut is handled without error exactly when the developer diagnostics do not fail on it and, if it is left to the bindings and bound, the focus query is answered |
| LiveLaws.InputHandledIff | crates/signal-auras-cli/src/runner.rs:3747-3872 | an input is handled to the end exactly when each focus query that the press definition it matches and its events need is answered |
| LiveLaws.PressConsumedIff | crates/signal-auras-cli/src/runner.rs:3747-3872 | a press is consumed exactly when the first definition that it matches is in scope and meant to consume it, or when it triggers a motion in scope |
| LiveLaws.ReleaseConsumedIff | crates/signal-auras-cli/src/runner.rs:4040-4056 | a release handled to the end is consumed exactly when it ends a loop, in scope or not |
| LiveAfters.ReleasedLoopQueuesAfter | crates/signal-auras-cli/src/runner.rs:4124-4149 | after a handled release that ends a loop, what comes after the loop is queued, whatever other loops the same release ends |
| LiveAfters.DeactivationQueuesAfter | crates/signal-auras-cli/src/runner.rs:2333-2348 | a noted loss of focus queues what comes after each active loop |
| LiveAfters.DeactivationEndsLoops | crates/signal-auras-cli/src/runner.rs:2333-2348 | it ends every active loop and is noted no more |
| LiveScope.TriggerLossEndsLoops | crates/signal-auras-cli/src/runner.rs:3840-3868 | a trigger that finds the focus lost ends every active loop, also the one it has just started |
| LiveScope.PressLossEndsLoops | crates/signal-auras-cli/src/runner.rs:3771-3807 | a press definition that finds the focus lost ends every active loop |
| LiveScope.TickLossEndsLoops | crates/signal-auras-cli/src/runner.rs:2312-2348 | a due tick that finds the focus lost ends every active loop |
| LiveScope.LossIsTaken | crates/signal-auras-cli/src/runner.rs:2296-2351 | inputs, scans and drives leave no loss of focus pending |
| LiveScope.ShortcutLeavesLoops | crates/signal-auras-cli/src/runner.rs:3111-3154 | a shortcut that finds the focus lost notes it for a later step and leaves the loops as they are |
| LiveScans.TickQueues | crates/signal-auras-cli/src/runner.rs:4250-4314 | a due tick waits without a trace while what comes before its loop is queued, counts one skip while the last tick is queued, and otherwise is queued in scope and not out of it |
| LiveScans.ScanQueuesDueTicks | crates/signal-auras-cli/src/runner.rs:2296-2351 | a scan that finds the process in scope queues every due tick whose two labels are free |
| LiveScans.ScanWaitsForBefore | crates/signal-auras-cli/src/runner.rs:4265-4268 | no scan queues a tick, nor counts one as skipped, while what comes before its loop is queued |
| LiveScans.NoneDueAfterScan | crates/signal-auras-cli/src/runner.rs:2296-2351 | after a successful scan no active loop with an interval is due any more |
| LiveScope.OutOfScopeQueuesNothing | crates/signal-auras-cli/src/runner.rs:3968-4314 | out of scope no step queues anything but what comes after an ended loop |
| LiveRefinement.DriveOne | crates/signal-auras-cli/src/runner.rs:3683-3733 | in one drive a run is polled once and emits what that poll says, or is left untouched behind a refusal |
| LiveRefinement.LiveRunRefinesBlocking | crates/signal-auras-cli/src/runner.rs:3608-3733 | over every live run the requests under one id are in order the first of the blocking executor on the configured macro queued under it, none earlier than if it had started when queued, and at exactly its times when no drive is late; a run never cancelled has left the queue exactly when enough drives came due, and then every request was made |
| LiveTheorems.QueueConsistentAndBounded | crates/signal-auras-cli/src/runner.rs:3608-3733 | in every reachable state the active labels are those of the queued runs, all distinct, ids increase, accepted runs are completed, dropped or queued, and the queue has at most bindings + presses + 5 times motions runs |
| LiveTheorems.LiveTriggerSoundness | crates/signal-auras-cli/src/runner.rs:3747-3872 | a trigger in a live run was performed by the inputs actually observed, up to endings of the loops |
| LiveCompleteness.LiveTriggerCompleteness | crates/signal-auras-cli/src/runner.rs:3747-3872 | under a prefix-free configuration, inputs that perform a motion trigger it at the last input and nothing before, whatever scans, shortcuts and drives lie between, also when the first one ends an open attempt, which is then reported once in front |
| LiveCompleteness.PerformedMotionIsQueued | crates/signal-auras-cli/src/runner.rs:4151-4248 | when that last input finds the focus in scope, the motion's macro and, if the tokens of its loop are held, the beginning of the loop are queued under their labels, where free, as runs that have done nothing yet |
| LiveTheorems.NoRepeatAfterRelease | crates/signal-auras-cli/src/runner.rs:4040-4056 | once a release that cancels a loop has been handled, no request comes from a run labelled as its repeat, before or once macro until an input starts it again, for every interleaving |
| LiveScenario.ReleasedLoopScenario | crates/signal-auras-cli/src/runner.rs:2231-2353 | a run worked out in which a loop's repeat is queued when the release comes: it meets every hypothesis of the theorem above, so that one is not empty |
| LiveLabels.PlainNamesKeepLabelsApart | crates/signal-auras-core/src/motion.rs:154-160 | when names are single words other than those the labels add, no two labels of a program that matter to a loop can collide, and no two motions share a label for ticks or for what comes after |
| LiveLabels.JoinInjective | crates/signal-auras-core/src/motion.rs:154-160 | a trigger's rendered text determines its words |
| CallbackScheduler.LuaCallbackScheduler.ScheduleTask | crates/signal-auras-core/src/controller.rs:467-504 | denied, skipped or dropped by policy, dropped when full, or accepted and queued |
| CallbackScheduler.LuaCallbackScheduler.PopTask | crates/signal-auras-core/src/controller.rs:506-508 | the oldest pending task leaves; its label stays taken |
| CallbackScheduler.LuaCallbackScheduler.Finish | crates/signal-auras-core/src/controller.rs:510-517 | frees the label; slow exactly when the budget is exceeded |
| CallbackScheduler.LuaCallbackScheduler.CancelTask | crates/signal-auras-core/src/controller.rs:519-522 | frees the label |
| CallbackScheduler.LuaCallbackScheduler.PreemptTask | crates/signal-auras-core/src/controller.rs:524-527 | frees the label |
| CallbackScheduler.LuaCallbackScheduler.CancelEverything | crates/signal-auras-core/src/controller.rs:529-534 | drops every pending task and frees every label, also of popped tasks |
| CallbackScheduler.CallKeepsExclusive | crates/signal-auras-core/src/controller.rs:463-534 | every call that keeps to the protocol preserves: labels taken = labels pending + outstanding, all distinct, at most the limit pending, in acceptance order |
| CallbackScheduler.CallbacksAreExclusive | crates/signal-auras-core/src/controller.rs:463-534 | the same over every run in which tasks are handed back at most once and not after a drop |
| CallbackScheduler.SubmissionOutcome | crates/signal-auras-core/src/controller.rs:467-504 | after any run that keeps to the protocol, a submission is accepted exactly when it is permitted, its name is neither pending nor outstanding and there is room; denied exactly when not permitted; skipped exactly when permitted, taken and to be skipped; a refusal changes nothing, and an accepted task carries the registration, the time and the budget |
| CallbackScheduler.TasksWerePermitted | crates/signal-auras-core/src/controller.rs:467-508 | over every such run, each pending or outstanding task was submitted by a permitted registration |
| CallbackScheduler.PopsInAcceptanceOrder | crates/signal-auras-core/src/controller.rs:506-508 | the next task popped is the oldest accepted one not popped yet, and nobody holds a task of its registration |
| CallbackScheduler.StaleReturnHarmlessIffFree | crates/signal-auras-core/src/controller.rs:510-534 | handing back a task that is not outstanding keeps exclusion exactly when its label is free |
| CallbackScheduler.StaleReturnBreaksExclusion | crates/signal-auras-core/src/controller.rs:529-534 | a run in which such a hand-back leaves two tasks of one registration outstanding |
| StateTrackers.NewDefinitionSet | crates/signal-auras-core/src/screen_state.rs:593-642 | accepted exactly when ids are unique and every condition names a tracker declared earlier; duplicates are reported first |
| StateTrackers.CheckSources | crates/signal-auras-core/src/screen_state.rs:608-637 | the check against the ids declared so far accepts exactly the sets with sources first |
| StateTrackers.CollectIds | crates/signal-auras-core/src/screen_state.rs:597-607 | the ids are collected exactly when none repeats |
| StateTrackers.StateTrackerPoller.constructor | crates/signal-auras-core/src/screen_state.rs:1515-1522 | a new poller has polled nothing and knows no state |
| StateTrackers.StateTrackerPoller.CollectDue | crates/signal-auras-core/src/screen_state.rs:1551-1561 | the due trackers in declaration order |
| StateTrackers.StateTrackerPoller.SplitByScope | crates/signal-auras-core/src/screen_state.rs:1581-1596 | the due trackers in focus and those out of it, each in order |
| StateTrackers.StateTrackerPoller.SampleAll | crates/signal-auras-core/src/screen_state.rs:1635-1674 | one pass over the trackers in order, each seeing the states the earlier ones left |
| StateTrackers.StateTrackerPoller.Poll | crates/signal-auras-core/src/screen_state.rs:1544-1681 | the new state and outcome of a poll on every path: nothing due, screen blocked, nothing in focus, no sample, or one pass over the sample |
| StateTrackers.StateTrackerPoller.SampleTracker | crates/signal-auras-core/src/screen_state.rs:1635-1674 | what the pass does for one tracker: inactive when its condition does not match, otherwise what its detector reports |
| StateTrackers.StateTrackerPoller.MarkInactive | crates/signal-auras-core/src/screen_state.rs:1683-1706 | every listed tracker is inactive for the reason and stamped |
| TrackerTheorems.ConditionsSettle | crates/signal-auras-core/src/screen_state.rs:1551-1674 | after a poll that took a sample, a due tracker in focus is inactive for its condition exactly when its source's state at the end of the poll does not match |
| TrackerTheorems.DueNowIffZero | crates/signal-auras-core/src/screen_state.rs:1532-1542 | the wait is zero exactly when a poll now would find a due tracker |
| TrackerTheorems.NothingDueBefore | crates/signal-auras-core/src/screen_state.rs:1532-1542 | no tracker becomes due before the wait is over |
| TrackerTheorems.SomethingDueAfter | crates/signal-auras-core/src/screen_state.rs:1532-1542 | some tracker is due as soon as it is, when no poll lies in the future |
| TrackerTheorems.PollStamps | crates/signal-auras-core/src/screen_state.rs:1544-1706 | on every path a poll stamps exactly the due trackers |
| TrackerTheorems.NextDueAfterPoll | crates/signal-auras-core/src/screen_state.rs:1532-1706 | after any poll, on every path, the next due time is strictly in the future |
| TrackerTheorems.PollCounts | crates/signal-auras-core/src/screen_state.rs:1544-1681 | the due trackers are counted, and a sample is reported exactly when the screen may be read, a due tracker is in focus and the capture succeeds |
| TrackerTheorems.UpdatedIsDue | crates/signal-auras-core/src/screen_state.rs:1544-1681 | the reported ids are the due ids, rearranged |
| TrackerTheorems.UpdatedOnceEach | crates/signal-auras-core/src/screen_state.rs:1544-1681 | each due tracker is reported exactly once and no other is |
| TrackerHistories.PollReports | crates/signal-auras-core/src/screen_state.rs:1544-1706 | what each tracker reports after a poll: what it did before when not due; otherwise the first reason that applies of screen blocked, not in focus, no sample, condition not met; otherwise what its detector reads, with the time left as the fraction of the total |
| CooldownHistory.RadialCooldownHistory.Push | crates/signal-auras-core/src/screen_state.rs:856-862 | the observation joins the window, which drops its oldest beyond sixteen |
| CooldownHistory.RadialCooldownHistory.ObservePhase | crates/signal-auras-core/src/screen_state.rs:864-873 | the start of the active run is set, kept or cleared |
| CooldownHistory.RadialCooldownHistory.EstimateTotal | crates/signal-auras-core/src/screen_state.rs:875-890 | the time since the first observation of the window above the latest, scaled up to the whole cooldown and remembered, or the last one made |
| CooldownHistory.RadialCooldownHistory.Record | crates/signal-auras-core/src/screen_state.rs:914-960 | a readable sample is observed, pushed and estimated in that order; a prediction is made only while active |
| CooldownHistory.StartOfActiveRun | crates/signal-auras-core/src/screen_state.rs:864-873 | over any samples the recorded start is the time of the first sample of the current maximal active run, and there is none exactly when the last sample is not active |
| CooldownHistory.WindowIsLastSamples | crates/signal-auras-core/src/screen_state.rs:856-862 | over any samples the window is exactly the last sixteen |
| CooldownHistory.EstimateScales | crates/signal-auras-core/src/screen_state.rs:875-890 | over any samples the total is unknown when no sample of the last sixteen shows more left than the last one or time ran backwards since the first that does; the last known when no time passed; otherwise the time since, scaled from the percentage that went by to the whole and rounded down |
| CooldownHistory.LastTotalIsLastMeasured | crates/signal-auras-core/src/screen_state.rs:884-889 | the last known total is the one reported at the last sample that measured one, and there is none exactly when none did |
| CooldownHistory.PredictionFollowsRun | crates/signal-auras-core/src/screen_state.rs:892-960 | a prediction is the duration less the time since the run began, given exactly when that time is in the stable window |
| CooldownHistory.PredictionNeverRises | crates/signal-auras-core/src/screen_state.rs:892-960 | within one run, predictions fall by exactly the time that passed |
| TrackerHistories.PollHistory | crates/signal-auras-core/src/screen_state.rs:1544-1681 | one poll records in a tracker's history exactly the sample it then reports, and reports the phase, total and prediction of that history |
| TrackerHistories.HistoryIsOfSamples | crates/signal-auras-core/src/screen_state.rs:1544-1681 | over any polls, the history kept for a tracker is that of the samples the tracker has reported |
| TrackerHistories.ActiveStartOfTracker | crates/signal-auras-core/src/screen_state.rs:864-873 | over any polls, the recorded start is the time of the first sample of the tracker's current active run |
| TrackerHistories.ReportIsPrediction | crates/signal-auras-core/src/screen_state.rs:914-960 | over any polls, the total and the prediction reported for a tracker just sampled are those for the samples it has reported |
| TrackerHistories.ReportFollowsRun | crates/signal-auras-core/src/screen_state.rs:892-960 | over any polls, what is reported for a tracker just sampled is the duration less the time since its active run began, exactly inside the stable window, and nothing when it is not active |
| CircularMask.MaskIsExact | crates/signal-auras-core/src/screen_state.rs:1323-1343 | on a region of fewer than 2^31 pixels the 64-bit evaluation overflows nowhere and is the exact ellipse test |
| CircularMask.MaskIsEllipse | crates/signal-auras-core/src/screen_state.rs:1323-1343 | the exact test is the ellipse around the middle of the region that fills what the inset leaves: a pixel at or after the corner is accepted exactly when its scaled coordinates squared add up to at most one |
| CircularMask.InsetIsLargest | crates/signal-auras-core/src/screen_state.rs:1327-1329 | the inset in force is the largest, up to the configured one, that is at most half of either side |
| CircularMask.DeepInsetIsHalf | crates/signal-auras-core/src/screen_state.rs:1327-1329 | an inset of half the shorter side or more accepts exactly what that half accepts |
| CircularMask.OverflowIff | crates/signal-auras-core/src/screen_state.rs:1337-1343 | for any region and pixel, overflow happens exactly when the inset leaves an interior and a side of the comparison exceeds 64 bits |
| CircularMask.RegionOverflowIff | crates/signal-auras-core/src/screen_state.rs:1337-1343 | some pixel of a region overflows if and only if the inset leaves an interior and the corner's doubled distances do not fit |
| CircularMask.LargeRegionOverflows | crates/signal-auras-core/src/screen_state.rs:1337-1343 | a region of 65536 by 65536 pixels overflows on its first pixel |
| CircularMask.AnswerIsExact | crates/signal-auras-core/src/screen_state.rs:1323-1343 | whenever the 64-bit comparison gives an answer, it is that of the exact ellipse |
| CircularMask.ReflectionsAgree | crates/signal-auras-core/src/screen_state.rs:1323-1343 | on every region a pixel and its mirror image in either middle line get the same 64-bit answer, overflow included |
| CircularMask.ShrinksWithInset | crates/signal-auras-core/src/screen_state.rs:1323-1343 | on every region, a pixel accepted at a larger inset is accepted at a smaller one exactly when that comparison fits in 64 bits, and is never rejected |
| CircularMask.ShrinksOnSmallRegions | crates/signal-auras-core/src/screen_state.rs:1323-1343 | on a region of fewer than 2^31 pixels it is accepted |
| CircularMask.ShrinkingOverflows | crates/signal-auras-core/src/screen_state.rs:1323-1343 | a pixel of a large region accepted at one inset that overflows at a smaller one |
| CircularMask.InsideInsetRectangle | crates/signal-auras-core/src/screen_state.rs:1323-1343 | on every region an accepted pixel lies in the rectangle that the inset leaves |
| CircularMask.OutsideIsClamped | crates/signal-auras-core/src/screen_state.rs:1333-1334 | with an inset, no pixel left of or above the region is accepted although its offset is clamped to zero |
| CircularMask.NonEmptyIff | crates/signal-auras-core/src/screen_state.rs:1323-1343 | a region of 32-bit pixels has an accepted pixel exactly when the inset leaves something of both sides and its squared product fits |
| CircularMask.NonEmptyOnSmallRegions | crates/signal-auras-core/src/screen_state.rs:1323-1343 | on fewer than 2^31 pixels, exactly when the inset leaves something of both sides |
| LatencyHistogram.Histogram.Record | crates/signal-auras-core/src/stats.rs:177-188 | one more sample: count, maximum, total and exactly one bucket follow |
| LatencyHistogram.Histogram.Percentile | crates/signal-auras-core/src/stats.rs:217-234 | the least bucket bound that the nearest rank of samples does not exceed; the fallback after the scan is never reached |
| LatencyHistogram.RankIsCeiling | crates/signal-auras-core/src/stats.rs:217-234 | the nearest rank is the percentage of the count, rounded up |
| LatencyHistogram.Histogram.Average | crates/signal-auras-core/src/stats.rs:202-207 | the floor of the mean of the samples, never above the maximum |
| LatencyHistogram.BucketsSumToCount | crates/signal-auras-core/src/stats.rs:177-188 | the bucket counts add up to the number of samples |
| LatencyHistogram.AnswerBracketsSample | crates/signal-auras-core/src/stats.rs:217-234 | in sorted order, the sample of the nearest rank is at most the answer and above every smaller bound |
| LatencyHistogram.PercentilesOrdered | crates/signal-auras-core/src/stats.rs:209-234 | a higher percentile is never a lower answer |
| LatencyHistogram.AnswerWithinMaxIff | crates/signal-auras-core/src/stats.rs:217-234 | the answer stays within the recorded maximum if and only if a bound within the maximum covers the rank |
| LatencyHistogram.AnswerWithinMaxIffBoundBetween | crates/signal-auras-core/src/stats.rs:217-234 | on the sorted samples: if and only if a bound lies between the sample of the rank and the greatest sample |
| KeywordRewrite.RewriteKeywordTableKey | crates/signal-auras-lua/src/runtime.rs:282-327 | the scan over the bytes produces the specified rewrite |
| KeywordRewrite.KeyStartsAt | crates/signal-auras-lua/src/runtime.rs:310-320 | a key starts where the keyword stands as a word of its own with `=` as the next visible byte |
| KeywordRewrite.FindNonWhitespace | crates/signal-auras-lua/src/runtime.rs:339-347 | the first byte from an index on that is not white space |
| KeywordRewrite.RewritesExactlyKeys | crates/signal-auras-lua/src/runtime.rs:282-347 | the pushed characters are the source bytes with a bracket and a quote around exactly the keys outside strings, told by a lexer that reads byte by byte |
| KeywordRewrite.ReturnsExactlyKeysIffAscii | crates/signal-auras-lua/src/runtime.rs:282-347 | the returned string is the source with exactly its keys bracketed and all else copied, quoted strings included, exactly when the source is ASCII |
| KeywordRewrite.RewrittenTwice | crates/signal-auras-lua/src/runtime.rs:282-347 | among the pushed characters, rewriting what was rewritten changes nothing more |
| KeywordRewrite.IdempotentIffAscii | crates/signal-auras-lua/src/runtime.rs:282-327 | on the returned string, rewriting twice equals rewriting once exactly when the source is ASCII |
| KeywordRewrite.ReturnedIffAscii | crates/signal-auras-lua/src/runtime.rs:290-325 | the returned string has the intended bytes exactly when the source is ASCII |
| KeywordRewrite.AccentIsMangled | crates/signal-auras-lua/src/runtime.rs:290-325 | the two bytes of an accented letter come back as four |
| KeywordRewrite.UnbracketedAgree | crates/signal-auras-lua/src/runtime.rs:282-347 | among the pushed characters, what the rewrite adds is exactly what taking the brackets off removes |
| KeywordRewrite.RestoredIff | crates/signal-auras-lua/src/runtime.rs:282-347 | taking the brackets off the returned string restores the source exactly when the source is ASCII and had no bracketed keyword of its own outside strings |
| CacheCodec.ParseCache | crates/signal-auras-cli/src/input_cache.rs:638-667 | the loop over the lines collects the parts; the last line of a key wins, the first undecodable value ends it, a missing part refuses the file |
| CacheFormat.ParseMeaning | crates/signal-auras-cli/src/input_cache.rs:638-667 | any source is accepted exactly when all that its lines give to the keys can be read and no text is missing; the last line of a key counts, a time that cannot be read is zero, the devices are those of all device lines in order, other lines are ignored |
| CacheFormat.RenderSpelled | crates/signal-auras-cli/src/input_cache.rs:669-706 | the printed text is five lines with their keys spelled out and one for each device, each ended by a line feed |
| CacheFormat.HexSpelled | crates/signal-auras-cli/src/input_cache.rs:746-748 | each byte is printed as two lower-case hexadecimal digits, the higher half first |
| CacheFormat.DecimalSpelled | crates/signal-auras-cli/src/input_cache.rs:678 | each digit of the printed time is that of the number, with no leading zero |
| CacheFormat.DeviceParsedIff | crates/signal-auras-cli/src/input_cache.rs:708-737 | a device line is read exactly when it has nine fields and each can be read |
| CacheFormat.PairsMeaning | crates/signal-auras-cli/src/input_cache.rs:750-761 | each pair of digits becomes one byte; decoding aborts exactly when a slice cuts a character before any pair is wrong |
| CacheRoundTrip.HexRoundTrip | crates/signal-auras-cli/src/input_cache.rs:746-761 | decoding hexadecimal undoes encoding, for every text |
| CacheRoundTrip.TimeRoundTrip | crates/signal-auras-cli/src/input_cache.rs:656-679 | parsing the printed time gives it back, for every 128-bit value |
| CacheRoundTrip.SplitJoined | crates/signal-auras-cli/src/input_cache.rs:698-712 | splitting undoes joining when no part has the separator |
| CacheRoundTrip.LinesJoined | crates/signal-auras-cli/src/input_cache.rs:645-683 | the lines of the printed file are the printed lines without a final carriage return |
| CacheRoundTrip.DeviceRead | crates/signal-auras-cli/src/input_cache.rs:686-737 | reading a printed device gives it back, an empty optional field as none |
| CacheRoundTrip.ParseOfRender | crates/signal-auras-cli/src/input_cache.rs:638-684 | parsing a printed cache whose version has no line feed gives its normal form, for any devices and field contents |
| CacheRoundTrip.ParsedVersionUnbroken | crates/signal-auras-cli/src/input_cache.rs:645-655 | no source parses to a version with a line feed in it |
| CacheRoundTrip.RoundTripIff | crates/signal-auras-cli/src/input_cache.rs:638-737 | parsing a printed cache gives it back exactly when the version has no line feed and no final carriage return and no optional identity field is present and empty |

## Left out

- LiveTheorems.NoRepeatAfterRelease: claimed for a loop cancelled by a release; a loop ended by a lost focus or at shutdown can leave a repeat queued, and the source promises nothing there. It assumes that no other label of the program equals one of the loop's; `PlainNamesKeepLabelsApart` gives a condition on names under which that holds.
- Motion.MotionRuntime.constructor: is told the order of the keyed collection, `order`; nothing proved depends on which order it is.
- LatencyHistogram.Histogram.Percentile: counters are unbounded, so the overflow of count times percentile beyond 2^64 is not modelled; nor is that of the other statistics counters, run ids and tracker times.
- CacheCodec.ParseCache: paths are taken to be UTF-8; the lossy printing of other paths is not modelled, nor is the reading and writing of the file.
- Statistics and logging, but for the counters of the queue and the histograms: the counts of dropped callbacks, ignored shortcuts and consumed triggers.
- The raw passthrough of input that is not consumed, and the grabs around the leader, which are calls of the adapter.
- Queued runs are values in a sequence, as the owned elements of the source's vector are; the run as an object is `MacroRunState`.
- The three latency histograms have the same bounds and code; one class stands for them.
- The poller looks a due tracker up by id again before it samples it; with unique ids that finds the same definition, so the model keeps the definition.
- Scopes are a boolean per program and two answers per focus query; capability reports and consent are booleans.
- Detectors, regions and sample formats: the phase, fraction and percentage that a detector sees are inputs to the history and the poller.
- Key names and aliases: tokens are compared by equality only, and whether a token may be held is not restricted.
- The checks of definitions other than motions, presses, bindings and tracker sets, which are facts about one field each.
- The file descriptors the event loop waits on, callbacks of the compositor, the shutdown drain, overlays, and what developer diagnostics do with the shortcuts they take.
- The Lua runtime, its sandbox and its preemption hook, whose behaviour lies in a library.

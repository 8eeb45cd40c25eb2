/**
 What every run of the live pipeline keeps: the queue stays consistent and bounded, the matcher's
 state is that of a run of the matcher alone, and a released loop stays silent.
*/
module LiveInvariants {
  import opened Wrappers
  import opened MacroPlan
  import opened Motion
  import opened MotionRuns
  import opened MotionAccounting
  import opened Configuration
  import opened MacroQueue
  import opened QueueInvariants
  import opened LiveRuntime

  /** The labels a program can schedule under. */
  function ProgramLabels(p: LiveProgram): set<string> {
    (set b | b in p.bindings :: BindingLabel(b.trigger))
    + (set q | q in p.presses :: PressLabel(q.trigger))
    + MotionLabels(p.table.motions.Keys)
  }

  function MotionLabels(triggers: set<Trigger>): set<string> {
    (set t | t in triggers :: Describe(t))
    + (set t | t in triggers :: RepeatLabel(t))
    + (set t | t in triggers :: BeforeLabel(t))
    + (set t | t in triggers :: OnceLabel(t))
    + (set t | t in triggers :: AfterLabel(t))
  }

  /** No other label of the program is one of the labels of loop `t`. */
  ghost predicate LabelsApart(p: LiveProgram, t: Trigger) {
    && (forall b :: b in p.bindings ==> BindingLabel(b.trigger) !in LoopLabels(t))
    && (forall q :: q in p.presses ==> PressLabel(q.trigger) !in LoopLabels(t))
    && (forall u :: u in p.table.motions ==> Describe(u) !in LoopLabels(t) && AfterLabel(u) !in LoopLabels(t))
    && (forall u :: u in p.table.motions && u != t ==> LoopLabels(u) !! LoopLabels(t))
  }

  /** Loop `t` is not active and everything it still has in the queue is cancelled. */
  ghost predicate Silent(s: System, t: Trigger) {
    && t !in s.matcher.loops
    && forall run :: run in s.queue.runs && run.triggerLabel in LoopLabels(t) ==> run.state.cancelled
  }

  /** The matcher is in a state that a run of the matcher alone can reach. */
  ghost predicate Reached(table: MotionTable, matcher: Matcher) {
    exists h :: matcher == After(table, IDLE, h)
  }

  /** The invariant; `quiet` names a loop that must stay silent, if any. */
  ghost predicate LiveInv(p: LiveProgram, s: System, quiet: Option<Trigger>) {
    && QueueInv(s.queue)
    && s.queue.active <= ProgramLabels(p)
    && Reached(p.table, s.matcher)
    && (quiet.Some? ==> LabelsApart(p, quiet.value) && Silent(s, quiet.value))
  }

  /** A label that may be scheduled without breaking the silence. */
  ghost predicate Schedulable(p: LiveProgram, triggerLabel: string, quiet: Option<Trigger>) {
    triggerLabel in ProgramLabels(p) && (quiet.Some? ==> triggerLabel !in LoopLabels(quiet.value))
  }

  ghost predicate WellFormed(p: LiveProgram) {
    p.table.Valid()
  }

  // ---- the operations keep it ----

  lemma EnqueueKeeps(
    p: LiveProgram, s: System, triggerLabel: string, definition: Macro, delayMs: nat, clock: nat -> nat, quiet: Option<Trigger>)
    requires LiveInv(p, s, quiet) && Schedulable(p, triggerLabel, quiet)
    ensures LiveInv(p, Enqueue(p, s, triggerLabel, definition, delayMs, clock), quiet)
  {
    hide QueueInv;
    hide ProgramLabels;
    hide LoopLabels;
    hide LabelsApart;
    hide Reached;
    ScheduledKeeps(s.queue, triggerLabel, p.processScoped, definition, delayMs, clock(s.queue.nextId + 1));
  }

  lemma CancelKeepsLive(p: LiveProgram, s: System, hit: LiveRun -> bool, quiet: Option<Trigger>)
    requires LiveInv(p, s, quiet)
    ensures LiveInv(p, s.(queue := Cancel(s.queue, hit)), quiet)
  {
    CancelKeeps(s.queue, hit);
    CancelLabels(s.queue.runs, hit);
    CancelOnly(s.queue.runs, hit);
  }

  /** Cancelling only cancels: a run of the result comes from one with its label, cancelled or hit. */
  lemma CancelOnly(runs: seq<LiveRun>, hit: LiveRun -> bool)
    ensures forall run :: run in CancelRuns(runs, hit) ==>
      exists origin :: origin in runs && run == if hit(origin) then origin.(state := origin.state.Cancel()) else origin
  {
    forall run | run in CancelRuns(runs, hit)
      ensures exists origin :: origin in runs && run == if hit(origin) then origin.(state := origin.state.Cancel()) else origin
    {
      var i :| 0 <= i < |runs| && CancelRuns(runs, hit)[i] == run;
      assert runs[i] in runs;
    }
  }

  lemma ObserveKeeps(p: LiveProgram, s: System, observed: bool, quiet: Option<Trigger>)
    requires LiveInv(p, s, quiet)
    ensures LiveInv(p, Observe(p, s, observed), quiet)
    ensures Observe(p, s, observed).matcher == s.matcher
  {
    CancelKeepsLive(p, s, IsProcessScoped(), quiet);
  }

  /** The labels of motion `t` other than its loop labels can always be scheduled. */
  lemma MotionSchedulable(p: LiveProgram, t: Trigger, quiet: Option<Trigger>)
    requires t in p.table.motions
    requires quiet.Some? ==> LabelsApart(p, quiet.value)
    ensures Schedulable(p, Describe(t), quiet) && Schedulable(p, AfterLabel(t), quiet)
    ensures quiet != Some(t) ==>
      forall l :: l in LoopLabels(t) ==> Schedulable(p, l, quiet)
  {
    assert t in p.table.motions.Keys;
    if quiet.Some? && quiet.value != t {
      assert LoopLabels(t) !! LoopLabels(quiet.value);
    }
  }

  lemma LoopAfterKeeps(p: LiveProgram, s: System, t: Trigger, clock: nat -> nat, quiet: Option<Trigger>)
    requires LiveInv(p, s, quiet)
    ensures LiveInv(p, ScheduleLoopAfter(p, s, t, clock), quiet)
    ensures ScheduleLoopAfter(p, s, t, clock).matcher == s.matcher
  {
    if t in p.table.motions {
      MotionSchedulable(p, t, quiet);
      var motion := p.table.motions[t];
      if motion.loopDefinition.Some? && motion.loopDefinition.value.after.Some? {
        EnqueueKeeps(p, s, AfterLabel(t), motion.loopDefinition.value.after.value, motion.interActionDelayMs, clock, quiet);
      }
    }
  }

  lemma {:induction false} LoopAftersKeep(p: LiveProgram, s: System, triggers: seq<Trigger>, clock: nat -> nat, quiet: Option<Trigger>)
    requires LiveInv(p, s, quiet)
    ensures LiveInv(p, LoopAfters(p, s, triggers, clock), quiet)
    ensures LoopAfters(p, s, triggers, clock).matcher == s.matcher
    decreases |triggers|
  {
    if triggers != [] {
      LoopAfterKeeps(p, s, triggers[0], clock, quiet);
      LoopAftersKeep(p, ScheduleLoopAfter(p, s, triggers[0], clock), triggers[1..], clock, quiet);
    }
  }

  lemma ReachedStep(table: MotionTable, matcher: Matcher, input: Input)
    requires Reached(table, matcher)
    ensures Reached(table, Step(table, matcher, input).0)
  {
    var h :| matcher == After(table, IDLE, h);
    AfterSnoc(table, IDLE, h, input);
    assert Step(table, matcher, input).0 == After(table, IDLE, h + [input]);
  }

  lemma TakeDeactivationKeeps(p: LiveProgram, s: System, clock: nat -> nat, quiet: Option<Trigger>)
    requires LiveInv(p, s, quiet)
    ensures LiveInv(p, TakeDeactivation(p, s, clock), quiet)
    ensures TakeDeactivation(p, s, clock).matcher.loops <= s.matcher.loops
  {
    if s.deactivated {
      ReachedStep(p.table, s.matcher, CancelLoops);
      var s' := s.(deactivated := false, matcher := s.matcher.(loops := {}));
      LoopAftersKeep(p, s', Listed(p.table.order, s.matcher.loops), clock, quiet);
    }
  }

  lemma LoopStartKeeps(p: LiveProgram, s: System, motion: MotionDefinition, clock: nat -> nat, quiet: Option<Trigger>)
    requires LiveInv(p, s, quiet) && motion.trigger in p.table.motions && quiet != Some(motion.trigger)
    ensures LiveInv(p, ScheduleLoopStart(p, s, motion, clock), quiet)
    ensures ScheduleLoopStart(p, s, motion, clock).matcher == s.matcher
  {
    MotionSchedulable(p, motion.trigger, quiet);
    if motion.loopDefinition.Some? {
      var definition := motion.loopDefinition.value;
      match definition.body
      case Once(body) =>
        EnqueueKeeps(p, s, OnceLabel(motion.trigger), Combine(definition.before, body), motion.interActionDelayMs, clock, quiet);
      case Repeat(_, _) =>
        if definition.before.Some? {
          EnqueueKeeps(p, s, BeforeLabel(motion.trigger), definition.before.value, motion.interActionDelayMs, clock, quiet);
        }
    }
  }

  lemma TriggerKeeps(
    p: LiveProgram, s: System, motion: MotionDefinition, startsLoop: bool, focus: Focus, clock: nat -> nat, quiet: Option<Trigger>)
    requires LiveInv(p, s, quiet) && focus.Context? && motion.trigger in p.table.motions
    requires startsLoop ==> quiet != Some(motion.trigger)
    ensures LiveInv(p, ScheduleTrigger(p, s, motion, startsLoop, focus, clock), quiet)
    ensures ScheduleTrigger(p, s, motion, startsLoop, focus, clock).matcher == s.matcher
  {
    hide LiveInv;
    hide Observe;
    hide ScheduleLoopStart;
    ObserveKeeps(p, s, focus.observed, quiet);
    if Allowed(p, focus) {
      var s1 := Observe(p, s, focus.observed);
      var s2 := s1;
      if motion.macroDefinition.Some? {
        assert quiet.Some? ==> LabelsApart(p, quiet.value) by {
          if quiet.Some? {
            QuietApart(p, s, quiet);
          }
        }
        MotionSchedulable(p, motion.trigger, quiet);
        EnqueueKeeps(p, s1, Describe(motion.trigger), motion.macroDefinition.value, motion.interActionDelayMs, clock, quiet);
        s2 := Enqueue(p, s1, Describe(motion.trigger), motion.macroDefinition.value, motion.interActionDelayMs, clock);
      }
      if startsLoop {
        LoopStartKeeps(p, s2, motion, clock, quiet);
      }
    }
  }

  lemma QuietApart(p: LiveProgram, s: System, quiet: Option<Trigger>)
    requires LiveInv(p, s, quiet) && quiet.Some?
    ensures LabelsApart(p, quiet.value)
  {
  }

  lemma ReleaseLoopKeeps(p: LiveProgram, s: System, t: Trigger, clock: nat -> nat, quiet: Option<Trigger>)
    requires LiveInv(p, s, quiet)
    ensures LiveInv(p, ReleaseLoop(p, s, t, clock), quiet)
    ensures ReleaseLoop(p, s, t, clock).matcher == s.matcher
  {
    var s1 := s.(queue := Cancel(s.queue, HasLabel(RepeatLabel(t))));
    var s2 := s1.(queue := Cancel(s1.queue, HasLabel(BeforeLabel(t))));
    var s3 := s2.(queue := Cancel(s2.queue, HasLabel(OnceLabel(t))));
    CancelKeepsLive(p, s, HasLabel(RepeatLabel(t)), quiet);
    CancelKeepsLive(p, s1, HasLabel(BeforeLabel(t)), quiet);
    CancelKeepsLive(p, s2, HasLabel(OnceLabel(t)), quiet);
    LoopAfterKeeps(p, s3, t, clock, quiet);
  }

  lemma RuntimeEventKeeps(p: LiveProgram, s: System, event: Event, focus: Focus, clock: nat -> nat, quiet: Option<Trigger>)
    requires WellFormed(p) && LiveInv(p, s, quiet) && focus.Context?
    requires quiet.Some? ==> event != Triggered(quiet.value, true)
    ensures LiveInv(p, ScheduleRuntimeEvent(p, s, event, focus, clock), quiet)
    ensures ScheduleRuntimeEvent(p, s, event, focus, clock).matcher == s.matcher
  {
    match event
    case Triggered(t, startsLoop) =>
      if t in p.table.motions {
        TriggerKeeps(p, s, p.table.motions[t], startsLoop, focus, clock, quiet);
      }
    case LoopCancelled(t) => ReleaseLoopKeeps(p, s, t, clock, quiet);
    case Discarded(_) =>
  }

  lemma {:induction false} HandleEventsKeep(
    p: LiveProgram, s: System, events: seq<Event>, focus: nat -> Focus, i: nat, clock: nat -> nat, quiet: Option<Trigger>)
    requires WellFormed(p) && LiveInv(p, s, quiet) && i <= |events|
    requires quiet.Some? ==> Triggered(quiet.value, true) !in events
    ensures LiveInv(p, HandleEvents(p, s, events, focus, i, clock).0, quiet)
    decreases |events| - i
  {
    if i < |events| {
      if events[i].Discarded? {
        HandleEventsKeep(p, s, events, focus, i + 1, clock, quiet);
      } else if focus(i).Context? {
        assert events[i] in events;
        RuntimeEventKeeps(p, s, events[i], focus(i), clock, quiet);
        var s' := ScheduleRuntimeEvent(p, s, events[i], focus(i), clock);
        TakeDeactivationKeeps(p, s', clock, quiet);
        HandleEventsKeep(p, TakeDeactivation(p, s', clock), events, focus, i + 1, clock, quiet);
      }
    }
  }

  lemma {:induction false} MatchingPressMember(p: LiveProgram, held: set<Token>, token: Token, i: nat)
    requires i <= |p.presses|
    ensures var r := MatchingPress(p, held, token, i); r.Some? ==> r.value in p.presses
    decreases |p.presses| - i
  {
    if i < |p.presses| {
      MatchingPressMember(p, held, token, i + 1);
    }
  }

  lemma PressSchedulable(p: LiveProgram, s: System, press: PressDefinition, quiet: Option<Trigger>)
    requires LiveInv(p, s, quiet) && press in p.presses
    ensures Schedulable(p, PressLabel(press.trigger), quiet)
  {
  }

  lemma PressDefinitionKeeps(p: LiveProgram, s: System, input: Input, focus: Focus, clock: nat -> nat, quiet: Option<Trigger>)
    requires LiveInv(p, s, quiet)
    ensures LiveInv(p, HandlePressDefinition(p, s, input, focus, clock).0, quiet)
    ensures HandlePressDefinition(p, s, input, focus, clock).0.matcher.loops <= s.matcher.loops
  {
    hide LiveInv;
    if input.Pressed? && focus.Context? {
      MatchingPressMember(p, s.matcher.held, input.token, 0);
      var r := MatchingPress(p, s.matcher.held, input.token, 0);
      if r.Some? {
        var press := r.value;
        ObserveKeeps(p, s, focus.observed, quiet);
        var s1 := Observe(p, s, focus.observed);
        PressSchedulable(p, s, press, quiet);
        if Allowed(p, focus) {
          EnqueueKeeps(p, s1, PressLabel(press.trigger), press.macroDefinition, press.interActionDelayMs, clock, quiet);
        }
        TakeDeactivationKeeps(p, SchedulePress(p, s, press, focus, clock), clock, quiet);
      }
    }
  }

  /** The matcher's own step keeps a silent loop silent unless it starts it again. */
  lemma MatcherStepKeeps(p: LiveProgram, s: System, input: Input, quiet: Option<Trigger>)
    requires WellFormed(p) && LiveInv(p, s, quiet)
    requires quiet.Some? ==> Triggered(quiet.value, true) !in Step(p.table, s.matcher, input).1
    ensures LiveInv(p, s.(matcher := Step(p.table, s.matcher, input).0), quiet)
  {
    ReachedStep(p.table, s.matcher, input);
    if quiet.Some? && input.Pressed? {
      PressLog(p.table, s.matcher, input.token, input.at);
    }
  }

  lemma InputKeeps(
    p: LiveProgram, s: System, input: Input, pressFocus: Focus, focus: nat -> Focus, clock: nat -> nat, quiet: Option<Trigger>)
    requires WellFormed(p) && LiveInv(p, s, quiet)
    requires quiet.Some? ==> Triggered(quiet.value, true) !in Step(p.table, s.matcher, input).1
    ensures LiveInv(p, HandleInput(p, s, input, pressFocus, focus, clock).0, quiet)
  {
    hide LiveInv;
    var (matcher, events) := Step(p.table, s.matcher, input);
    MatcherStepKeeps(p, s, input, quiet);
    PressDefinitionKeeps(p, s.(matcher := matcher), input, pressFocus, clock, quiet);
    var (s', ok) := HandlePressDefinition(p, s.(matcher := matcher), input, pressFocus, clock);
    HandleEventsKeep(p, s', events, focus, 0, clock, quiet);
  }

  lemma {:induction false} FindBindingMember(p: LiveProgram, hotkey: Hotkey, i: nat)
    requires i <= |p.bindings|
    ensures var r := FindBinding(p, hotkey, i); r.Some? ==> r.value in p.bindings
    decreases |p.bindings| - i
  {
    if i < |p.bindings| {
      FindBindingMember(p, hotkey, i + 1);
    }
  }

  lemma ShortcutKeeps(p: LiveProgram, s: System, hotkey: Hotkey, developer: Developer, focus: Focus, clock: nat -> nat, quiet: Option<Trigger>)
    requires LiveInv(p, s, quiet)
    ensures LiveInv(p, HandleShortcut(p, s, hotkey, developer, focus, clock).0, quiet)
  {
    FindBindingMember(p, hotkey, 0);
    var r := FindBinding(p, hotkey, 0);
    if r.Some? && focus.Context? {
      ObserveKeeps(p, s, focus.observed, quiet);
      EnqueueKeeps(p, Observe(p, s, focus.observed), BindingLabel(r.value.trigger), r.value.macroDefinition, 0, clock, quiet);
    }
  }

  lemma RepeatTickKeeps(p: LiveProgram, s: System, motion: MotionDefinition, focus: Focus, clock: nat -> nat, quiet: Option<Trigger>)
    requires LiveInv(p, s, quiet) && focus.Context?
    requires motion.trigger in p.table.motions && quiet != Some(motion.trigger)
    ensures LiveInv(p, RepeatTick(p, s, motion, focus, clock), quiet)
    ensures RepeatTick(p, s, motion, focus, clock).matcher == s.matcher
  {
    SkipKeeps(p, s, RepeatLabel(motion.trigger), quiet);
    if quiet.Some? {
      QuietApart(p, s, quiet);
    }
    hide LiveInv;
    hide Observe;
    hide RepeatSkip;
    ObserveKeeps(p, s, focus.observed, quiet);
    MotionSchedulable(p, motion.trigger, quiet);
    if motion.loopDefinition.Some? && motion.loopDefinition.value.body.Repeat? {
      EnqueueKeeps(p, Observe(p, s, focus.observed), RepeatLabel(motion.trigger),
                   motion.loopDefinition.value.body.tick, motion.interActionDelayMs, clock, quiet);
    }
  }

  lemma SkipKeeps(p: LiveProgram, s: System, triggerLabel: string, quiet: Option<Trigger>)
    requires LiveInv(p, s, quiet)
    ensures LiveInv(p, s.(queue := RepeatSkip(s.queue, triggerLabel)), quiet)
  {
  }

  lemma TicksIrrelevant(p: LiveProgram, s: System, ticks: map<Trigger, nat>, quiet: Option<Trigger>)
    requires LiveInv(p, s, quiet)
    ensures LiveInv(p, s.(ticks := ticks), quiet)
  {
  }

  lemma ScanTickKeeps(p: LiveProgram, s: System, t: Trigger, focus: Focus, now: nat, clock: nat -> nat, quiet: Option<Trigger>)
    requires WellFormed(p) && LiveInv(p, s, quiet)
    ensures LiveInv(p, ScanTick(p, s, t, focus, now, clock).0, quiet)
  {
    if t !in s.matcher.loops {
      TicksIrrelevant(p, s, s.ticks - {t}, quiet);
    } else if t in p.table.motions && focus.Context? {
      assert quiet != Some(t);
      RepeatTickKeeps(p, s, p.table.motions[t], focus, clock, quiet);
      var s1 := RepeatTick(p, s, p.table.motions[t], focus, clock);
      TakeDeactivationKeeps(p, s1, clock, quiet);
      var s2 := TakeDeactivation(p, s1, clock);
      TicksIrrelevant(p, s2, s2.ticks[t := now], quiet);
    }
  }

  lemma {:induction false} ScanTicksKeep(
    p: LiveProgram, s: System, triggers: seq<Trigger>, focus: nat -> Focus, i: nat, now: nat, clock: nat -> nat, quiet: Option<Trigger>)
    requires WellFormed(p) && LiveInv(p, s, quiet) && i <= |triggers|
    ensures LiveInv(p, ScanTicks(p, s, triggers, focus, i, now, clock).0, quiet)
    decreases |triggers| - i
  {
    if i < |triggers| {
      hide LiveInv;
      hide ScanTick;
      ScanTickKeeps(p, s, triggers[i], focus(i), now, clock, quiet);
      ScanTicksKeep(p, ScanTick(p, s, triggers[i], focus(i), now, clock).0, triggers, focus, i + 1, now, clock, quiet);
    }
  }

  /** A drive keeps the invariant, and nothing is emitted for a silent loop. */
  lemma DriveStepKeeps(p: LiveProgram, s: System, now: nat, answers: nat -> Answer, quiet: Option<Trigger>)
    requires LiveInv(p, s, quiet)
    ensures LiveInv(p, s.(queue := Drive(s.queue, now, answers).0), quiet)
    ensures quiet.Some? ==> forall o :: o in Drive(s.queue, now, answers).1 ==>
      o.triggerLabel !in LoopLabels(quiet.value)
  {
    DriveKeeps(s.queue, now, answers);
    var d := DriveRuns(s.queue.runs, now, answers, 0);
    if quiet.Some? {
      DriveSplits(s.queue.runs, now, answers, 0);
      forall run | run in d.kept && run.triggerLabel in LoopLabels(quiet.value) ensures run.state.cancelled {
        var origin := SplitOrigin(s.queue.runs, d.kept, d.gone, run);
      }
      forall o | o in Drive(s.queue, now, answers).1 ensures o.triggerLabel !in LoopLabels(quiet.value) {
        CancelledRunsAreSilent(s.queue, now, answers, o);
      }
    }
  }

  /** Every step keeps the invariant, also one that ends the event loop with an error. */
  lemma {:induction false} LiveStepKeeps(p: LiveProgram, s: System, step: LiveStep, quiet: Option<Trigger>)
    requires WellFormed(p) && LiveInv(p, s, quiet)
    requires quiet.Some? ==> Triggered(quiet.value, true) !in StepEvents(p, s, step)
    ensures LiveInv(p, LiveStepFrom(p, s, step).0, quiet)
    ensures quiet.Some? ==> forall o :: o in LiveStepFrom(p, s, step).1 ==> o.triggerLabel !in LoopLabels(quiet.value)
  {
    hide LiveInv;
    match step
    case InputStep(input, pressFocus, eventFocus, clock) => InputKeeps(p, s, input, pressFocus, eventFocus, clock, quiet);
    case ShortcutStep(hotkey, developer, focus, clock) => ShortcutKeeps(p, s, hotkey, developer, focus, clock, quiet);
    case ScanStep(focus, now, clock) => ScanTicksKeep(p, s, RepeatingMotions(p.table), focus, 0, now, clock, quiet);
    case DriveStep(now, answers) => DriveStepKeeps(p, s, now, answers, quiet);
  }
}

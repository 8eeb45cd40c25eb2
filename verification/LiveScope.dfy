/**
 What the focus decides: out of scope nothing is queued but what comes after a loop, and a focus found
 lost ends every loop (crates/signal-auras-cli/src/runner.rs:2296-2351, 3570-3598, 3747-4314).
*/
module LiveScope {
  import opened Motion
  import opened MotionRuns
  import opened MacroQueue
  import opened LiveRuntime
  import opened LiveInvariants
  import opened LiveHistory
  import opened LiveTicks
  import opened LiveLaws
  import opened LiveAfters
  import opened LiveScans

  // ---- out of scope ----

  /** What is said of the focus in this step, if anything, is that the process is not in it. */
  ghost predicate OutOfScope(p: LiveProgram, focus: nat -> Focus) {
    p.processScoped && forall i: nat :: focus(i).Context? ==> !focus(i).decided
  }

  ghost predicate StepOutOfScope(p: LiveProgram, step: LiveStep) {
    match step
    case InputStep(_, pressFocus, eventFocus, _) =>
      OutOfScope(p, eventFocus) && (pressFocus.Context? ==> !pressFocus.decided)
    case ShortcutStep(_, _, focus, _) => p.processScoped && (focus.Context? ==> !focus.decided)
    case ScanStep(scanFocus, _, _) => OutOfScope(p, scanFocus)
    case DriveStep(_, _) => false
  }

  lemma EventOutOfScope(p: LiveProgram, s: System, event: Event, focus: Focus, clock: nat -> nat, l: string)
    requires NotAfter(p, l) && p.processScoped && focus.Context? && !focus.decided
    ensures Leaves(s.queue, TakeDeactivation(p, ScheduleRuntimeEvent(p, s, event, focus, clock), clock).queue, l)
  {
    hide Observe;
    hide Cancel;
    hide HasLabel;
    hide Suffixed;
    hide IdsUnder;
    hide ScheduleLoopAfter;
    hide TakeDeactivation;
    var s' := ScheduleRuntimeEvent(p, s, event, focus, clock);
    match event {
      case Triggered(_, _) =>
        ObserveLeaves(p, s, focus.observed, l);
      case LoopCancelled(t) =>
        var q1 := Cancel(s.queue, HasLabel(RepeatLabel(t)));
        var q2 := Cancel(q1, HasLabel(BeforeLabel(t)));
        var q3 := Cancel(q2, HasLabel(OnceLabel(t)));
        CancelLeaves(s.queue, HasLabel(RepeatLabel(t)), l);
        CancelLeaves(q1, HasLabel(BeforeLabel(t)), l);
        CancelLeaves(q2, HasLabel(OnceLabel(t)), l);
        LoopAfterLeaves(p, s.(queue := q3), t, clock, l);
      case Discarded(_) =>
    }
    DeactivationLeaves(p, s', clock, l);
  }

  lemma {:induction false} EventsOutOfScope(
    p: LiveProgram, s: System, events: seq<Event>, focus: nat -> Focus, i: nat, clock: nat -> nat, l: string)
    requires NotAfter(p, l) && OutOfScope(p, focus) && i <= |events|
    ensures Leaves(s.queue, HandleEvents(p, s, events, focus, i, clock).0.queue, l)
    decreases |events| - i
  {
    hide ScheduleRuntimeEvent;
    hide TakeDeactivation;
    hide IdsUnder;
    if i < |events| {
      if events[i].Discarded? {
        EventsOutOfScope(p, s, events, focus, i + 1, clock, l);
      } else if focus(i).Context? {
        var s1 := TakeDeactivation(p, ScheduleRuntimeEvent(p, s, events[i], focus(i), clock), clock);
        EventOutOfScope(p, s, events[i], focus(i), clock, l);
        EventsOutOfScope(p, s1, events, focus, i + 1, clock, l);
      }
    }
  }

  lemma PressOutOfScope(p: LiveProgram, s: System, input: Input, focus: Focus, clock: nat -> nat, l: string)
    requires NotAfter(p, l) && p.processScoped && (focus.Context? ==> !focus.decided)
    ensures Leaves(s.queue, HandlePressDefinition(p, s, input, focus, clock).0.queue, l)
  {
    hide Observe;
    hide MatchingPress;
    hide TakeDeactivation;
    hide IdsUnder;
    if focus.Context? {
      ObserveLeaves(p, s, focus.observed, l);
      DeactivationLeaves(p, Observe(p, s, focus.observed), clock, l);
    }
  }

  lemma ScanTickOutOfScope(p: LiveProgram, s: System, t: Trigger, focus: Focus, now: nat, clock: nat -> nat, l: string)
    requires NotAfter(p, l) && p.processScoped && (focus.Context? ==> !focus.decided)
    ensures Leaves(s.queue, ScanTick(p, s, t, focus, now, clock).0.queue, l)
  {
    hide Observe;
    hide Suffixed;
    hide TakeDeactivation;
    hide TickDue;
    hide IdsUnder;
    if focus.Context? && t in p.table.motions {
      var s1 := RepeatTick(p, s, p.table.motions[t], focus, clock);
      ObserveLeaves(p, s, focus.observed, l);
      if s1 != Observe(p, s, focus.observed) {
        SameRunsLeave(s.queue, s1.queue, l);
      }
      DeactivationLeaves(p, s1, clock, l);
    }
  }

  lemma {:induction false} ScanOutOfScope(
    p: LiveProgram, s: System, triggers: seq<Trigger>, focus: nat -> Focus, i: nat, now: nat, clock: nat -> nat, l: string)
    requires NotAfter(p, l) && OutOfScope(p, focus) && i <= |triggers|
    ensures Leaves(s.queue, ScanTicks(p, s, triggers, focus, i, now, clock).0.queue, l)
    decreases |triggers| - i
  {
    hide ScanTick;
    hide IdsUnder;
    if i < |triggers| {
      var (s1, ok) := ScanTick(p, s, triggers[i], focus(i), now, clock);
      ScanTickOutOfScope(p, s, triggers[i], focus(i), now, clock, l);
      if ok {
        ScanOutOfScope(p, s1, triggers, focus, i + 1, now, clock, l);
      }
    }
  }

  /** Out of scope no step queues anything but what comes after an ended loop. */
  lemma {:induction false} OutOfScopeQueuesNothing(p: LiveProgram, s: System, step: LiveStep, l: string)
    requires NotAfter(p, l) && StepOutOfScope(p, step)
    ensures Leaves(s.queue, LiveStepFrom(p, s, step).0.queue, l)
  {
    hide IdsUnder;
    hide HandlePressDefinition;
    hide HandleEvents;
    hide Observe;
    hide ScanTicks;
    hide FindBinding;
    match step
    case InputStep(input, pressFocus, eventFocus, clock) =>
      var (matcher, events) := Step(p.table, s.matcher, input);
      var s1 := HandlePressDefinition(p, s.(matcher := matcher), input, pressFocus, clock).0;
      PressOutOfScope(p, s.(matcher := matcher), input, pressFocus, clock, l);
      EventsOutOfScope(p, s1, events, eventFocus, 0, clock, l);
    case ShortcutStep(hotkey, developer, focus, clock) =>
      if focus.Context? {
        ObserveLeaves(p, s, focus.observed, l);
      }
    case ScanStep(scanFocus, now, clock) =>
      ScanOutOfScope(p, s, RepeatingMotions(p.table), scanFocus, 0, now, clock, l);
    case DriveStep(_, _) =>
  }

  // ---- a focus lost in a step ----

  /** Of what is scheduled only a look at the focus can note a loss, and nothing but what follows ends a loop. */
  lemma ScheduledNotes(p: LiveProgram, s: System, event: Event, focus: Focus, clock: nat -> nat)
    requires WellFormed(p) && focus.Context?
    ensures var s' := ScheduleRuntimeEvent(p, s, event, focus, clock);
      && s'.matcher == s.matcher
      && s'.deactivated == (s.deactivated ||
           (event.Triggered? && event.trigger in p.table.motions && FocusLost(p, s, focus.observed)))
  {
    hide Describe;
    hide Cancel;
    hide HasLabel;
  }

  /** Loops only end while the events of an input are handled. */
  lemma EventsOnlyEnd(p: LiveProgram, s: System, events: seq<Event>, focus: nat -> Focus, i: nat, clock: nat -> nat)
    requires WellFormed(p) && i <= |events|
    ensures HandleEvents(p, s, events, focus, i, clock).0.matcher.loops <= s.matcher.loops
  {
    hide Grown;
    hide HandleEvents;
    HandleEventsMove(p, s, events, focus, i, clock);
  }

  /** A trigger that finds the focus lost ends every active loop, also the one that it has just started. */
  lemma {:induction false} TriggerLossEndsLoops(
    p: LiveProgram, s: System, events: seq<Event>, focus: nat -> Focus, i: nat, clock: nat -> nat)
    requires WellFormed(p) && i < |events| && events[i].Triggered? && events[i].trigger in p.table.motions
    requires focus(i).Context? && FocusLost(p, s, focus(i).observed)
    ensures HandleEvents(p, s, events, focus, i, clock).0.matcher.loops == {}
  {
    hide ScheduleRuntimeEvent;
    hide TakeDeactivation;
    hide FocusLost;
    var s1 := ScheduleRuntimeEvent(p, s, events[i], focus(i), clock);
    ScheduledNotes(p, s, events[i], focus(i), clock);
    DeactivationEndsLoops(p, s1, clock);
    EventsOnlyEnd(p, TakeDeactivation(p, s1, clock), events, focus, i + 1, clock);
  }

  /** So does a press definition. */
  lemma {:induction false} PressLossEndsLoops(p: LiveProgram, s: System, input: Input, k: nat, focus: Focus, clock: nat -> nat)
    requires input.Pressed? && FirstPressFor(p, s.matcher.held, input.token, 0, k)
    requires focus.Context? && FocusLost(p, s, focus.observed)
    ensures HandlePressDefinition(p, s, input, focus, clock).0.matcher.loops == {}
  {
    hide DescribeToken;
    hide TakeDeactivation;
    hide Cancel;
    MatchingPressFirst(p, s.matcher.held, input.token, 0, k);
    DeactivationEndsLoops(p, SchedulePress(p, s, p.presses[k], focus, clock), clock);
  }

  /** And so does a due tick that looks at the focus. */
  lemma {:induction false} TickLossEndsLoops(p: LiveProgram, s: System, t: Trigger, focus: Focus, now: nat, clock: nat -> nat)
    requires WellFormed(p) && Repeats(p, t) && TickReady(p, s, t, now)
    requires focus.Context? && FocusLost(p, s, focus.observed)
    ensures ScanTick(p, s, t, focus, now, clock).0.matcher.loops == {}
  {
    hide Suffixed;
    hide TakeDeactivation;
    hide Cancel;
    DeactivationEndsLoops(p, RepeatTick(p, s, p.table.motions[t], focus, clock), clock);
  }

  lemma {:induction false} EventsTakeLoss(
    p: LiveProgram, s: System, events: seq<Event>, focus: nat -> Focus, i: nat, clock: nat -> nat)
    requires i <= |events| && !s.deactivated
    ensures !HandleEvents(p, s, events, focus, i, clock).0.deactivated
    decreases |events| - i
  {
    hide ScheduleRuntimeEvent;
    hide TakeDeactivation;
    if i < |events| {
      if events[i].Discarded? {
        EventsTakeLoss(p, s, events, focus, i + 1, clock);
      } else if focus(i).Context? {
        var s1 := ScheduleRuntimeEvent(p, s, events[i], focus(i), clock);
        DeactivationEndsLoops(p, s1, clock);
        EventsTakeLoss(p, TakeDeactivation(p, s1, clock), events, focus, i + 1, clock);
      }
    }
  }

  lemma {:induction false} ScanTakesLoss(
    p: LiveProgram, s: System, triggers: seq<Trigger>, focus: nat -> Focus, i: nat, now: nat, clock: nat -> nat)
    requires i <= |triggers| && !s.deactivated
    ensures !ScanTicks(p, s, triggers, focus, i, now, clock).0.deactivated
    decreases |triggers| - i
  {
    hide TakeDeactivation;
    hide RepeatTick;
    hide TickDue;
    if i < |triggers| {
      var t := triggers[i];
      if t in p.table.motions && focus(i).Context? {
        DeactivationEndsLoops(p, RepeatTick(p, s, p.table.motions[t], focus(i), clock), clock);
      }
      ScanTakesLoss(p, ScanTick(p, s, t, focus(i), now, clock).0, triggers, focus, i + 1, now, clock);
    }
  }

  /** Inputs and scans see to a loss of focus before they end; only a shortcut leaves one to a later step. */
  lemma {:induction false} LossIsTaken(p: LiveProgram, s: System, step: LiveStep)
    requires !step.ShortcutStep? && !s.deactivated
    ensures !LiveStepFrom(p, s, step).0.deactivated
  {
    hide HandleEvents;
    hide ScanTicks;
    hide TakeDeactivation;
    hide SchedulePress;
    hide MatchingPress;
    match step
    case InputStep(input, pressFocus, eventFocus, clock) =>
      var (matcher, events) := Step(p.table, s.matcher, input);
      var s1 := s.(matcher := matcher);
      if input.Pressed? && pressFocus.Context? {
        var press := MatchingPress(p, matcher.held, input.token, 0);
        if press.Some? {
          DeactivationEndsLoops(p, SchedulePress(p, s1, press.value, pressFocus, clock), clock);
        }
      }
      EventsTakeLoss(p, HandlePressDefinition(p, s1, input, pressFocus, clock).0, events, eventFocus, 0, clock);
    case ScanStep(focus, now, clock) =>
      ScanTakesLoss(p, s, RepeatingMotions(p.table), focus, 0, now, clock);
    case DriveStep(_, _) =>
  }

  /** A shortcut that looks at the focus notes a loss and leaves the loops as they are. */
  lemma {:induction false} ShortcutLeavesLoops(p: LiveProgram, s: System, k: nat, focus: Focus, clock: nat -> nat)
    requires k < |p.bindings| && (forall j :: 0 <= j < k ==> p.bindings[j].trigger != p.bindings[k].trigger)
    requires focus.Context?
    ensures var s' := HandleShortcut(p, s, p.bindings[k].trigger, NotTheirs, focus, clock).0;
      && s'.matcher == s.matcher && s'.ticks == s.ticks
      && s'.deactivated == (s.deactivated || FocusLost(p, s, focus.observed))
  {
    hide Cancel;
    FindBindingFirst(p, p.bindings[k].trigger, 0, k);
  }
}

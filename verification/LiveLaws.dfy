/**
 What an input or a shortcut must queue in the live pipeline, when it is handled to its end, and when it
 is consumed (crates/signal-auras-cli/src/runner.rs:3111-3154, 3570-3598, 3747-4248).
*/
module LiveLaws {
  import opened Wrappers
  import opened MacroPlan
  import opened Motion
  import opened MotionRuns
  import opened Configuration
  import opened MacroQueue
  import opened LiveRuntime
  import opened LiveInvariants

  /** The run that queueing this macro under this id makes: not cancelled, and nothing emitted yet. */
  function FreshRun(p: LiveProgram, id: nat, l: string, actions: Macro, delayMs: nat, clock: nat -> nat): LiveRun {
    LiveRun(l, p.processScoped, NewRun(id, actions, delayMs, clock(id)))
  }

  /** A process in focus, or no process asked for. */
  ghost predicate InScope(p: LiveProgram, focus: Focus) {
    focus.Context? && (p.processScoped ==> focus.decided)
  }

  // ---- labels of different kinds ----

  /** The labels of a motion, spelled out, and that those of different kinds differ by their ends. */
  lemma KindsApart(t: Trigger, u: Trigger)
    ensures RepeatLabel(t) == Describe(t) + " repeat"
    ensures BeforeLabel(t) == Describe(t) + " loop_before"
    ensures OnceLabel(t) == Describe(t) + " loop_once"
    ensures AfterLabel(t) == Describe(t) + " loop_after"
    ensures Describe(t) !in {OnceLabel(t), BeforeLabel(t)}
    ensures AfterLabel(u) !in LoopLabels(t) && BeforeLabel(u) !in {RepeatLabel(t), OnceLabel(t)} && OnceLabel(u) != RepeatLabel(t)
  {
    hide Describe;
    var d, e := Describe(t), Describe(u);
    assert d + " " + "repeat" == d + " repeat" && d + " " + "loop_before" == d + " loop_before";
    assert d + " " + "loop_once" == d + " loop_once" && d + " " + "loop_after" == d + " loop_after";
    var r, b, o := RepeatLabel(t), BeforeLabel(t), OnceLabel(t);
    var a', b', o' := AfterLabel(u), BeforeLabel(u), OnceLabel(u);
    assert r[|r| - 1] == 't' && b[|b| - 1] == 'e' && o[|o| - 1] == 'e';
    assert a'[|a'| - 1] == 'r' && b'[|b'| - 1] == 'e' && o'[|o'| - 1] == 'e';
    assert b'[|b'| - 2] == 'r' && o[|o| - 2] == 'c';
  }

  // ---- a macro queued ----

  lemma Enqueued(p: LiveProgram, s: System, l: string, definition: Macro, delayMs: nat, clock: nat -> nat)
    requires l !in s.queue.active
    ensures var (q, q') := (s.queue, Enqueue(p, s, l, definition, delayMs, clock).queue);
      && q'.runs == q.runs + [FreshRun(p, q.nextId + 1, l, definition, delayMs, clock)]
      && q'.active == q.active + {l} && q'.nextId == q.nextId + 1
  {
  }

  /** A run to be queued under this label; a label that is taken lets none in. */
  function Admitted(p: LiveProgram, q: Queue, id: nat, l: string, actions: Macro, delayMs: nat, clock: nat -> nat): seq<LiveRun> {
    if l in q.active then [] else [FreshRun(p, id, l, actions, delayMs, clock)]
  }

  /** What the motion's own macro is to queue. */
  function MacroRuns(p: LiveProgram, q: Queue, t: Trigger, motion: MotionDefinition, clock: nat -> nat): seq<LiveRun> {
    if motion.macroDefinition.None? then []
    else Admitted(p, q, q.nextId + 1, Describe(t), motion.macroDefinition.value, motion.interActionDelayMs, clock)
  }

  /**
   What starting the loop of `t` is to queue, from this id on: the actions before it followed by those of
   its body, or, for one that repeats, the actions before it if there are any.
  */
  function LoopRuns(p: LiveProgram, q: Queue, t: Trigger, motion: MotionDefinition, id: nat, clock: nat -> nat): seq<LiveRun> {
    match motion.loopDefinition
    case None => []
    case Some(loop) =>
      match loop.body
      case Once(body) =>
        var before: seq<Action> := if loop.before.Some? then loop.before.value else [];
        Admitted(p, q, id, Describe(t) + " loop_once", before + body, motion.interActionDelayMs, clock)
      case Repeat(_, _) =>
        if loop.before.None? then []
        else Admitted(p, q, id, Describe(t) + " loop_before", loop.before.value, motion.interActionDelayMs, clock)
  }

  /** Starting a loop queues exactly that. */
  lemma LoopStartQueues(p: LiveProgram, s: System, t: Trigger, motion: MotionDefinition, clock: nat -> nat)
    requires motion.trigger == t
    ensures ScheduleLoopStart(p, s, motion, clock).queue.runs ==
      s.queue.runs + LoopRuns(p, s.queue, t, motion, s.queue.nextId + 1, clock)
  {
    hide Describe;
    KindsApart(t, t);
    assert s.queue.runs + [] == s.queue.runs;
    if motion.loopDefinition.Some? && motion.loopDefinition.value.body.Once? {
      var body := motion.loopDefinition.value.body.body;
      assert [] + body == body;
    }
  }

  /** A trigger in scope queues exactly its macro and, when it starts its loop, what that is to queue. */
  lemma {:induction false} TriggerQueues(
    p: LiveProgram, s: System, t: Trigger, startsLoop: bool, focus: Focus, clock: nat -> nat)
    requires WellFormed(p) && t in p.table.motions && InScope(p, focus)
    ensures var motion, q := p.table.motions[t], s.queue;
      var own := MacroRuns(p, q, t, motion, clock);
      ScheduleRuntimeEvent(p, s, Triggered(t, startsLoop), focus, clock).queue.runs ==
      Observe(p, s, focus.observed).queue.runs
      + own + if startsLoop then LoopRuns(p, q, t, motion, q.nextId + 1 + |own|, clock) else []
  {
    hide Describe;
    hide ScheduleLoopStart;
    hide LoopRuns;
    hide Observe;
    var motion, s1 := p.table.motions[t], Observe(p, s, focus.observed);
    ObserveKeepsLabels(p, s, focus.observed);
    var s2 := s1;
    if motion.macroDefinition.Some? {
      s2 := Enqueue(p, s1, Describe(t), motion.macroDefinition.value, motion.interActionDelayMs, clock);
    }
    var own := MacroRuns(p, s.queue, t, motion, clock);
    assert s2.queue.runs == s1.queue.runs + own && s2.queue.nextId == s.queue.nextId + |own|;
    if startsLoop {
      LoopStartQueues(p, s2, t, motion, clock);
      OwnLabelAside(p, s.queue, s2.queue, t, motion, s2.queue.nextId + 1, clock);
    }
  }

  lemma OwnLabelAside(
    p: LiveProgram, q: Queue, q': Queue, t: Trigger, motion: MotionDefinition, id: nat, clock: nat -> nat)
    requires q.active <= q'.active <= q.active + {Describe(t)}
    ensures LoopRuns(p, q', t, motion, id, clock) == LoopRuns(p, q, t, motion, id, clock)
  {
    hide Describe;
    KindsApart(t, t);
  }

  lemma ObserveKeepsLabels(p: LiveProgram, s: System, observed: bool)
    ensures var q' := Observe(p, s, observed).queue;
      q'.active == s.queue.active && q'.nextId == s.queue.nextId && q'.skips == s.queue.skips
    ensures var s' := Observe(p, s, observed);
      s'.matcher == s.matcher && s'.ticks == s.ticks
  {
  }

  /** A trigger out of scope queues nothing and starts nothing. */
  lemma TriggerOutOfScope(p: LiveProgram, s: System, t: Trigger, startsLoop: bool, focus: Focus, clock: nat -> nat)
    requires t in p.table.motions && focus.Context? && !InScope(p, focus)
    ensures ScheduleRuntimeEvent(p, s, Triggered(t, startsLoop), focus, clock) == Observe(p, s, focus.observed)
  {
  }

  // ---- the focus ----

  /** The process scope loses the focus with this look at it. */
  ghost predicate FocusLost(p: LiveProgram, s: System, observed: bool) {
    p.processScoped && s.focusActive == Some(true) && !observed
  }

  /** A lost focus is noted and cancels exactly the process-scoped runs; nothing else about the queue changes. */
  lemma {:induction false} ObserveMeaning(p: LiveProgram, s: System, observed: bool)
    ensures var s' := Observe(p, s, observed);
      && s'.deactivated == (s.deactivated || FocusLost(p, s, observed))
      && (p.processScoped ==> s'.focusActive == Some(observed))
      && |s'.queue.runs| == |s.queue.runs|
      && forall i :: 0 <= i < |s.queue.runs| ==>
           && s'.queue.runs[i].triggerLabel == s.queue.runs[i].triggerLabel
           && s'.queue.runs[i].state ==
              if FocusLost(p, s, observed) && s.queue.runs[i].processScoped
              then s.queue.runs[i].state.(cancelled := true) else s.queue.runs[i].state
  {
  }

  // ---- runs stay ----

  ghost predicate KeepsRuns(s: System, s': System) {
    forall run :: run in s.queue.runs ==> run in s'.queue.runs
  }

  lemma EnqueueKeepsRuns(p: LiveProgram, s: System, l: string, definition: Macro, delayMs: nat, clock: nat -> nat)
    ensures KeepsRuns(s, Enqueue(p, s, l, definition, delayMs, clock))
  {
  }

  lemma {:induction false} LoopAftersKeepRuns(p: LiveProgram, s: System, triggers: seq<Trigger>, clock: nat -> nat)
    ensures KeepsRuns(s, LoopAfters(p, s, triggers, clock))
    decreases |triggers|
  {
    hide Describe;
    if triggers != [] {
      var s1 := ScheduleLoopAfter(p, s, triggers[0], clock);
      assert KeepsRuns(s, s1);
      LoopAftersKeepRuns(p, s1, triggers[1..], clock);
    }
  }

  lemma DeactivationKeepsRuns(p: LiveProgram, s: System, clock: nat -> nat)
    ensures KeepsRuns(s, TakeDeactivation(p, s, clock))
  {
    hide LoopAfters;
    LoopAftersKeepRuns(p, s.(deactivated := false, matcher := s.matcher.(loops := {})),
                       Listed(p.table.order, s.matcher.loops), clock);
  }

  // ---- press definitions and bindings ----

  /** Press definition `k` is the first from `i` on with this token whose guard is held. */
  ghost predicate FirstPressFor(p: LiveProgram, held: set<Token>, token: Token, i: int, k: int) {
    && 0 <= i <= k < |p.presses|
    && p.presses[k].trigger == token && AllHeld(p.presses[k].requiresHeld, held)
    && forall j :: i <= j < k ==> p.presses[j].trigger != token || !AllHeld(p.presses[j].requiresHeld, held)
  }

  lemma {:induction false} MatchingPressFirst(p: LiveProgram, held: set<Token>, token: Token, i: nat, k: nat)
    requires FirstPressFor(p, held, token, i, k)
    ensures MatchingPress(p, held, token, i) == Some(p.presses[k])
    decreases k - i
  {
    if i < k {
      MatchingPressFirst(p, held, token, i + 1, k);
    }
  }

  /** When no press definition matches, none is found. */
  lemma {:induction false} NoPressMatches(p: LiveProgram, held: set<Token>, token: Token, i: nat) returns (k: nat)
    requires i <= |p.presses|
    ensures MatchingPress(p, held, token, i).None? || FirstPressFor(p, held, token, i, k)
    decreases |p.presses| - i
  {
    k := i;
    if i < |p.presses| && !(p.presses[i].trigger == token && AllHeld(p.presses[i].requiresHeld, held)) {
      k := NoPressMatches(p, held, token, i + 1);
    }
  }

  /** The first press definition that the press matches has its macro queued, when it is in scope and its label is free. */
  lemma {:induction false} PressQueues(p: LiveProgram, s: System, input: Input, k: nat, focus: Focus, clock: nat -> nat)
    requires input.Pressed? && FirstPressFor(p, s.matcher.held, input.token, 0, k)
    requires InScope(p, focus) && "press " + DescribeToken(input.token) !in s.queue.active
    ensures var (s', ok) := HandlePressDefinition(p, s, input, focus, clock);
      && ok
      && FreshRun(p, s.queue.nextId + 1, "press " + DescribeToken(input.token), p.presses[k].macroDefinition,
                  p.presses[k].interActionDelayMs, clock) in s'.queue.runs
  {
    hide DescribeToken;
    hide TakeDeactivation;
    hide Observe;
    MatchingPressFirst(p, s.matcher.held, input.token, 0, k);
    ObserveKeepsLabels(p, s, focus.observed);
    var s1 := Observe(p, s, focus.observed);
    Enqueued(p, s1, PressLabel(input.token), p.presses[k].macroDefinition, p.presses[k].interActionDelayMs, clock);
    DeactivationKeepsRuns(p, SchedulePress(p, s, p.presses[k], focus, clock), clock);
  }

  /** An input that no press definition matches is none of their business. */
  lemma {:induction false} PressIgnored(p: LiveProgram, s: System, input: Input, focus: Focus, clock: nat -> nat)
    requires input.Pressed? ==> forall k :: !FirstPressFor(p, s.matcher.held, input.token, 0, k)
    ensures HandlePressDefinition(p, s, input, focus, clock) == (s, true)
  {
    if input.Pressed? {
      var k := NoPressMatches(p, s.matcher.held, input.token, 0);
    }
  }

  lemma {:induction false} FindBindingFirst(p: LiveProgram, hotkey: Hotkey, i: nat, k: nat)
    requires i <= k < |p.bindings| && p.bindings[k].trigger == hotkey
    requires forall j :: i <= j < k ==> p.bindings[j].trigger != hotkey
    ensures FindBinding(p, hotkey, i) == Some(p.bindings[k])
    decreases k - i
  {
    if i < k {
      FindBindingFirst(p, hotkey, i + 1, k);
    }
  }

  /** The first binding of a hotkey has its macro queued, with no delay between its actions. */
  lemma {:induction false} ShortcutQueues(p: LiveProgram, s: System, k: nat, focus: Focus, clock: nat -> nat)
    requires k < |p.bindings| && forall j :: 0 <= j < k ==> p.bindings[j].trigger != p.bindings[k].trigger
    requires InScope(p, focus) && p.bindings[k].trigger.name !in s.queue.active
    ensures var (s', ok) := HandleShortcut(p, s, p.bindings[k].trigger, NotTheirs, focus, clock);
      && ok
      && FreshRun(p, s.queue.nextId + 1, p.bindings[k].trigger.name, p.bindings[k].macroDefinition, 0, clock) in s'.queue.runs
  {
    hide Observe;
    FindBindingFirst(p, p.bindings[k].trigger, 0, k);
    ObserveKeepsLabels(p, s, focus.observed);
    Enqueued(p, Observe(p, s, focus.observed), BindingLabel(p.bindings[k].trigger), p.bindings[k].macroDefinition, 0, clock);
  }

  lemma {:induction false} NoBindingFound(p: LiveProgram, hotkey: Hotkey, i: nat)
    requires i <= |p.bindings| && forall j :: i <= j < |p.bindings| ==> p.bindings[j].trigger != hotkey
    ensures FindBinding(p, hotkey, i).None?
    decreases |p.bindings| - i
  {
    if i < |p.bindings| {
      NoBindingFound(p, hotkey, i + 1);
    }
  }

  /** A shortcut that is bound to nothing, or that the developer diagnostics deal with, changes nothing. */
  lemma {:induction false} ShortcutIgnored(
    p: LiveProgram, s: System, hotkey: Hotkey, developer: Developer, focus: Focus, clock: nat -> nat)
    requires !developer.NotTheirs? || forall b :: b in p.bindings ==> b.trigger != hotkey
    ensures HandleShortcut(p, s, hotkey, developer, focus, clock) == (s, !developer.Broke?)
  {
    if developer.NotTheirs? {
      NoBindingFound(p, hotkey, 0);
    }
  }

  /** A shortcut that is bound and left to the bindings needs the focus to be known. */
  lemma {:induction false} ShortcutHandledIff(
    p: LiveProgram, s: System, hotkey: Hotkey, developer: Developer, focus: Focus, clock: nat -> nat)
    ensures HandleShortcut(p, s, hotkey, developer, focus, clock).1 <==>
      !developer.Broke? && (developer.NotTheirs? && (exists b :: b in p.bindings && b.trigger == hotkey) ==> focus.Context?)
  {
    if b :| b in p.bindings && b.trigger == hotkey {
      var k := FirstBinding(p, hotkey, 0);
      FindBindingFirst(p, hotkey, 0, k);
    } else {
      NoBindingFound(p, hotkey, 0);
    }
  }

  lemma {:induction false} FirstBinding(p: LiveProgram, hotkey: Hotkey, i: nat) returns (k: nat)
    requires i <= |p.bindings| && exists b :: b in p.bindings[i..] && b.trigger == hotkey
    ensures i <= k < |p.bindings| && p.bindings[k].trigger == hotkey
    ensures forall j :: i <= j < k ==> p.bindings[j].trigger != hotkey
    decreases |p.bindings| - i
  {
    k := i;
    if p.bindings[i].trigger != hotkey {
      assert p.bindings[i..] == [p.bindings[i]] + p.bindings[i + 1..];
      k := FirstBinding(p, hotkey, i + 1);
    }
  }

  // ---- whether an input is handled to its end, and consumed ----

  /** The events are all handled exactly when each query of the focus that they need is answered. */
  lemma {:induction false} EventsHandledIff(
    p: LiveProgram, s: System, events: seq<Event>, focus: nat -> Focus, i: nat, clock: nat -> nat)
    requires i <= |events|
    ensures HandleEvents(p, s, events, focus, i, clock).1 <==>
      forall j :: i <= j < |events| && !events[j].Discarded? ==> focus(j).Context?
    decreases |events| - i
  {
    hide ScheduleRuntimeEvent;
    hide TakeDeactivation;
    if i < |events| {
      if events[i].Discarded? {
        EventsHandledIff(p, s, events, focus, i + 1, clock);
      } else if focus(i).Context? {
        var s1 := TakeDeactivation(p, ScheduleRuntimeEvent(p, s, events[i], focus(i), clock), clock);
        EventsHandledIff(p, s1, events, focus, i + 1, clock);
      }
    }
  }

  /** A step with an input goes well exactly when each query of the focus that it needs is answered. */
  lemma {:induction false} InputHandledIff(p: LiveProgram, s: System, step: LiveStep)
    requires step.InputStep?
    ensures var held, events := Step(p.table, s.matcher, step.input).0.held, StepEvents(p, s, step);
      LiveStepFrom(p, s, step).2 <==>
        (step.input.Pressed? && (exists k :: FirstPressFor(p, held, step.input.token, 0, k)) ==> step.pressFocus.Context?)
        && forall j :: 0 <= j < |events| && !events[j].Discarded? ==> step.eventFocus(j).Context?
  {
    hide Step;
    hide HandleEvents;
    hide MatchingPress;
    hide TakeDeactivation;
    hide SchedulePress;
    var (matcher, events) := Step(p.table, s.matcher, step.input);
    var s1 := HandlePressDefinition(p, s.(matcher := matcher), step.input, step.pressFocus, step.clock).0;
    EventsHandledIff(p, s1, events, step.eventFocus, 0, step.clock);
    if step.input.Pressed? {
      var k := NoPressMatches(p, matcher.held, step.input.token, 0);
      forall k' | FirstPressFor(p, matcher.held, step.input.token, 0, k')
        ensures MatchingPress(p, matcher.held, step.input.token, 0).Some?
      {
        MatchingPressFirst(p, matcher.held, step.input.token, 0, k');
      }
    }
  }

  /** A release handled to its end is consumed exactly when it ends a loop, in scope or not. */
  lemma {:induction false} ReleaseConsumedIff(p: LiveProgram, s: System, step: LiveStep)
    requires step.InputStep? && step.input.Released? && LiveStepFrom(p, s, step).2
    ensures InputConsumed(p, s, step.input, step.pressFocus, step.eventFocus) <==>
      exists t :: LoopCancelled(t) in StepEvents(p, s, step)
  {
    hide HandleEvents;
    hide Release;
    var (matcher, events) := Step(p.table, s.matcher, step.input);
    ReleaseEvents(p.table, s.matcher, step.input.token);
    EventsHandledIff(p, s.(matcher := matcher), events, step.eventFocus, 0, step.clock);
    if t :| LoopCancelled(t) in events {
      var i :| 0 <= i < |events| && events[i] == LoopCancelled(t);
      assert EventConsumed(p, events[i], step.eventFocus(i));
    }
  }

  /**
   A press is consumed exactly when the first press definition that it matches is in scope and meant to
   consume it, or when it triggers a motion in scope.
  */
  lemma {:induction false} PressConsumedIff(p: LiveProgram, s: System, step: LiveStep)
    requires WellFormed(p) && step.InputStep? && step.input.Pressed?
    ensures var held, events := s.matcher.held + {step.input.token}, StepEvents(p, s, step);
      InputConsumed(p, s, step.input, step.pressFocus, step.eventFocus) <==>
        ((exists k :: FirstPressFor(p, held, step.input.token, 0, k) && p.presses[k].mode.Consume?
            && InScope(p, step.pressFocus))
         || exists i :: 0 <= i < |events| && events[i].Triggered? && InScope(p, step.eventFocus(i)))
  {
    hide Press;
    hide MatchingPress;
    var (matcher, events) := Step(p.table, s.matcher, step.input);
    PressEvents(p.table, s.matcher, step.input.token, step.input.at);
    var k := NoPressMatches(p, matcher.held, step.input.token, 0);
    forall k' | FirstPressFor(p, matcher.held, step.input.token, 0, k')
      ensures MatchingPress(p, matcher.held, step.input.token, 0) == Some(p.presses[k'])
    {
      MatchingPressFirst(p, matcher.held, step.input.token, 0, k');
    }
    forall i | 0 <= i < |events| && step.eventFocus(i).Context?
      ensures EventConsumed(p, events[i], step.eventFocus(i)) <==> events[i].Triggered? && InScope(p, step.eventFocus(i))
    {
      assert events[i] in events;
    }
  }

  lemma PressEvents(table: MotionTable, s: Matcher, token: Token, at: nat)
    requires table.Valid()
    ensures Press(table, s, token, at).0.held == s.held + {token}
    ensures forall e :: e in Press(table, s, token, at).1 ==> !e.LoopCancelled? && (e.Triggered? ==> e.trigger in table.motions)
  {
  }

  lemma ReleaseEvents(table: MotionTable, s: Matcher, token: Token)
    ensures forall e :: e in Release(table, s, token).1 ==> !e.Triggered?
  {
  }
}

/**
 What a step of the live pipeline may do to the matcher and to the queue, whatever the step: besides
 the matcher's own step it can only end the loops; runs are only added, as configured, or cancelled.
*/
module LiveHistory {
  import opened Wrappers
  import opened MacroPlan
  import opened Motion
  import opened MotionRuns
  import opened Configuration
  import opened MacroQueue
  import opened LiveRuntime
  import opened LiveInvariants

  // ---- the macros a program can queue ----

  /** The macro that motion `t` queues under this label, and its delay between actions. */
  ghost predicate ConfiguredByMotion(t: Trigger, motion: MotionDefinition, l: string, definition: Macro, delayMs: nat) {
    && delayMs == motion.interActionDelayMs
    && (|| (l == Describe(t) && motion.macroDefinition == Some(definition))
        || (motion.loopDefinition.Some? && ConfiguredByLoop(t, motion.loopDefinition.value, l, definition)))
  }

  ghost predicate ConfiguredByLoop(t: Trigger, loop: LoopDefinition, l: string, definition: Macro) {
    || (l == AfterLabel(t) && loop.after == Some(definition))
    || (l == OnceLabel(t) && loop.body.Once?
        && definition == (if loop.before.Some? then loop.before.value + loop.body.body else loop.body.body))
    || (l == BeforeLabel(t) && loop.body.Repeat? && loop.before == Some(definition))
    || (l == RepeatLabel(t) && loop.body.Repeat? && definition == loop.body.tick)
  }

  /** The program configures this macro under this label. */
  ghost predicate Configured(p: LiveProgram, l: string, definition: Macro, delayMs: nat) {
    || (exists b :: b in p.bindings && l == BindingLabel(b.trigger) && definition == b.macroDefinition && delayMs == 0)
    || (exists q :: q in p.presses && l == PressLabel(q.trigger) && definition == q.macroDefinition
          && delayMs == q.interActionDelayMs)
    || (exists t :: t in p.table.motions && ConfiguredByMotion(t, p.table.motions[t], l, definition, delayMs))
  }

  // ---- what may change ----

  /** The same run, perhaps cancelled since. */
  ghost predicate SameOrCancelled(run: LiveRun, run': LiveRun) {
    run' == run || run' == run.(state := run.state.Cancel())
  }

  /** The run was queued at `clock`, for a configured macro, and perhaps cancelled since. */
  ghost predicate Queued(p: LiveProgram, run: LiveRun, definition: Macro, delayMs: nat, clock: nat -> nat) {
    && Configured(p, run.triggerLabel, definition, delayMs)
    && SameOrCancelled(run.(state := NewRun(run.state.id, definition, delayMs, clock(run.state.id))), run)
  }

  ghost predicate IsNew(p: LiveProgram, nextId: nat, run: LiveRun, clock: nat -> nat) {
    run.state.id > nextId && exists definition, delayMs :: Queued(p, run, definition, delayMs, clock)
  }

  ghost predicate ComesFrom(runs: seq<LiveRun>, run': LiveRun) {
    exists run :: run in runs && SameOrCancelled(run, run')
  }

  ghost predicate LeadsTo(run: LiveRun, runs': seq<LiveRun>) {
    exists run' :: run' in runs' && SameOrCancelled(run, run')
  }

  ghost predicate HasId(runs: seq<LiveRun>, id: nat) {
    exists run :: run in runs && run.state.id == id
  }

  /** From `q` to `q'` runs are only cancelled, or added as configured, with the next ids. */
  ghost predicate Grown(p: LiveProgram, q: Queue, q': Queue, clock: nat -> nat) {
    && q.nextId <= q'.nextId
    && (forall run' :: run' in q'.runs ==> ComesFrom(q.runs, run') || IsNew(p, q.nextId, run', clock))
    && (forall run :: run in q.runs ==> LeadsTo(run, q'.runs))
    && (forall id :: q.nextId < id <= q'.nextId ==> HasId(q'.runs, id))
  }

  /** Such a change of the system; of the matcher, only the loops may have been ended. */
  ghost predicate Shifts(p: LiveProgram, s: System, s': System, clock: nat -> nat) {
    && (s'.matcher == s.matcher || s'.matcher == s.matcher.(loops := {}))
    && Grown(p, s.queue, s'.queue, clock)
  }

  /** Such a change that leaves the repeat ticks alone. */
  ghost predicate Moves(p: LiveProgram, s: System, s': System, clock: nat -> nat) {
    Shifts(p, s, s', clock) && s'.ticks == s.ticks
  }

  lemma GrownSame(p: LiveProgram, q: Queue, q': Queue, clock: nat -> nat)
    requires q'.runs == q.runs && q'.nextId == q.nextId
    ensures Grown(p, q, q', clock)
  {
    forall run | run in q.runs ensures ComesFrom(q.runs, run) && LeadsTo(run, q.runs) {
      assert SameOrCancelled(run, run);
    }
  }

  lemma ComesThrough(a: LiveRun, b: LiveRun, c: LiveRun)
    requires SameOrCancelled(a, b) && SameOrCancelled(b, c)
    ensures SameOrCancelled(a, c) && c.state.id == a.state.id
  {
  }

  lemma NewThrough(p: LiveProgram, nextId: nat, run: LiveRun, run': LiveRun, clock: nat -> nat)
    requires IsNew(p, nextId, run, clock) && SameOrCancelled(run, run')
    ensures IsNew(p, nextId, run', clock)
  {
    var definition, delayMs :| Queued(p, run, definition, delayMs, clock);
    assert Queued(p, run', definition, delayMs, clock);
  }

  lemma LaterIsNew(p: LiveProgram, nextId: nat, later: nat, run: LiveRun, clock: nat -> nat)
    requires nextId <= later && IsNew(p, later, run, clock)
    ensures IsNew(p, nextId, run, clock)
  {
  }

  lemma OriginThrough(p: LiveProgram, a: Queue, b: Queue, clock: nat -> nat, run: LiveRun)
    requires Grown(p, a, b, clock)
    requires ComesFrom(b.runs, run) || IsNew(p, b.nextId, run, clock)
    ensures ComesFrom(a.runs, run) || IsNew(p, a.nextId, run, clock)
  {
    hide IsNew;
    hide SameOrCancelled;
    if ComesFrom(b.runs, run) {
      var middle :| middle in b.runs && SameOrCancelled(middle, run);
      if ComesFrom(a.runs, middle) {
        var first :| first in a.runs && SameOrCancelled(first, middle);
        ComesThrough(first, middle, run);
      } else {
        NewThrough(p, a.nextId, middle, run, clock);
      }
    } else {
      LaterIsNew(p, a.nextId, b.nextId, run, clock);
    }
  }

  lemma GrownThrough(p: LiveProgram, a: Queue, b: Queue, c: Queue, clock: nat -> nat)
    requires Grown(p, a, b, clock) && Grown(p, b, c, clock)
    ensures Grown(p, a, c, clock)
  {
    hide IsNew;
    hide ComesFrom;
    hide SameOrCancelled;
    forall run | run in c.runs ensures ComesFrom(a.runs, run) || IsNew(p, a.nextId, run, clock) {
      OriginThrough(p, a, b, clock, run);
    }
    forall run | run in a.runs ensures LeadsTo(run, c.runs) {
      LeadsThrough(run, b.runs, c.runs);
    }
    forall id | a.nextId < id <= c.nextId ensures HasId(c.runs, id) {
      if id <= b.nextId {
        assert HasId(b.runs, id);
        var run :| run in b.runs && run.state.id == id;
        IdLeads(run, c.runs);
      }
    }
  }

  lemma LeadsThrough(run: LiveRun, b: seq<LiveRun>, c: seq<LiveRun>)
    requires LeadsTo(run, b) && forall other :: other in b ==> LeadsTo(other, c)
    ensures LeadsTo(run, c)
  {
    var middle :| middle in b && SameOrCancelled(run, middle);
    var last :| last in c && SameOrCancelled(middle, last);
    ComesThrough(run, middle, last);
  }

  lemma IdLeads(run: LiveRun, c: seq<LiveRun>)
    requires LeadsTo(run, c)
    ensures HasId(c, run.state.id)
  {
    var last :| last in c && SameOrCancelled(run, last);
  }

  lemma ShiftsThrough(p: LiveProgram, a: System, b: System, c: System, clock: nat -> nat)
    requires Shifts(p, a, b, clock) && Shifts(p, b, c, clock)
    ensures Shifts(p, a, c, clock)
  {
    hide Grown;
    GrownThrough(p, a.queue, b.queue, c.queue, clock);
  }

  lemma ShiftsSame(p: LiveProgram, s: System, s': System, clock: nat -> nat)
    requires s'.queue.runs == s.queue.runs && s'.queue.nextId == s.queue.nextId && s'.matcher == s.matcher
    ensures Shifts(p, s, s', clock)
  {
    GrownSame(p, s.queue, s'.queue, clock);
  }

  lemma MovesThrough(p: LiveProgram, a: System, b: System, c: System, clock: nat -> nat)
    requires Moves(p, a, b, clock) && Moves(p, b, c, clock)
    ensures Moves(p, a, c, clock)
  {
    hide Shifts;
    ShiftsThrough(p, a, b, c, clock);
  }

  lemma MovesSame(p: LiveProgram, s: System, s': System, clock: nat -> nat)
    requires s'.queue.runs == s.queue.runs && s'.queue.nextId == s.queue.nextId && s'.matcher == s.matcher
    requires s'.ticks == s.ticks
    ensures Moves(p, s, s', clock)
  {
    GrownSame(p, s.queue, s'.queue, clock);
  }

  // ---- the operations ----

  lemma EnqueueMoves(p: LiveProgram, s: System, l: string, definition: Macro, delayMs: nat, clock: nat -> nat)
    requires Configured(p, l, definition, delayMs)
    ensures Moves(p, s, Enqueue(p, s, l, definition, delayMs, clock), clock)
  {
    hide Configured;
    var q, q' := s.queue, Scheduled(s.queue, l, p.processScoped, definition, delayMs, clock(s.queue.nextId + 1));
    if l in q.active {
      GrownSame(p, q, q', clock);
    } else {
      var run := LiveRun(l, p.processScoped, NewRun(q.nextId + 1, definition, delayMs, clock(q.nextId + 1)));
      assert q'.runs == q.runs + [run];
      assert Queued(p, run, definition, delayMs, clock);
      forall other | other in q.runs ensures ComesFrom(q.runs, other) && LeadsTo(other, q'.runs) {
        assert SameOrCancelled(other, other) && other in q'.runs;
      }
      assert run in q'.runs;
    }
  }

  lemma CancelMoves(p: LiveProgram, s: System, hit: LiveRun -> bool, clock: nat -> nat)
    ensures Moves(p, s, s.(queue := Cancel(s.queue, hit)), clock)
  {
    var runs, runs' := s.queue.runs, CancelRuns(s.queue.runs, hit);
    forall run' | run' in runs' ensures ComesFrom(runs, run') {
      var i :| 0 <= i < |runs'| && runs'[i] == run';
      assert SameOrCancelled(runs[i], run') && runs[i] in runs;
    }
    forall run | run in runs ensures LeadsTo(run, runs') {
      var i :| 0 <= i < |runs| && runs[i] == run;
      assert SameOrCancelled(run, runs'[i]) && runs'[i] in runs';
    }
  }

  lemma ObserveMoves(p: LiveProgram, s: System, observed: bool, clock: nat -> nat)
    ensures Moves(p, s, Observe(p, s, observed), clock)
  {
    hide Moves;
    var s1 := s.(queue := Cancel(s.queue, IsProcessScoped()));
    CancelMoves(p, s, IsProcessScoped(), clock);
    MovesSame(p, s, s, clock);
    var s' := Observe(p, s, observed);
    if s'.queue == s1.queue {
      MovesSame(p, s1, s', clock);
      MovesThrough(p, s, s1, s', clock);
    } else {
      MovesSame(p, s, s', clock);
    }
  }

  lemma MotionConfigured(p: LiveProgram, t: Trigger, l: string, definition: Macro, delayMs: nat)
    requires t in p.table.motions && ConfiguredByMotion(t, p.table.motions[t], l, definition, delayMs)
    ensures Configured(p, l, definition, delayMs)
  {
  }

  lemma LoopAfterMoves(p: LiveProgram, s: System, t: Trigger, clock: nat -> nat)
    ensures Moves(p, s, ScheduleLoopAfter(p, s, t, clock), clock)
  {
    hide Moves;
    hide Enqueue;
    hide Configured;
    MovesSame(p, s, s, clock);
    if t in p.table.motions {
      var motion := p.table.motions[t];
      if motion.loopDefinition.Some? && motion.loopDefinition.value.after.Some? {
        var after := motion.loopDefinition.value.after.value;
        MotionConfigured(p, t, AfterLabel(t), after, motion.interActionDelayMs);
        EnqueueMoves(p, s, AfterLabel(t), after, motion.interActionDelayMs, clock);
      }
    }
  }

  lemma {:induction false} LoopAftersMove(p: LiveProgram, s: System, triggers: seq<Trigger>, clock: nat -> nat)
    ensures Moves(p, s, LoopAfters(p, s, triggers, clock), clock)
    decreases |triggers|
  {
    hide Moves;
    hide ScheduleLoopAfter;
    if triggers == [] {
      MovesSame(p, s, s, clock);
    } else {
      var s1 := ScheduleLoopAfter(p, s, triggers[0], clock);
      LoopAfterMoves(p, s, triggers[0], clock);
      LoopAftersMove(p, s1, triggers[1..], clock);
      MovesThrough(p, s, s1, LoopAfters(p, s1, triggers[1..], clock), clock);
    }
  }

  lemma EndLoopsMoves(p: LiveProgram, s: System, clock: nat -> nat)
    ensures Moves(p, s, s.(deactivated := false, matcher := s.matcher.(loops := {})), clock)
  {
    hide Grown;
    GrownSame(p, s.queue, s.queue, clock);
  }

  lemma TakeDeactivationMoves(p: LiveProgram, s: System, clock: nat -> nat)
    ensures Moves(p, s, TakeDeactivation(p, s, clock), clock)
  {
    hide Moves;
    hide LoopAfters;
    MovesSame(p, s, s, clock);
    var s1 := s.(deactivated := false, matcher := s.matcher.(loops := {}));
    EndLoopsMoves(p, s, clock);
    LoopAftersMove(p, s1, Listed(p.table.order, s.matcher.loops), clock);
    MovesThrough(p, s, s1, LoopAfters(p, s1, Listed(p.table.order, s.matcher.loops), clock), clock);
  }

  lemma LoopStartMoves(p: LiveProgram, s: System, t: Trigger, clock: nat -> nat)
    requires WellFormed(p) && t in p.table.motions
    ensures Moves(p, s, ScheduleLoopStart(p, s, p.table.motions[t], clock), clock)
  {
    hide Moves;
    hide Enqueue;
    hide Configured;
    MovesSame(p, s, s, clock);
    var motion := p.table.motions[t];
    if motion.loopDefinition.Some? {
      var definition := motion.loopDefinition.value;
      match definition.body
      case Once(body) =>
        MotionConfigured(p, t, OnceLabel(t), Combine(definition.before, body), motion.interActionDelayMs);
        EnqueueMoves(p, s, OnceLabel(t), Combine(definition.before, body), motion.interActionDelayMs, clock);
      case Repeat(_, _) =>
        if definition.before.Some? {
          MotionConfigured(p, t, BeforeLabel(t), definition.before.value, motion.interActionDelayMs);
          EnqueueMoves(p, s, BeforeLabel(t), definition.before.value, motion.interActionDelayMs, clock);
        }
    }
  }

  lemma TriggerMoves(p: LiveProgram, s: System, t: Trigger, startsLoop: bool, focus: Focus, clock: nat -> nat)
    requires WellFormed(p) && t in p.table.motions && focus.Context?
    ensures Moves(p, s, ScheduleTrigger(p, s, p.table.motions[t], startsLoop, focus, clock), clock)
  {
    hide Moves;
    hide Enqueue;
    hide Configured;
    hide Observe;
    hide ScheduleLoopStart;
    var motion := p.table.motions[t];
    var s1 := Observe(p, s, focus.observed);
    ObserveMoves(p, s, focus.observed, clock);
    if Allowed(p, focus) {
      var s2 := s1;
      if motion.macroDefinition.Some? {
        s2 := Enqueue(p, s1, Describe(t), motion.macroDefinition.value, motion.interActionDelayMs, clock);
        MotionConfigured(p, t, Describe(t), motion.macroDefinition.value, motion.interActionDelayMs);
        EnqueueMoves(p, s1, Describe(t), motion.macroDefinition.value, motion.interActionDelayMs, clock);
        MovesThrough(p, s, s1, s2, clock);
      }
      LoopStartMoves(p, s2, t, clock);
      MovesThrough(p, s, s2, ScheduleLoopStart(p, s2, motion, clock), clock);
    }
  }

  lemma ReleaseLoopMoves(p: LiveProgram, s: System, t: Trigger, clock: nat -> nat)
    ensures Moves(p, s, ReleaseLoop(p, s, t, clock), clock)
  {
    hide Moves;
    hide Cancel;
    hide ScheduleLoopAfter;
    var s1 := s.(queue := Cancel(s.queue, HasLabel(RepeatLabel(t))));
    var s2 := s1.(queue := Cancel(s1.queue, HasLabel(BeforeLabel(t))));
    var s3 := s2.(queue := Cancel(s2.queue, HasLabel(OnceLabel(t))));
    CancelMoves(p, s, HasLabel(RepeatLabel(t)), clock);
    CancelMoves(p, s1, HasLabel(BeforeLabel(t)), clock);
    CancelMoves(p, s2, HasLabel(OnceLabel(t)), clock);
    LoopAfterMoves(p, s3, t, clock);
    MovesThrough(p, s, s1, s2, clock);
    MovesThrough(p, s, s2, s3, clock);
    MovesThrough(p, s, s3, ScheduleLoopAfter(p, s3, t, clock), clock);
  }

  lemma RuntimeEventMoves(p: LiveProgram, s: System, event: Event, focus: Focus, clock: nat -> nat)
    requires WellFormed(p) && focus.Context?
    ensures Moves(p, s, TakeDeactivation(p, ScheduleRuntimeEvent(p, s, event, focus, clock), clock), clock)
  {
    hide Moves;
    hide ScheduleTrigger;
    hide ReleaseLoop;
    hide TakeDeactivation;
    MovesSame(p, s, s, clock);
    var s1 := ScheduleRuntimeEvent(p, s, event, focus, clock);
    match event {
      case Triggered(t, startsLoop) =>
        if t in p.table.motions {
          TriggerMoves(p, s, t, startsLoop, focus, clock);
        }
      case LoopCancelled(t) => ReleaseLoopMoves(p, s, t, clock);
      case Discarded(_) =>
    }
    TakeDeactivationMoves(p, s1, clock);
    MovesThrough(p, s, s1, TakeDeactivation(p, s1, clock), clock);
  }

  lemma {:induction false} HandleEventsMove(
    p: LiveProgram, s: System, events: seq<Event>, focus: nat -> Focus, i: nat, clock: nat -> nat)
    requires WellFormed(p) && i <= |events|
    ensures Moves(p, s, HandleEvents(p, s, events, focus, i, clock).0, clock)
    decreases |events| - i
  {
    hide Moves;
    hide ScheduleRuntimeEvent;
    hide TakeDeactivation;
    MovesSame(p, s, s, clock);
    if i < |events| {
      if events[i].Discarded? {
        HandleEventsMove(p, s, events, focus, i + 1, clock);
      } else if focus(i).Context? {
        var s1 := TakeDeactivation(p, ScheduleRuntimeEvent(p, s, events[i], focus(i), clock), clock);
        RuntimeEventMoves(p, s, events[i], focus(i), clock);
        HandleEventsMove(p, s1, events, focus, i + 1, clock);
        MovesThrough(p, s, s1, HandleEvents(p, s1, events, focus, i + 1, clock).0, clock);
      }
    }
  }

  lemma SchedulePressMoves(p: LiveProgram, s: System, press: PressDefinition, focus: Focus, clock: nat -> nat)
    requires press in p.presses && focus.Context?
    ensures Moves(p, s, SchedulePress(p, s, press, focus, clock), clock)
  {
    hide Moves;
    hide Enqueue;
    hide Observe;
    var s1 := Observe(p, s, focus.observed);
    ObserveMoves(p, s, focus.observed, clock);
    if Allowed(p, focus) {
      var l := PressLabel(press.trigger);
      EnqueueMoves(p, s1, l, press.macroDefinition, press.interActionDelayMs, clock);
      MovesThrough(p, s, s1, Enqueue(p, s1, l, press.macroDefinition, press.interActionDelayMs, clock), clock);
    }
  }

  lemma PressDefinitionMoves(p: LiveProgram, s: System, input: Input, focus: Focus, clock: nat -> nat)
    ensures Moves(p, s, HandlePressDefinition(p, s, input, focus, clock).0, clock)
  {
    hide Moves;
    hide SchedulePress;
    hide TakeDeactivation;
    MovesSame(p, s, s, clock);
    if input.Pressed? && focus.Context? {
      MatchingPressMember(p, s.matcher.held, input.token, 0);
      var r := MatchingPress(p, s.matcher.held, input.token, 0);
      if r.Some? {
        var s1 := SchedulePress(p, s, r.value, focus, clock);
        SchedulePressMoves(p, s, r.value, focus, clock);
        TakeDeactivationMoves(p, s1, clock);
        MovesThrough(p, s, s1, TakeDeactivation(p, s1, clock), clock);
      }
    }
  }

  /** An input moves the matcher by its own step, and then everything else changes as allowed. */
  lemma InputMoves(p: LiveProgram, s: System, input: Input, pressFocus: Focus, focus: nat -> Focus, clock: nat -> nat)
    requires WellFormed(p)
    ensures Moves(p, s.(matcher := Step(p.table, s.matcher, input).0), HandleInput(p, s, input, pressFocus, focus, clock).0, clock)
  {
    hide Moves;
    hide Step;
    hide HandlePressDefinition;
    hide HandleEvents;
    var (matcher, events) := Step(p.table, s.matcher, input);
    var s0 := s.(matcher := matcher);
    var s1 := HandlePressDefinition(p, s0, input, pressFocus, clock).0;
    PressDefinitionMoves(p, s0, input, pressFocus, clock);
    HandleEventsMove(p, s1, events, focus, 0, clock);
    MovesThrough(p, s0, s1, HandleEvents(p, s1, events, focus, 0, clock).0, clock);
  }

  lemma ShortcutMoves(p: LiveProgram, s: System, hotkey: Hotkey, developer: Developer, focus: Focus, clock: nat -> nat)
    ensures Moves(p, s, HandleShortcut(p, s, hotkey, developer, focus, clock).0, clock)
  {
    hide Moves;
    hide Enqueue;
    hide Observe;
    MovesSame(p, s, s, clock);
    FindBindingMember(p, hotkey, 0);
    var r := FindBinding(p, hotkey, 0);
    if r.Some? && focus.Context? {
      var s1, l := Observe(p, s, focus.observed), BindingLabel(r.value.trigger);
      ObserveMoves(p, s, focus.observed, clock);
      EnqueueMoves(p, s1, l, r.value.macroDefinition, 0, clock);
      MovesThrough(p, s, s1, Enqueue(p, s1, l, r.value.macroDefinition, 0, clock), clock);
    }
  }

  lemma RepeatTickMoves(p: LiveProgram, s: System, t: Trigger, focus: Focus, clock: nat -> nat)
    requires WellFormed(p) && t in p.table.motions && focus.Context?
    ensures Moves(p, s, RepeatTick(p, s, p.table.motions[t], focus, clock), clock)
  {
    hide Moves;
    hide Enqueue;
    hide Observe;
    hide Configured;
    var motion := p.table.motions[t];
    var s' := RepeatTick(p, s, motion, focus, clock);
    if s'.queue.runs == s.queue.runs && s'.queue.nextId == s.queue.nextId && s'.matcher == s.matcher
      && s'.ticks == s.ticks
    {
      MovesSame(p, s, s', clock);
    }
    var s1 := Observe(p, s, focus.observed);
    ObserveMoves(p, s, focus.observed, clock);
    if motion.loopDefinition.Some? && motion.loopDefinition.value.body.Repeat? {
      var tick := motion.loopDefinition.value.body.tick;
      MotionConfigured(p, t, RepeatLabel(t), tick, motion.interActionDelayMs);
      EnqueueMoves(p, s1, RepeatLabel(t), tick, motion.interActionDelayMs, clock);
      MovesThrough(p, s, s1, Enqueue(p, s1, RepeatLabel(t), tick, motion.interActionDelayMs, clock), clock);
    }
  }

  lemma ScanTickMoves(p: LiveProgram, s: System, t: Trigger, focus: Focus, now: nat, clock: nat -> nat)
    requires WellFormed(p)
    ensures Shifts(p, s, ScanTick(p, s, t, focus, now, clock).0, clock)
  {
    hide Shifts;
    hide RepeatTick;
    hide TakeDeactivation;
    ShiftsSame(p, s, s, clock);
    ShiftsSame(p, s, s.(ticks := s.ticks - {t}), clock);
    if t in p.table.motions && focus.Context? {
      var s1 := RepeatTick(p, s, p.table.motions[t], focus, clock);
      var s2 := TakeDeactivation(p, s1, clock);
      RepeatTickMoves(p, s, t, focus, clock);
      TakeDeactivationMoves(p, s1, clock);
      ShiftsThrough(p, s, s1, s2, clock);
      ShiftsSame(p, s2, s2.(ticks := s2.ticks[t := now]), clock);
      ShiftsThrough(p, s, s2, s2.(ticks := s2.ticks[t := now]), clock);
    }
  }

  lemma {:induction false} ScanTicksMove(
    p: LiveProgram, s: System, triggers: seq<Trigger>, focus: nat -> Focus, i: nat, now: nat, clock: nat -> nat)
    requires WellFormed(p) && i <= |triggers|
    ensures Shifts(p, s, ScanTicks(p, s, triggers, focus, i, now, clock).0, clock)
    decreases |triggers| - i
  {
    hide Shifts;
    hide ScanTick;
    if i == |triggers| {
      ShiftsSame(p, s, s, clock);
    } else {
      var s1 := ScanTick(p, s, triggers[i], focus(i), now, clock).0;
      ScanTickMoves(p, s, triggers[i], focus(i), now, clock);
      ScanTicksMove(p, s1, triggers, focus, i + 1, now, clock);
      ShiftsThrough(p, s, s1, ScanTicks(p, s1, triggers, focus, i + 1, now, clock).0, clock);
    }
  }

  /** The matcher's own part of a step. */
  function MatcherPart(p: LiveProgram, s: System, step: LiveStep): System {
    if step.InputStep? then s.(matcher := Step(p.table, s.matcher, step.input).0) else s
  }

  /** Every step but a drive, also one that fails. */
  lemma StepMoves(p: LiveProgram, s: System, step: LiveStep)
    requires WellFormed(p) && !step.DriveStep?
    ensures Shifts(p, MatcherPart(p, s, step), LiveStepFrom(p, s, step).0, step.clock)
    ensures !step.ScanStep? ==> LiveStepFrom(p, s, step).0.ticks == s.ticks
    ensures LiveStepFrom(p, s, step).1 == []
  {
    hide Shifts;
    hide Step;
    hide HandleInput;
    hide HandleShortcut;
    hide LiveRuntime.ScanTicks;
    match step
    case InputStep(input, pressFocus, eventFocus, clock) => InputMoves(p, s, input, pressFocus, eventFocus, clock);
    case ShortcutStep(hotkey, developer, focus, clock) => ShortcutMoves(p, s, hotkey, developer, focus, clock);
    case ScanStep(focus, now, clock) => ScanTicksMove(p, s, RepeatingMotions(p.table), focus, 0, now, clock);
  }

  // ---- the inputs a live run has seen ----

  function WithoutCancels(h: seq<Input>): seq<Input> {
    if h == [] then []
    else WithoutCancels(h[..|h| - 1]) + if h[|h| - 1].CancelLoops? then [] else [h[|h| - 1]]
  }

  /** The inputs of the steps carried out, in order. */
  function LiveInputs(p: LiveProgram, steps: seq<LiveStep>): seq<Input> {
    if steps == [] then []
    else
      var before, last := steps[..|steps| - 1], steps[|steps| - 1];
      LiveInputs(p, before) +
        if LiveAfter(p, START, before).1 && last.InputStep? && !last.input.CancelLoops? then [last.input] else []
  }

  lemma WithoutSnoc(h: seq<Input>, input: Input)
    ensures WithoutCancels(h + [input]) == WithoutCancels(h) + if input.CancelLoops? then [] else [input]
  {
    assert (h + [input])[..|h|] == h;
  }

  lemma StepMatcher(p: LiveProgram, s: System, step: LiveStep)
    requires WellFormed(p)
    ensures var matcher, matcher' := MatcherPart(p, s, step).matcher, LiveStepFrom(p, s, step).0.matcher;
      matcher' == matcher || matcher' == matcher.(loops := {})
  {
    hide Step;
    if !step.DriveStep? {
      hide LiveStepFrom;
      hide Grown;
      StepMoves(p, s, step);
    }
  }

  /**
   The matcher of a live run is where its own steps lead: it has handled exactly the inputs observed
   so far, in order, and nothing else but endings of its loops.
  */
  lemma {:induction false} LiveHistoryOf(p: LiveProgram, steps: seq<LiveStep>) returns (h: seq<Input>)
    requires WellFormed(p)
    ensures After(p.table, IDLE, h) == LiveAfter(p, START, steps).0.matcher
    ensures WithoutCancels(h) == LiveInputs(p, steps)
  {
    hide Step;
    hide LiveStepFrom;
    h := [];
    if steps != [] {
      var before, last := steps[..|steps| - 1], steps[|steps| - 1];
      h := LiveHistoryOf(p, before);
      var (s, ok) := LiveAfter(p, START, before);
      if ok {
        StepMatcher(p, s, last);
        if last.InputStep? {
          h := Extend(p.table, h, last.input);
        }
        if LiveAfter(p, START, steps).0.matcher != After(p.table, IDLE, h) {
          h := Extend(p.table, h, CancelLoops);
          EndsLoops(p.table, MatcherPart(p, s, last).matcher);
        }
      }
    }
  }

  lemma EndsLoops(table: MotionTable, matcher: Matcher)
    ensures Step(table, matcher, CancelLoops).0 == matcher.(loops := {})
  {
  }

  lemma Extend(table: MotionTable, h: seq<Input>, input: Input) returns (h': seq<Input>)
    ensures h' == h + [input]
    ensures After(table, IDLE, h') == Step(table, After(table, IDLE, h), input).0
    ensures WithoutCancels(h') == WithoutCancels(h) + if input.CancelLoops? then [] else [input]
  {
    AfterSnoc(table, IDLE, h, input);
    WithoutSnoc(h, input);
    h' := h + [input];
  }
}

/**
 The event loop's handlers over the objects they update in place
 (crates/signal-auras-cli/src/runner.rs:2293-2352, 3570-3600, 3748-3845, 3967-4314).
*/
module LiveLoop {
  import opened Wrappers
  import opened MacroPlan
  import opened Motion
  import opened MotionRuns
  import opened Configuration
  import opened MacroQueue
  import opened LiveRuntime
  import opened LiveTicks

  class ScopedFocusTracker {
    var active: Option<bool>
    var deactivated: bool

    constructor ()
      ensures active == None && !deactivated
    {
      active := None;
      deactivated := false;
    }

    /** Note whether the scope is in focus; answer whether it has just lost it. */
    method Observe(processScoped: bool, isActive: bool) returns (deactivates: bool)
      modifies this
      ensures !processScoped ==> active == old(active) && !deactivates
      ensures processScoped ==> active == Some(isActive)
      ensures deactivates <==> processScoped && old(active) == Some(true) && !isActive
      ensures deactivated == (old(deactivated) || deactivates)
    {
      if !processScoped {
        return false;
      }
      var previous := active;
      active := Some(isActive);
      if previous == Some(isActive) {
        return false;
      }
      deactivates := previous == Some(true) && !isActive;
      if deactivates {
        deactivated := true;
      }
    }

    method TakeDeactivation() returns (was: bool)
      modifies this`deactivated
      ensures was == old(deactivated) && !deactivated
    {
      was := deactivated;
      deactivated := false;
    }
  }

  class LiveLoop {
    const program: LiveProgram
    const runtime: MotionRuntime
    const queue: LiveMacroQueue
    const focus: ScopedFocusTracker
    var lastRepeatTicks: map<Trigger, nat>

    ghost predicate Valid()
      reads this, runtime
    {
      runtime.Valid() && runtime.table == program.table
    }

    ghost function State(): System
      reads this, runtime, queue, focus
    {
      System(runtime.State(), queue.State(), focus.active, focus.deactivated, lastRepeatTicks)
    }

    constructor (program: LiveProgram, motions: seq<MotionDefinition>)
      requires program.table.Valid() && program.table.motions == Collected(motions)
      ensures Valid() && this.program == program && State() == START
      ensures fresh(runtime) && fresh(queue) && fresh(focus)
    {
      this.program := program;
      runtime := new MotionRuntime(motions, program.table.order);
      queue := new LiveMacroQueue();
      focus := new ScopedFocusTracker();
      lastRepeatTicks := map[];
    }

    method Schedule(triggerLabel: string, definition: Macro, delayMs: nat, clock: nat -> nat)
      requires Valid()
      modifies queue
      ensures Valid() && State() == Enqueue(program, old(State()), triggerLabel, definition, delayMs, clock)
    {
      var id := queue.Schedule(triggerLabel, program.processScoped, definition, delayMs, clock(queue.nextId + 1));
    }

    method ObserveFocus(observed: bool)
      requires Valid()
      modifies focus, queue
      ensures Valid() && State() == Observe(program, old(State()), observed)
    {
      var deactivates := focus.Observe(program.processScoped, observed);
      if deactivates {
        var cancelled := queue.CancelProcessScoped();
        queue.RecordCancelledMacroRuns(cancelled);
      }
    }

    method ScheduleLiveBinding(binding: BindingDefinition, context: Focus, clock: nat -> nat)
      requires Valid() && context.Context?
      modifies focus, queue
      ensures Valid() && State() == ScheduleBinding(program, old(State()), binding, context, clock)
    {
      ObserveFocus(context.observed);
      if Allowed(program, context) {
        Schedule(BindingLabel(binding.trigger), binding.macroDefinition, 0, clock);
      }
    }

    method ScheduleLivePress(press: PressDefinition, context: Focus, clock: nat -> nat) returns (consumed: bool)
      requires Valid() && context.Context?
      modifies focus, queue
      ensures consumed <==> Allowed(program, context) && press.mode.Consume?
      ensures Valid() && State() == SchedulePress(program, old(State()), press, context, clock)
    {
      ObserveFocus(context.observed);
      if !Allowed(program, context) {
        return false;
      }
      Schedule(PressLabel(press.trigger), press.macroDefinition, press.interActionDelayMs, clock);
      consumed := press.mode == Consume;
    }

    method ScheduleLiveLoopAfter(trigger: Trigger, clock: nat -> nat)
      requires Valid()
      modifies queue
      ensures Valid() && State() == ScheduleLoopAfter(program, old(State()), trigger, clock)
    {
      if trigger in program.table.motions {
        var motion := program.table.motions[trigger];
        if motion.loopDefinition.Some? && motion.loopDefinition.value.after.Some? {
          Schedule(AfterLabel(trigger), motion.loopDefinition.value.after.value, motion.interActionDelayMs, clock);
        }
      }
    }

    method ScheduleLiveLoopStart(motion: MotionDefinition, clock: nat -> nat)
      requires Valid()
      modifies queue
      ensures Valid() && State() == ScheduleLoopStart(program, old(State()), motion, clock)
    {
      if motion.loopDefinition.None? {
        return;
      }
      var definition := motion.loopDefinition.value;
      match definition.body {
        case Once(body) =>
          Schedule(OnceLabel(motion.trigger), Combine(definition.before, body), motion.interActionDelayMs, clock);
        case Repeat(_, _) =>
          if definition.before.Some? {
            Schedule(BeforeLabel(motion.trigger), definition.before.value, motion.interActionDelayMs, clock);
          }
      }
    }

    method ScheduleLiveTrigger(motion: MotionDefinition, startsLoop: bool, context: Focus, clock: nat -> nat)
      returns (consumed: bool)
      requires Valid() && context.Context?
      modifies focus, queue
      ensures consumed <==> Allowed(program, context)
      ensures Valid() && State() == ScheduleTrigger(program, old(State()), motion, startsLoop, context, clock)
    {
      ObserveFocus(context.observed);
      if !Allowed(program, context) {
        return false;
      }
      if motion.macroDefinition.Some? {
        Schedule(Describe(motion.trigger), motion.macroDefinition.value, motion.interActionDelayMs, clock);
      }
      if startsLoop {
        ScheduleLiveLoopStart(motion, clock);
      }
      consumed := true;
    }

    method CancelLabel(triggerLabel: string) returns (cancelled: nat)
      requires Valid()
      modifies queue
      ensures Valid() && State() == old(State()).(queue := Cancel(old(State()).queue, HasLabel(triggerLabel)))
    {
      cancelled := queue.CancelTrigger(triggerLabel);
      queue.RecordCancelledMacroRuns(cancelled);
    }

    method ScheduleLiveRuntimeEvent(event: Event, context: Focus, clock: nat -> nat) returns (consumed: bool)
      requires Valid() && context.Context?
      modifies focus, queue
      ensures consumed <==> EventConsumed(program, event, context)
      ensures Valid() && State() == ScheduleRuntimeEvent(program, old(State()), event, context, clock)
    {
      match event {
        case Triggered(trigger, startsLoop) =>
          if trigger !in program.table.motions {
            return false;
          }
          consumed := ScheduleLiveTrigger(program.table.motions[trigger], startsLoop, context, clock);
        case LoopCancelled(trigger) =>
          var repeats := CancelLabel(RepeatLabel(trigger));
          var befores := CancelLabel(BeforeLabel(trigger));
          var onces := CancelLabel(OnceLabel(trigger));
          ScheduleLiveLoopAfter(trigger, clock);
          consumed := true;
        case Discarded(_) =>
          consumed := false;
      }
    }

    /** A lost focus ends every active loop and queues what comes after each. */
    method EndLoopsOnDeactivation(clock: nat -> nat)
      requires Valid()
      modifies focus, queue, runtime
      ensures Valid() && State() == LiveRuntime.TakeDeactivation(program, old(State()), clock)
    {
      var was := focus.TakeDeactivation();
      if was {
        var cancelled := runtime.CancelActiveLoops();
        ghost var s := State();
        for i := 0 to |cancelled|
          invariant Valid()
          invariant LoopAfters(program, State(), cancelled[i..], clock) == LoopAfters(program, s, cancelled, clock)
        {
          ScheduleLiveLoopAfter(cancelled[i], clock);
          assert cancelled[i..][1..] == cancelled[i + 1..];
        }
      }
    }

    method FindMatchingPress(input: Input) returns (press: Option<PressDefinition>)
      requires Valid()
      ensures press == if input.Pressed? then MatchingPress(program, State().matcher.held, input.token, 0) else None
    {
      press := None;
      if input.Pressed? {
        for i := 0 to |program.presses|
          invariant MatchingPress(program, runtime.held, input.token, i) ==
            MatchingPress(program, runtime.held, input.token, 0)
        {
          var candidate := program.presses[i];
          var satisfied := runtime.HeldSatisfies(candidate.requiresHeld);
          if candidate.trigger == input.token && satisfied {
            return Some(candidate);
          }
        }
      }
    }

    /** The matcher's step for one observed input. */
    method MatchInput(input: Input) returns (events: seq<Event>)
      requires Valid() && !input.CancelLoops?
      modifies runtime
      ensures Valid()
      ensures State() == old(State()).(matcher := Step(program.table, old(State()).matcher, input).0)
      ensures events == Step(program.table, old(State()).matcher, input).1
    {
      match input {
        case Pressed(token, at) => events := runtime.HandlePress(token, at);
        case Released(token) => events := runtime.HandleRelease(token);
      }
    }

    method HandlePresses(input: Input, context: Focus, clock: nat -> nat) returns (consumed: bool, ok: bool)
      requires Valid()
      modifies focus, queue, runtime
      ensures consumed <==> PressConsumed(program, old(State()), input, context)
      ensures Valid() && (State(), ok) == HandlePressDefinition(program, old(State()), input, context, clock)
    {
      var press := FindMatchingPress(input);
      if press.None? {
        return false, true;
      }
      if context.Unavailable? {
        return false, false;
      }
      consumed := ScheduleLivePress(press.value, context, clock);
      EndLoopsOnDeactivation(clock);
      ok := true;
    }

    /**
     `handle_observed_motion_input`: the matcher, then the press definitions, then the matcher's
     events. A focus query that fails ends the handling, and with it the event loop.
    */
    method HandleObservedInput(input: Input, pressContext: Focus, contexts: nat -> Focus, clock: nat -> nat)
      returns (consumed: bool, ok: bool)
      requires Valid() && !input.CancelLoops?
      modifies focus, queue, runtime
      ensures ok ==> (consumed <==> InputConsumed(program, old(State()), input, pressContext, contexts))
      ensures Valid() && (State(), ok) == HandleInput(program, old(State()), input, pressContext, contexts, clock)
    {
      hide Step;
      hide ScheduleRuntimeEvent;
      hide LiveRuntime.TakeDeactivation;
      hide HandlePressDefinition;
      hide PressConsumed;
      var events := MatchInput(input);
      consumed, ok := HandlePresses(input, pressContext, clock);
      if !ok {
        return;
      }
      ghost var s, pressConsumed := State(), consumed;
      for i := 0 to |events|
        invariant Valid() && ok
        invariant consumed <==> (pressConsumed ||
          exists j :: 0 <= j < i && contexts(j).Context? && EventConsumed(program, events[j], contexts(j)))
        invariant HandleEvents(program, State(), events, contexts, i, clock) ==
          HandleEvents(program, s, events, contexts, 0, clock)
      {
        if events[i].Discarded? {
          continue;
        }
        if contexts(i).Unavailable? {
          return consumed, false;
        }
        var eventConsumed := ScheduleLiveRuntimeEvent(events[i], contexts(i), clock);
        consumed := consumed || eventConsumed;
        EndLoopsOnDeactivation(clock);
      }
    }

    method HandleShortcutEvent(hotkey: Hotkey, developer: Developer, context: Focus, clock: nat -> nat) returns (ok: bool)
      requires Valid()
      modifies focus, queue
      ensures Valid() && (State(), ok) == HandleShortcut(program, old(State()), hotkey, developer, context, clock)
    {
      if developer == Broke {
        return false;
      }
      if developer == Taken {
        return true;
      }
      for i := 0 to |program.bindings|
        invariant Valid() && State() == old(State())
        invariant FindBinding(program, hotkey, i) == FindBinding(program, hotkey, 0)
      {
        if program.bindings[i].trigger == hotkey {
          if context.Unavailable? {
            return false;
          }
          ScheduleLiveBinding(program.bindings[i], context, clock);
          return true;
        }
      }
      ok := true;
    }

    method ScheduleRepeatTick(motion: MotionDefinition, context: Focus, clock: nat -> nat)
      requires Valid() && context.Context?
      modifies focus, queue
      ensures Valid() && State() == RepeatTick(program, old(State()), motion, context, clock)
    {
      if motion.loopDefinition.None? || !motion.loopDefinition.value.body.Repeat? {
        return;
      }
      var beforeBusy := queue.TriggerIsPendingOrActive(BeforeLabel(motion.trigger));
      if beforeBusy {
        return;
      }
      var repeatBusy := queue.TriggerIsPendingOrActive(RepeatLabel(motion.trigger));
      if repeatBusy {
        var count := queue.RecordRepeatSkip(RepeatLabel(motion.trigger));
        return;
      }
      ObserveFocus(context.observed);
      if Allowed(program, context) {
        Schedule(RepeatLabel(motion.trigger), motion.loopDefinition.value.body.tick, motion.interActionDelayMs, clock);
      }
    }

    method ScanOne(trigger: Trigger, context: Focus, now: nat, clock: nat -> nat) returns (ok: bool)
      requires Valid()
      modifies this`lastRepeatTicks, focus, queue, runtime
      ensures Valid() && (State(), ok) == ScanTick(program, old(State()), trigger, context, now, clock)
    {
      var active := runtime.LoopIsActive(trigger);
      if !active {
        lastRepeatTicks := lastRepeatTicks - {trigger};
        return true;
      }
      if trigger !in program.table.motions {
        return true;
      }
      var motion := program.table.motions[trigger];
      if motion.loopDefinition.None? || !motion.loopDefinition.value.body.Repeat? {
        return true;
      }
      var due := trigger !in lastRepeatTicks
        || SatSub(now, lastRepeatTicks[trigger]) >= Millis(motion.loopDefinition.value.body.everyMs);
      if !due {
        return true;
      }
      if context.Unavailable? {
        return false;
      }
      ScheduleRepeatTick(motion, context, clock);
      EndLoopsOnDeactivation(clock);
      lastRepeatTicks := lastRepeatTicks[trigger := now];
      ok := true;
    }

    /** The scan of the repeating motions after each wakeup. */
    method ScanRepeatTicks(contexts: nat -> Focus, now: nat, clock: nat -> nat) returns (ok: bool)
      requires Valid()
      modifies this`lastRepeatTicks, focus, queue, runtime
      ensures Valid()
      ensures (State(), ok) == ScanTicks(program, old(State()), RepeatingMotions(program.table), contexts, 0, now, clock)
    {
      var triggers := RepeatingMotions(program.table);
      ok := true;
      for i := 0 to |triggers|
        invariant Valid() && ok
        invariant ScanTicks(program, State(), triggers, contexts, i, now, clock) ==
          ScanTicks(program, old(State()), triggers, contexts, 0, now, clock)
      {
        ok := ScanOne(triggers[i], contexts(i), now, clock);
        if !ok {
          return;
        }
      }
    }

    /** `next_live_wait_timeout`: how long no active loop has a tick due. */
    method NextTickTimeout(now: nat) returns (timeout: nat)
      requires Valid()
      ensures LeastTickWait(program, State(), now, timeout)
    {
      var triggers := RepeatingMotions(program.table);
      RepeatingDistinct(program.table);
      timeout := IDLE_WAIT;
      for i := 0 to |triggers|
        invariant timeout <= IDLE_WAIT
        invariant forall j :: 0 <= j < i && triggers[j] in runtime.activeLoops ==>
          timeout <= TickWait(program, State(), triggers[j], now)
        invariant timeout == IDLE_WAIT ||
          exists j :: 0 <= j < i && triggers[j] in runtime.activeLoops && timeout == TickWait(program, State(), triggers[j], now)
      {
        var t := triggers[i];
        assert t in triggers;
        var active := runtime.LoopIsActive(t);
        if !active {
          continue;
        }
        var dueIn := if t in lastRepeatTicks then SatSub(Interval(program, t), SatSub(now, lastRepeatTicks[t])) else 0;
        timeout := if dueIn < timeout then dueIn else timeout;
      }
      forall t | Repeats(program, t) && t in runtime.activeLoops ensures timeout <= TickWait(program, State(), t, now) {
        var j :| 0 <= j < |triggers| && triggers[j] == t;
      }
    }

    /** How long the event loop sleeps: the two waits read the clock one after the other. */
    method WaitTimeout(now: nat, later: nat) returns (timeout: nat)
      requires Valid()
      ensures LeastWait(program, State(), now, later, timeout)
    {
      var ticks := NextTickTimeout(now);
      var runs := queue.NextWaitTimeout(later, IDLE_WAIT);
      timeout := if ticks <= runs then ticks else runs;
      assert LeastTickWait(program, State(), now, ticks) && LeastRunWait(State(), later, runs);
    }

    method DriveReady(now: nat, answers: nat -> Answer) returns (outputs: seq<Output>, ok: bool)
      requires Valid()
      modifies queue
      ensures Valid()
      ensures (State(), outputs, ok) == LiveStepFrom(program, old(State()), LiveStep.DriveStep(now, answers))
    {
      outputs, ok := queue.DriveReady(now, answers);
    }

    /** Any step of the event loop does what the step of the system says. */
    method PerformStep(step: LiveStep) returns (outputs: seq<Output>, ok: bool)
      requires Valid() && StepOk(step)
      modifies this`lastRepeatTicks, focus, queue, runtime
      ensures Valid() && (State(), outputs, ok) == LiveStepFrom(program, old(State()), step)
    {
      outputs := [];
      match step {
        case InputStep(input, pressFocus, eventFocus, clock) =>
          var consumed;
          consumed, ok := HandleObservedInput(input, pressFocus, eventFocus, clock);
        case ShortcutStep(hotkey, developer, context, clock) =>
          ok := HandleShortcutEvent(hotkey, developer, context, clock);
        case ScanStep(scanFocus, now, clock) =>
          ok := ScanRepeatTicks(scanFocus, now, clock);
        case DriveStep(now, answers) =>
          outputs, ok := DriveReady(now, answers);
      }
    }
  }
}

/**
 The live input pipeline (crates/signal-auras-cli/src/runner.rs:2170-2355, 3570-4320): the matcher,
 the macro queue, the focus tracker and the repeat ticks, as steps of one system.

 Not decided here but given to each step: what the focus queries answer, what the executor
 answers, and the time.
*/
module LiveRuntime {
  import opened Wrappers
  import opened MacroPlan
  import opened Motion
  import opened MotionRuns
  import opened Configuration
  import opened MacroQueue

  /** The program being run. All its definitions share one scope. */
  datatype LiveProgram = LiveProgram(
    table: MotionTable,
    presses: seq<PressDefinition>,
    bindings: seq<BindingDefinition>,
    processScoped: bool)

  // ---- labels ----

  function DescribeToken(token: Token): string {
    match token
    case Leader => "<Leader>"
    case Key(name) => name
    case Button(Left) => "<LClick>"
    case Button(Right) => "<RClick>"
    case Button(Middle) => "<MClick>"
    case Wheel(Up) => "<WheelUp>"
    case Wheel(Down) => "<WheelDown>"
  }

  function Join(words: seq<string>): string {
    if words == [] then ""
    else if |words| == 1 then words[0]
    else words[0] + " " + Join(words[1..])
  }

  function Words(tokens: seq<Token>): (words: seq<string>)
    ensures |words| == |tokens|
    ensures forall i :: 0 <= i < |tokens| ==> words[i] == DescribeToken(tokens[i])
  {
    seq(|tokens|, i requires 0 <= i < |tokens| => DescribeToken(tokens[i]))
  }

  function Describe(t: Trigger): string { Join(Words(t)) }

  function Suffixed(t: Trigger, suffix: string): string { Describe(t) + " " + suffix }

  function RepeatLabel(t: Trigger): string { Suffixed(t, "repeat") }
  function BeforeLabel(t: Trigger): string { Suffixed(t, "loop_before") }
  function OnceLabel(t: Trigger): string { Suffixed(t, "loop_once") }
  function AfterLabel(t: Trigger): string { Suffixed(t, "loop_after") }
  function PressLabel(token: Token): string { "press " + DescribeToken(token) }
  function BindingLabel(hotkey: Hotkey): string { hotkey.name }

  /** The labels of the runs that a released loop must not emit from. */
  function LoopLabels(t: Trigger): set<string> {
    {RepeatLabel(t), BeforeLabel(t), OnceLabel(t)}
  }

  // ---- the system ----

  /** The answer to one focus query: an error, or what the two looks at the context decide. */
  datatype Focus = Unavailable | Context(observed: bool, decided: bool)

  datatype System = System(
    matcher: Matcher,
    queue: Queue,
    focusActive: Option<bool>,
    deactivated: bool,
    ticks: map<Trigger, nat>)

  const START: System := System(IDLE, EMPTY_QUEUE, None, false, map[])

  /** `ScopedFocusTracker::observe`, and the cancellation its callers make of a deactivation. */
  function Observe(p: LiveProgram, s: System, observed: bool): System {
    if !p.processScoped || s.focusActive == Some(observed) then s
    else
      var deactivates := s.focusActive == Some(true);
      s.(focusActive := Some(observed),
         deactivated := s.deactivated || deactivates,
         queue := if deactivates then Cancel(s.queue, IsProcessScoped()) else s.queue)
  }

  predicate Allowed(p: LiveProgram, focus: Focus)
    requires focus.Context?
  {
    !p.processScoped || focus.decided
  }

  /** Queue a macro; `clock(id)` is what the clock reads when the run with that id is queued. */
  function Enqueue(p: LiveProgram, s: System, triggerLabel: string, definition: Macro, delayMs: nat, clock: nat -> nat): System {
    s.(queue := Scheduled(s.queue, triggerLabel, p.processScoped, definition, delayMs, clock(s.queue.nextId + 1)))
  }

  function ScheduleBinding(p: LiveProgram, s: System, binding: BindingDefinition, focus: Focus, clock: nat -> nat): System
    requires focus.Context?
  {
    var s' := Observe(p, s, focus.observed);
    if Allowed(p, focus) then Enqueue(p, s', BindingLabel(binding.trigger), binding.macroDefinition, 0, clock) else s'
  }

  function SchedulePress(p: LiveProgram, s: System, press: PressDefinition, focus: Focus, clock: nat -> nat): System
    requires focus.Context?
  {
    var s' := Observe(p, s, focus.observed);
    if Allowed(p, focus)
    then Enqueue(p, s', PressLabel(press.trigger), press.macroDefinition, press.interActionDelayMs, clock)
    else s'
  }

  function ScheduleLoopAfter(p: LiveProgram, s: System, t: Trigger, clock: nat -> nat): System {
    if t !in p.table.motions then s
    else
      var motion := p.table.motions[t];
      if motion.loopDefinition.Some? && motion.loopDefinition.value.after.Some?
      then Enqueue(p, s, AfterLabel(t), motion.loopDefinition.value.after.value, motion.interActionDelayMs, clock)
      else s
  }

  /** The body of a one-shot loop, preceded by what comes before the loop. */
  function Combine(before: Option<Macro>, body: Macro): Macro {
    if before.Some? then before.value + body else body
  }

  function ScheduleLoopStart(p: LiveProgram, s: System, motion: MotionDefinition, clock: nat -> nat): System {
    match motion.loopDefinition
    case None => s
    case Some(definition) =>
      match definition.body
      case Once(body) =>
        Enqueue(p, s, OnceLabel(motion.trigger), Combine(definition.before, body), motion.interActionDelayMs, clock)
      case Repeat(_, _) =>
        if definition.before.Some?
        then Enqueue(p, s, BeforeLabel(motion.trigger), definition.before.value, motion.interActionDelayMs, clock)
        else s
  }

  function ScheduleTrigger(
    p: LiveProgram, s: System, motion: MotionDefinition, startsLoop: bool, focus: Focus, clock: nat -> nat): System
    requires focus.Context?
  {
    var s1 := Observe(p, s, focus.observed);
    if !Allowed(p, focus) then s1
    else
      var s2 := if motion.macroDefinition.Some?
        then Enqueue(p, s1, Describe(motion.trigger), motion.macroDefinition.value, motion.interActionDelayMs, clock)
        else s1;
      if startsLoop then ScheduleLoopStart(p, s2, motion, clock) else s2
  }

  /** A loop released: cancel what it has queued, then queue what comes after it. */
  function ReleaseLoop(p: LiveProgram, s: System, t: Trigger, clock: nat -> nat): System {
    var q1 := Cancel(s.queue, HasLabel(RepeatLabel(t)));
    var q2 := Cancel(q1, HasLabel(BeforeLabel(t)));
    var q3 := Cancel(q2, HasLabel(OnceLabel(t)));
    ScheduleLoopAfter(p, s.(queue := q3), t, clock)
  }

  function ScheduleRuntimeEvent(p: LiveProgram, s: System, event: Event, focus: Focus, clock: nat -> nat): System
    requires focus.Context?
  {
    match event
    case Triggered(t, startsLoop) =>
      if t in p.table.motions then ScheduleTrigger(p, s, p.table.motions[t], startsLoop, focus, clock) else s
    case LoopCancelled(t) => ReleaseLoop(p, s, t, clock)
    case Discarded(_) => s
  }

  function LoopAfters(p: LiveProgram, s: System, triggers: seq<Trigger>, clock: nat -> nat): System
    decreases |triggers|
  {
    if triggers == [] then s
    else LoopAfters(p, ScheduleLoopAfter(p, s, triggers[0], clock), triggers[1..], clock)
  }

  /** `take_deactivation` and what its callers do: a lost focus ends every active loop. */
  function TakeDeactivation(p: LiveProgram, s: System, clock: nat -> nat): System {
    if !s.deactivated then s
    else
      LoopAfters(p, s.(deactivated := false, matcher := s.matcher.(loops := {})),
                 Listed(p.table.order, s.matcher.loops), clock)
  }

  /** The events of one input from number `i` on; each but a discard queries the focus. */
  function HandleEvents(p: LiveProgram, s: System, events: seq<Event>, focus: nat -> Focus, i: nat, clock: nat -> nat): (System, bool)
    requires i <= |events|
    decreases |events| - i
  {
    if i == |events| then (s, true)
    else if events[i].Discarded? then HandleEvents(p, s, events, focus, i + 1, clock)
    else if focus(i).Unavailable? then (s, false)
    else
      var s' := TakeDeactivation(p, ScheduleRuntimeEvent(p, s, events[i], focus(i), clock), clock);
      HandleEvents(p, s', events, focus, i + 1, clock)
  }

  function MatchingPress(p: LiveProgram, held: set<Token>, token: Token, i: nat): Option<PressDefinition>
    requires i <= |p.presses|
    decreases |p.presses| - i
  {
    if i == |p.presses| then None
    else if p.presses[i].trigger == token && AllHeld(p.presses[i].requiresHeld, held) then Some(p.presses[i])
    else MatchingPress(p, held, token, i + 1)
  }

  /** The press definition, if any, that the input matches, and what handling it does. */
  function HandlePressDefinition(p: LiveProgram, s: System, input: Input, focus: Focus, clock: nat -> nat): (System, bool) {
    if !input.Pressed? then (s, true)
    else
      match MatchingPress(p, s.matcher.held, input.token, 0)
      case None => (s, true)
      case Some(press) =>
        if focus.Unavailable? then (s, false)
        else (TakeDeactivation(p, SchedulePress(p, s, press, focus, clock), clock), true)
  }

  /** One observed input: the matcher first, then the press definitions, then the matcher's events. */
  function HandleInput(
    p: LiveProgram, s: System, input: Input, pressFocus: Focus, focus: nat -> Focus, clock: nat -> nat): (System, bool)
  {
    var (matcher, events) := Step(p.table, s.matcher, input);
    var (s', ok) := HandlePressDefinition(p, s.(matcher := matcher), input, pressFocus, clock);
    if !ok then (s', false) else HandleEvents(p, s', events, focus, 0, clock)
  }

  // ---- what an input answers ----

  /** Does the press definition that the input matches, if any, consume it? */
  predicate PressConsumed(p: LiveProgram, s: System, input: Input, focus: Focus) {
    && input.Pressed? && focus.Context? && Allowed(p, focus)
    && match MatchingPress(p, s.matcher.held, input.token, 0)
       case None => false
       case Some(press) => press.mode.Consume?
  }

  /** A cancelled loop consumes the input, and so does a motion in scope, whatever its mode. */
  predicate EventConsumed(p: LiveProgram, event: Event, focus: Focus)
    requires focus.Context?
  {
    match event
    case Triggered(t, _) => t in p.table.motions && Allowed(p, focus)
    case LoopCancelled(_) => true
    case Discarded(_) => false
  }

  predicate InputConsumed(p: LiveProgram, s: System, input: Input, pressFocus: Focus, focus: nat -> Focus) {
    var (matcher, events) := Step(p.table, s.matcher, input);
    || PressConsumed(p, s.(matcher := matcher), input, pressFocus)
    || exists i :: 0 <= i < |events| && focus(i).Context? && EventConsumed(p, events[i], focus(i))
  }

  function FindBinding(p: LiveProgram, hotkey: Hotkey, i: nat): Option<BindingDefinition>
    requires i <= |p.bindings|
    decreases |p.bindings| - i
  {
    if i == |p.bindings| then None
    else if p.bindings[i].trigger == hotkey then Some(p.bindings[i])
    else FindBinding(p, hotkey, i + 1)
  }

  /** What the developer diagnostics, which see a shortcut first, make of it. */
  datatype Developer = NotTheirs | Taken | Broke

  function HandleShortcut(
    p: LiveProgram, s: System, hotkey: Hotkey, developer: Developer, focus: Focus, clock: nat -> nat): (System, bool)
  {
    match developer
    case Broke => (s, false)
    case Taken => (s, true)
    case NotTheirs =>
      match FindBinding(p, hotkey, 0)
      case None => (s, true)
      case Some(binding) =>
        if focus.Unavailable? then (s, false) else (ScheduleBinding(p, s, binding, focus, clock), true)
  }

  // ---- repeat ticks ----

  function RepeatTick(p: LiveProgram, s: System, motion: MotionDefinition, focus: Focus, clock: nat -> nat): System
    requires focus.Context?
  {
    if motion.loopDefinition.None? || !motion.loopDefinition.value.body.Repeat? then s
    else if BeforeLabel(motion.trigger) in s.queue.active then s
    else if RepeatLabel(motion.trigger) in s.queue.active then
      s.(queue := RepeatSkip(s.queue, RepeatLabel(motion.trigger)))
    else
      var s' := Observe(p, s, focus.observed);
      if Allowed(p, focus)
      then Enqueue(p, s', RepeatLabel(motion.trigger), motion.loopDefinition.value.body.tick,
                   motion.interActionDelayMs, clock)
      else s'
  }

  /** The repeating motions, in the order they are scanned. */
  function RepeatingMotions(table: MotionTable): seq<Trigger> {
    Listed(table.order,
           set t | t in table.motions && table.motions[t].loopDefinition.Some?
             && table.motions[t].loopDefinition.value.body.Repeat?)
  }

  predicate TickDue(p: LiveProgram, s: System, t: Trigger, now: nat)
    requires t in p.table.motions && p.table.motions[t].loopDefinition.Some?
    requires p.table.motions[t].loopDefinition.value.body.Repeat?
  {
    t !in s.ticks || SatSub(now, s.ticks[t]) >= Millis(p.table.motions[t].loopDefinition.value.body.everyMs)
  }

  /** One entry of the tick scan. */
  function ScanTick(p: LiveProgram, s: System, t: Trigger, focus: Focus, now: nat, clock: nat -> nat): (System, bool) {
    if t !in s.matcher.loops then (s.(ticks := s.ticks - {t}), true)
    else if t !in p.table.motions || p.table.motions[t].loopDefinition.None?
      || !p.table.motions[t].loopDefinition.value.body.Repeat? || !TickDue(p, s, t, now) then (s, true)
    else if focus.Unavailable? then (s, false)
    else
      var s' := TakeDeactivation(p, RepeatTick(p, s, p.table.motions[t], focus, clock), clock);
      (s'.(ticks := s'.ticks[t := now]), true)
  }

  function ScanTicks(p: LiveProgram, s: System, triggers: seq<Trigger>, focus: nat -> Focus, i: nat, now: nat, clock: nat -> nat): (System, bool)
    requires i <= |triggers|
    decreases |triggers| - i
  {
    if i == |triggers| then (s, true)
    else
      var (s', ok) := ScanTick(p, s, triggers[i], focus(i), now, clock);
      if !ok then (s', false) else ScanTicks(p, s', triggers, focus, i + 1, now, clock)
  }

  // ---- steps and runs ----

  /** One step of the event loop, with what it is told from outside. */
  datatype LiveStep =
    | InputStep(input: Input, pressFocus: Focus, eventFocus: nat -> Focus, clock: nat -> nat)
    | ShortcutStep(hotkey: Hotkey, developer: Developer, focus: Focus, clock: nat -> nat)
    | ScanStep(scanFocus: nat -> Focus, now: nat, clock: nat -> nat)
    | DriveStep(now: nat, answers: nat -> Answer)

  /** An observed input is a press or a release; the loops are cancelled only from inside. */
  predicate StepOk(step: LiveStep) {
    step.InputStep? ==> !step.input.CancelLoops?
  }

  /** The state after a step, the requests it made, and whether the event loop goes on. */
  function LiveStepFrom(p: LiveProgram, s: System, step: LiveStep): (System, seq<Output>, bool) {
    match step
    case InputStep(input, pressFocus, eventFocus, clock) =>
      var (s', ok) := HandleInput(p, s, input, pressFocus, eventFocus, clock);
      (s', [], ok)
    case ShortcutStep(hotkey, developer, focus, clock) =>
      var (s', ok) := HandleShortcut(p, s, hotkey, developer, focus, clock);
      (s', [], ok)
    case ScanStep(focus, now, clock) =>
      var (s', ok) := ScanTicks(p, s, RepeatingMotions(p.table), focus, 0, now, clock);
      (s', [], ok)
    case DriveStep(now, answers) =>
      var (queue, outputs, ok) := Drive(s.queue, now, answers);
      (s.(queue := queue), outputs, ok)
  }

  /** The state after the steps. A step that fails ends the event loop, so nothing follows it. */
  function LiveAfter(p: LiveProgram, s: System, steps: seq<LiveStep>): (System, bool) {
    if steps == [] then (s, true)
    else
      var (s', ok) := LiveAfter(p, s, steps[..|steps| - 1]);
      if !ok then (s', false)
      else
        var (s'', _, ok') := LiveStepFrom(p, s', steps[|steps| - 1]);
        (s'', ok')
  }

  /** The requests made by the last step; none when the loop had already ended. */
  function LastOutputs(p: LiveProgram, s: System, steps: seq<LiveStep>): seq<Output>
    requires steps != []
  {
    var (s', ok) := LiveAfter(p, s, steps[..|steps| - 1]);
    if ok then LiveStepFrom(p, s', steps[|steps| - 1]).1 else []
  }

  /** The matcher's events in a step; only an input has any. */
  function StepEvents(p: LiveProgram, s: System, step: LiveStep): seq<Event> {
    if step.InputStep? then Step(p.table, s.matcher, step.input).1 else []
  }
}

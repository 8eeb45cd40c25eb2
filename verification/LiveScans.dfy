/**
 What a scan of the repeating loops must queue, and what it must not
 (crates/signal-auras-cli/src/runner.rs:2296-2351, 4250-4314).
*/
module LiveScans {
  import opened MacroPlan
  import opened Motion
  import opened MacroQueue
  import opened LiveRuntime
  import opened LiveInvariants
  import opened LiveTicks
  import opened LiveLaws

  // ---- what a step leaves of one label ----

  /** The ids of the runs queued under this label. */
  function IdsUnder(q: Queue, l: string): set<nat> {
    set run | run in q.runs && run.triggerLabel == l :: run.state.id
  }

  function SkipsOf(q: Queue, l: string): nat {
    if l in q.skips then q.skips[l] else 0
  }

  /** Nothing is queued under `l`, and the label is as free as it was. */
  ghost predicate Leaves(q: Queue, q': Queue, l: string) {
    (l in q'.active <==> l in q.active) && IdsUnder(q', l) == IdsUnder(q, l)
  }

  /** Nor is a skip counted. */
  ghost predicate LeavesAll(q: Queue, q': Queue, l: string) {
    Leaves(q, q', l) && SkipsOf(q', l) == SkipsOf(q, l)
  }

  lemma LeavesThrough(a: Queue, b: Queue, c: Queue, l: string)
    ensures Leaves(a, b, l) && Leaves(b, c, l) ==> Leaves(a, c, l)
    ensures LeavesAll(a, b, l) && LeavesAll(b, c, l) ==> LeavesAll(a, c, l)
  {
  }

  lemma ScheduledLeaves(q: Queue, l': string, scoped: bool, definition: Macro, delayMs: nat, now: nat, l: string)
    requires l != l' || l' in q.active
    ensures LeavesAll(q, Scheduled(q, l', scoped, definition, delayMs, now), l)
  {
    var q' := Scheduled(q, l', scoped, definition, delayMs, now);
    if l' !in q.active {
      forall run: LiveRun | run.triggerLabel == l ensures run in q'.runs <==> run in q.runs {
      }
      assert IdsUnder(q', l) == IdsUnder(q, l);
    }
  }

  lemma CancelLeaves(q: Queue, hit: LiveRun -> bool, l: string)
    ensures LeavesAll(q, Cancel(q, hit), l)
  {
    var q' := Cancel(q, hit);
    forall id | id in IdsUnder(q, l) ensures id in IdsUnder(q', l) {
      var run :| run in q.runs && run.triggerLabel == l && run.state.id == id;
      var i :| 0 <= i < |q.runs| && q.runs[i] == run;
      assert q'.runs[i] in q'.runs;
    }
    forall id | id in IdsUnder(q', l) ensures id in IdsUnder(q, l) {
      var run :| run in q'.runs && run.triggerLabel == l && run.state.id == id;
      var i :| 0 <= i < |q'.runs| && q'.runs[i] == run;
      assert q.runs[i] in q.runs;
    }
  }

  lemma ObserveLeaves(p: LiveProgram, s: System, observed: bool, l: string)
    ensures LeavesAll(s.queue, Observe(p, s, observed).queue, l)
  {
    hide Cancel;
    hide IsProcessScoped;
    CancelLeaves(s.queue, IsProcessScoped(), l);
  }

  /** No motion's loop_after runs are queued under this label. */
  ghost predicate NotAfter(p: LiveProgram, l: string) {
    forall u :: u in p.table.motions ==> AfterLabel(u) != l
  }

  lemma LoopAfterLeaves(p: LiveProgram, s: System, t: Trigger, clock: nat -> nat, l: string)
    requires NotAfter(p, l)
    ensures LeavesAll(s.queue, ScheduleLoopAfter(p, s, t, clock).queue, l)
  {
    hide Scheduled;
    hide IdsUnder;
    hide AfterLabel;
    if t in p.table.motions && p.table.motions[t].loopDefinition.Some? && p.table.motions[t].loopDefinition.value.after.Some? {
      ScheduledLeaves(s.queue, AfterLabel(t), p.processScoped, p.table.motions[t].loopDefinition.value.after.value,
                      p.table.motions[t].interActionDelayMs, clock(s.queue.nextId + 1), l);
    }
  }

  lemma {:induction false} LoopAftersLeave(p: LiveProgram, s: System, triggers: seq<Trigger>, clock: nat -> nat, l: string)
    requires NotAfter(p, l)
    ensures LeavesAll(s.queue, LoopAfters(p, s, triggers, clock).queue, l)
    decreases |triggers|
  {
    hide ScheduleLoopAfter;
    hide IdsUnder;
    if triggers != [] {
      var s1 := ScheduleLoopAfter(p, s, triggers[0], clock);
      LoopAfterLeaves(p, s, triggers[0], clock, l);
      LoopAftersLeave(p, s1, triggers[1..], clock, l);
      LeavesThrough(s.queue, s1.queue, LoopAfters(p, s1, triggers[1..], clock).queue, l);
    }
  }

  lemma DeactivationLeaves(p: LiveProgram, s: System, clock: nat -> nat, l: string)
    requires NotAfter(p, l)
    ensures LeavesAll(s.queue, TakeDeactivation(p, s, clock).queue, l)
  {
    hide LoopAfters;
    hide IdsUnder;
    LoopAftersLeave(p, s.(deactivated := false, matcher := s.matcher.(loops := {})),
                    Listed(p.table.order, s.matcher.loops), clock, l);
  }

  // ---- repeat ticks ----

  /** No other motion's text makes the same label. */
  ghost predicate OwnRepeatLabel(p: LiveProgram, t: Trigger) {
    forall u :: u in p.table.motions && u != t ==> RepeatLabel(u) != RepeatLabel(t)
  }

  /** The label that a tick of `t` is queued under, and the one it waits for. */
  ghost predicate TickLabel(t: Trigger, l: string) {
    l == RepeatLabel(t) || l == BeforeLabel(t)
  }

  lemma TickLabelsApart(p: LiveProgram, t: Trigger, l: string)
    requires TickLabel(t, l) && OwnRepeatLabel(p, t)
    ensures NotAfter(p, l)
    ensures forall u :: u in p.table.motions && u != t ==> RepeatLabel(u) != l
    ensures RepeatLabel(t) == l || forall u :: u in p.table.motions ==> RepeatLabel(u) != l
  {
    hide Suffixed;
    forall u | u in p.table.motions ensures AfterLabel(u) != l && (l == BeforeLabel(t) ==> RepeatLabel(u) != l) {
      KindsApart(t, u);
      KindsApart(u, t);
    }
  }

  /**
   A due tick waits, without a trace, for what comes before its loop; it is counted as skipped while the
   last one is queued; otherwise, in scope, it is queued, and out of scope it is not.
  */
  lemma {:induction false} TickQueues(p: LiveProgram, s: System, t: Trigger, focus: Focus, clock: nat -> nat)
    requires WellFormed(p) && Repeats(p, t) && focus.Context?
    ensures var (motion, s') := (p.table.motions[t], RepeatTick(p, s, p.table.motions[t], focus, clock));
      var (l, before) := (Describe(t) + " repeat", Describe(t) + " loop_before");
      if before in s.queue.active then s' == s
      else if l in s.queue.active then
        && s' == s.(queue := s.queue.(skips := s'.queue.skips))
        && SkipsOf(s'.queue, l) == SkipsOf(s.queue, l) + 1
        && forall other :: other != l ==> SkipsOf(s'.queue, other) == SkipsOf(s.queue, other)
      else if !InScope(p, focus) then s' == Observe(p, s, focus.observed)
      else
        s'.queue.runs == Observe(p, s, focus.observed).queue.runs
        + [FreshRun(p, s.queue.nextId + 1, l, motion.loopDefinition.value.body.tick, motion.interActionDelayMs, clock)]
  {
    hide Describe;
    hide Observe;
    hide Enqueue;
    KindsApart(t, t);
    ObserveKeepsLabels(p, s, focus.observed);
    var motion, s1 := p.table.motions[t], Observe(p, s, focus.observed);
    if RepeatLabel(t) !in s.queue.active {
      Enqueued(p, s1, RepeatLabel(t), motion.loopDefinition.value.body.tick, motion.interActionDelayMs, clock);
    }
  }

  lemma RepeatTickLeaves(p: LiveProgram, s: System, t: Trigger, focus: Focus, clock: nat -> nat, l: string)
    requires WellFormed(p) && t in p.table.motions && focus.Context? && NotAfter(p, l)
    requires RepeatLabel(t) != l || BeforeLabel(t) in s.queue.active
    ensures LeavesAll(s.queue, TakeDeactivation(p, RepeatTick(p, s, p.table.motions[t], focus, clock), clock).queue, l)
  {
    hide Suffixed;
    hide TakeDeactivation;
    hide Observe;
    hide IdsUnder;
    hide Scheduled;
    var motion := p.table.motions[t];
    var s1, s2 := Observe(p, s, focus.observed), RepeatTick(p, s, motion, focus, clock);
    ObserveLeaves(p, s, focus.observed, l);
    if motion.loopDefinition.Some? && motion.loopDefinition.value.body.Repeat? && RepeatLabel(t) != l {
      ScheduledLeaves(s1.queue, RepeatLabel(t), p.processScoped, motion.loopDefinition.value.body.tick,
                      motion.interActionDelayMs, clock(s1.queue.nextId + 1), l);
      LeavesThrough(s.queue, s1.queue, Enqueue(p, s1, RepeatLabel(t), motion.loopDefinition.value.body.tick,
                                               motion.interActionDelayMs, clock).queue, l);
      if RepeatLabel(t) in s.queue.active {
        SameRunsLeave(s.queue, s2.queue, l);
      }
    }
    DeactivationLeaves(p, s2, clock, l);
    LeavesThrough(s.queue, s2.queue, TakeDeactivation(p, s2, clock).queue, l);
  }

  lemma SameRunsLeave(q: Queue, q': Queue, l: string)
    requires q'.runs == q.runs && q'.active == q.active
    ensures Leaves(q, q', l)
  {
  }

  lemma ScanTickLeaves(p: LiveProgram, s: System, t: Trigger, focus: Focus, now: nat, clock: nat -> nat, l: string)
    requires WellFormed(p) && NotAfter(p, l)
    requires RepeatLabel(t) != l || BeforeLabel(t) in s.queue.active
    ensures LeavesAll(s.queue, ScanTick(p, s, t, focus, now, clock).0.queue, l)
  {
    hide RepeatTick;
    hide TakeDeactivation;
    hide Suffixed;
    hide TickDue;
    hide IdsUnder;
    if t in p.table.motions && focus.Context? {
      RepeatTickLeaves(p, s, t, focus, clock, l);
    }
  }

  lemma {:induction false} ScanLeavesLabel(
    p: LiveProgram, s: System, triggers: seq<Trigger>, focus: nat -> Focus, i: nat, now: nat, clock: nat -> nat, l: string)
    requires WellFormed(p) && i <= |triggers| && NotAfter(p, l)
    requires forall j :: i <= j < |triggers| ==> RepeatLabel(triggers[j]) != l
    ensures LeavesAll(s.queue, ScanTicks(p, s, triggers, focus, i, now, clock).0.queue, l)
    decreases |triggers| - i
  {
    hide ScanTick;
    hide Suffixed;
    hide IdsUnder;
    if i < |triggers| {
      var (s1, ok) := ScanTick(p, s, triggers[i], focus(i), now, clock);
      ScanTickLeaves(p, s, triggers[i], focus(i), now, clock, l);
      if ok {
        ScanLeavesLabel(p, s1, triggers, focus, i + 1, now, clock, l);
        LeavesThrough(s.queue, s1.queue, ScanTicks(p, s1, triggers, focus, i + 1, now, clock).0.queue, l);
      }
    }
  }

  /** While what comes before the loop is queued, no scan queues a tick of it, nor counts one as skipped. */
  lemma {:induction false} TickWaitsForBefore(
    p: LiveProgram, s: System, triggers: seq<Trigger>, focus: nat -> Focus, i: nat, now: nat, clock: nat -> nat, t: Trigger)
    requires WellFormed(p) && t in p.table.motions && OwnRepeatLabel(p, t) && BeforeLabel(t) in s.queue.active
    requires i <= |triggers| && forall u :: u in triggers ==> u in p.table.motions
    ensures LeavesAll(s.queue, ScanTicks(p, s, triggers, focus, i, now, clock).0.queue, RepeatLabel(t))
    decreases |triggers| - i
  {
    hide ScanTick;
    hide Suffixed;
    hide IdsUnder;
    TickLabelsApart(p, t, RepeatLabel(t));
    TickLabelsApart(p, t, BeforeLabel(t));
    KindsApart(t, t);
    if i < |triggers| {
      assert triggers[i] in triggers;
      var (s1, ok) := ScanTick(p, s, triggers[i], focus(i), now, clock);
      ScanTickLeaves(p, s, triggers[i], focus(i), now, clock, RepeatLabel(t));
      ScanTickLeaves(p, s, triggers[i], focus(i), now, clock, BeforeLabel(t));
      if ok {
        TickWaitsForBefore(p, s1, triggers, focus, i + 1, now, clock, t);
        LeavesThrough(s.queue, s1.queue, ScanTicks(p, s1, triggers, focus, i + 1, now, clock).0.queue, RepeatLabel(t));
      }
    }
  }

  /** The process is in scope at each look of the scan. */
  ghost predicate StaysInScope(p: LiveProgram, focus: nat -> Focus) {
    forall i: nat :: focus(i).Context? && p.processScoped ==> focus(i).observed && focus(i).decided
  }

  lemma ObserveInScope(p: LiveProgram, s: System, observed: bool)
    requires p.processScoped ==> observed
    ensures var s' := Observe(p, s, observed); s'.queue == s.queue && s'.deactivated == s.deactivated
  {
  }

  /** In scope, one entry of the scan cancels nothing and ends no loop. */
  lemma ScanTickInScope(p: LiveProgram, s: System, t: Trigger, focus: Focus, now: nat, clock: nat -> nat)
    requires WellFormed(p) && !s.deactivated
    requires focus.Context? && p.processScoped ==> focus.observed && focus.decided
    ensures var s' := ScanTick(p, s, t, focus, now, clock).0;
      KeepsRuns(s, s') && s'.matcher == s.matcher && !s'.deactivated
  {
    hide Suffixed;
    hide Observe;
    hide TickDue;
    if focus.Context? {
      ObserveInScope(p, s, focus.observed);
      ObserveKeepsLabels(p, s, focus.observed);
    }
  }

  lemma {:induction false} ScanInScope(
    p: LiveProgram, s: System, triggers: seq<Trigger>, focus: nat -> Focus, i: nat, now: nat, clock: nat -> nat)
    requires WellFormed(p) && !s.deactivated && i <= |triggers| && StaysInScope(p, focus)
    ensures var s' := ScanTicks(p, s, triggers, focus, i, now, clock).0;
      KeepsRuns(s, s') && s'.matcher == s.matcher
    decreases |triggers| - i
  {
    hide ScanTick;
    if i < |triggers| {
      var (s1, ok) := ScanTick(p, s, triggers[i], focus(i), now, clock);
      ScanTickInScope(p, s, triggers[i], focus(i), now, clock);
      if ok {
        ScanInScope(p, s1, triggers, focus, i + 1, now, clock);
      }
    }
  }

  /** The tick of `t` is queued, not cancelled and not begun. */
  ghost predicate TickQueued(p: LiveProgram, s: System, t: Trigger, clock: nat -> nat)
    requires Repeats(p, t)
  {
    var motion := p.table.motions[t];
    exists id :: FreshRun(p, id, Describe(t) + " repeat", motion.loopDefinition.value.body.tick,
                          motion.interActionDelayMs, clock) in s.queue.runs
  }

  /** An active loop whose tick is due and has nothing in its way. */
  ghost predicate TickReady(p: LiveProgram, s: System, t: Trigger, now: nat)
    requires Repeats(p, t)
  {
    && t in s.matcher.loops && TickDue(p, s, t, now)
    && RepeatLabel(t) !in s.queue.active && BeforeLabel(t) !in s.queue.active
  }

  lemma ReadyTickQueues(p: LiveProgram, s: System, t: Trigger, focus: Focus, now: nat, clock: nat -> nat)
    requires WellFormed(p) && Repeats(p, t) && TickReady(p, s, t, now) && !s.deactivated
    requires InScope(p, focus) && (p.processScoped ==> focus.observed)
    ensures TickQueued(p, ScanTick(p, s, t, focus, now, clock).0, t, clock)
  {
    hide Suffixed;
    hide Observe;
    hide RepeatTick;
    KindsApart(t, t);
    TickQueues(p, s, t, focus, clock);
    TickStateInScope(p, s, t, focus, clock);
    var runs := RepeatTick(p, s, p.table.motions[t], focus, clock).queue.runs;
    assert runs[|runs| - 1] in runs;
  }

  lemma TickStateInScope(p: LiveProgram, s: System, t: Trigger, focus: Focus, clock: nat -> nat)
    requires t in p.table.motions && !s.deactivated && focus.Context? && (p.processScoped ==> focus.observed)
    ensures !RepeatTick(p, s, p.table.motions[t], focus, clock).deactivated
  {
    hide Suffixed;
    hide Observe;
    ObserveInScope(p, s, focus.observed);
  }

  lemma OtherTickLeavesReady(
    p: LiveProgram, s: System, u: Trigger, focus: Focus, now: nat, clock: nat -> nat, t: Trigger)
    requires WellFormed(p) && Repeats(p, t) && OwnRepeatLabel(p, t) && u in p.table.motions && u != t
    requires !s.deactivated && (focus.Context? && p.processScoped ==> focus.observed && focus.decided)
    ensures TickReady(p, s, t, now) ==> TickReady(p, ScanTick(p, s, u, focus, now, clock).0, t, now)
  {
    hide ScanTick;
    hide Suffixed;
    hide IdsUnder;
    TickLabelsApart(p, t, RepeatLabel(t));
    TickLabelsApart(p, t, BeforeLabel(t));
    ScanTickLeaves(p, s, u, focus, now, clock, RepeatLabel(t));
    ScanTickLeaves(p, s, u, focus, now, clock, BeforeLabel(t));
    ScanTickInScope(p, s, u, focus, now, clock);
    ScanTickOther(p, s, u, focus, now, clock, t);
  }

  /** A whole scan in scope queues every tick that is due with nothing in its way. */
  lemma {:induction false} DueTickQueued(
    p: LiveProgram, s: System, triggers: seq<Trigger>, focus: nat -> Focus, i: nat, now: nat, clock: nat -> nat, t: Trigger)
    requires WellFormed(p) && Repeats(p, t) && OwnRepeatLabel(p, t) && TickReady(p, s, t, now)
    requires !s.deactivated && StaysInScope(p, focus)
    requires i <= |triggers| && t in triggers[i..] && forall u :: u in triggers ==> u in p.table.motions
    requires ScanTicks(p, s, triggers, focus, i, now, clock).1
    ensures TickQueued(p, ScanTicks(p, s, triggers, focus, i, now, clock).0, t, clock)
    decreases |triggers| - i
  {
    hide ScanTick;
    hide TickReady;
    hide OwnRepeatLabel;
    var s1 := ScanTick(p, s, triggers[i], focus(i), now, clock).0;
    assert triggers[i] in triggers;
    ScanTickInScope(p, s, triggers[i], focus(i), now, clock);
    if triggers[i] == t {
      FocusWasKnown(p, s, t, focus(i), now, clock);
      ReadyTickQueues(p, s, t, focus(i), now, clock);
      ScanInScope(p, s1, triggers, focus, i + 1, now, clock);
      TickStays(p, s1, ScanTicks(p, s1, triggers, focus, i + 1, now, clock).0, t, clock);
    } else {
      OtherTickLeavesReady(p, s, triggers[i], focus(i), now, clock, t);
      DueTickQueued(p, s1, triggers, focus, i + 1, now, clock, t);
    }
  }

  lemma TickStays(p: LiveProgram, s: System, s': System, t: Trigger, clock: nat -> nat)
    requires Repeats(p, t) && TickQueued(p, s, t, clock) && KeepsRuns(s, s')
    ensures TickQueued(p, s', t, clock)
  {
  }

  lemma FocusWasKnown(p: LiveProgram, s: System, t: Trigger, focus: Focus, now: nat, clock: nat -> nat)
    requires Repeats(p, t) && TickReady(p, s, t, now) && ScanTick(p, s, t, focus, now, clock).1
    ensures focus.Context?
  {
  }

  /** The same for a step of the event loop. */
  lemma {:induction false} ScanQueuesDueTicks(p: LiveProgram, s: System, step: LiveStep, t: Trigger)
    requires WellFormed(p) && Repeats(p, t) && OwnRepeatLabel(p, t)
    requires step.ScanStep? && !s.deactivated && StaysInScope(p, step.scanFocus) && LiveStepFrom(p, s, step).2
    requires t in s.matcher.loops && TickDue(p, s, t, step.now)
    requires RepeatLabel(t) !in s.queue.active && BeforeLabel(t) !in s.queue.active
    ensures TickQueued(p, LiveStepFrom(p, s, step).0, t, step.clock)
  {
    hide ScanTicks;
    hide Suffixed;
    var triggers := RepeatingMotions(p.table);
    RepeatingDistinct(p.table);
    assert triggers[0..] == triggers;
    DueTickQueued(p, s, triggers, step.scanFocus, 0, step.now, step.clock, t);
  }

  lemma {:induction false} ScanWaitsForBefore(p: LiveProgram, s: System, step: LiveStep, t: Trigger)
    requires WellFormed(p) && t in p.table.motions && OwnRepeatLabel(p, t)
    requires step.ScanStep? && BeforeLabel(t) in s.queue.active
    ensures LeavesAll(s.queue, LiveStepFrom(p, s, step).0.queue, RepeatLabel(t))
  {
    hide ScanTicks;
    hide Suffixed;
    hide IdsUnder;
    RepeatingDistinct(p.table);
    TickWaitsForBefore(p, s, RepeatingMotions(p.table), step.scanFocus, 0, step.now, step.clock, t);
  }

  // ---- nothing is left due ----

  lemma {:induction false} ScanMissesNone(
    p: LiveProgram, s: System, triggers: seq<Trigger>, focus: nat -> Focus, i: nat, now: nat, clock: nat -> nat, t: Trigger)
    requires WellFormed(p) && Repeats(p, t) && i <= |triggers| && t in triggers[i..]
    requires forall j, k :: 0 <= j < k < |triggers| ==> triggers[j] != triggers[k]
    requires ScanTicks(p, s, triggers, focus, i, now, clock).1
    requires t in ScanTicks(p, s, triggers, focus, i, now, clock).0.matcher.loops
    ensures t in TickedIn(p, s, triggers, focus, i, now, clock) || !TickDue(p, s, t, now)
    decreases |triggers| - i
  {
    hide ScanTick;
    hide ScanFires;
    hide TickDue;
    var s1 := ScanTick(p, s, triggers[i], focus(i), now, clock).0;
    ScanUnfolds(p, s, triggers, focus, i, now, clock, t);
    if triggers[i] == t {
      assert t !in triggers[i + 1..];
      ScanLeaves(p, s1, triggers, focus, i + 1, now, clock, t);
      ScanTickTicks(p, s, t, focus(i), now, clock);
      DueFires(p, s, t, focus(i), now, clock);
    } else {
      ScanMissesNone(p, s1, triggers, focus, i + 1, now, clock, t);
      ScanTickOther(p, s, triggers[i], focus(i), now, clock, t);
      SameTickSameDue(p, s, s1, t, now);
    }
  }

  lemma DueFires(p: LiveProgram, s: System, t: Trigger, focus: Focus, now: nat, clock: nat -> nat)
    requires Repeats(p, t) && t in s.matcher.loops && ScanTick(p, s, t, focus, now, clock).1
    ensures TickDue(p, s, t, now) ==> ScanFires(p, s, t, focus, now)
  {
  }

  lemma SameTickSameDue(p: LiveProgram, s: System, s': System, t: Trigger, now: nat)
    requires Repeats(p, t) && SameTick(s, s', t)
    ensures TickDue(p, s, t, now) <==> TickDue(p, s', t, now)
  {
  }

  /** After a successful scan, no active loop with an interval is due any more. */
  lemma {:induction false} NoneDueAfterScan(p: LiveProgram, s: System, step: LiveStep, t: Trigger)
    requires WellFormed(p) && Repeats(p, t) && Interval(p, t) > 0
    requires step.ScanStep? && LiveStepFrom(p, s, step).2 && t in LiveStepFrom(p, s, step).0.matcher.loops
    ensures !TickDue(p, LiveStepFrom(p, s, step).0, t, step.now)
  {
    hide ScanTicks;
    hide TickedIn;
    var triggers := RepeatingMotions(p.table);
    RepeatingDistinct(p.table);
    assert triggers[0..] == triggers;
    ScanMissesNone(p, s, triggers, step.scanFocus, 0, step.now, step.clock, t);
    StepScanned(p, s, step, t);
  }
}

/**
 What comes after a loop is queued when the loop ends, by a release or by a lost focus
 (crates/signal-auras-cli/src/runner.rs:2333-2348, 4040-4056, 4124-4149).
*/
module LiveAfters {
  import opened Motion
  import opened MotionRuns
  import opened MacroQueue
  import opened LiveRuntime
  import opened LiveInvariants
  import opened LiveLaws

  ghost predicate HasAfter(p: LiveProgram, t: Trigger) {
    t in p.table.motions && p.table.motions[t].loopDefinition.Some? && p.table.motions[t].loopDefinition.value.after.Some?
  }

  /** What comes after the loop of `t` is queued, not cancelled and not begun. */
  ghost predicate AfterQueued(p: LiveProgram, s: System, t: Trigger, clock: nat -> nat)
    requires HasAfter(p, t)
  {
    var motion := p.table.motions[t];
    exists id :: FreshRun(p, id, Describe(t) + " loop_after", motion.loopDefinition.value.after.value,
                          motion.interActionDelayMs, clock) in s.queue.runs
  }

  /** It is queued, or its label is still free. */
  ghost predicate AfterPending(p: LiveProgram, s: System, t: Trigger, clock: nat -> nat)
    requires HasAfter(p, t)
  {
    AfterLabel(t) !in s.queue.active || AfterQueued(p, s, t, clock)
  }

  /** No other motion's text makes the same label. */
  ghost predicate OwnAfterLabel(p: LiveProgram, t: Trigger) {
    forall u :: u in p.table.motions && u != t ==> AfterLabel(u) != AfterLabel(t)
  }

  ghost predicate AfterKept(p: LiveProgram, s: System, s': System, t: Trigger, clock: nat -> nat)
    requires HasAfter(p, t)
  {
    && (AfterQueued(p, s, t, clock) ==> AfterQueued(p, s', t, clock))
    && (AfterPending(p, s, t, clock) ==> AfterPending(p, s', t, clock))
  }

  lemma RunsKept(p: LiveProgram, s: System, s': System, t: Trigger, clock: nat -> nat)
    requires HasAfter(p, t) && KeepsRuns(s, s')
    ensures AfterQueued(p, s, t, clock) ==> AfterQueued(p, s', t, clock)
    ensures s'.queue.active == s.queue.active ==> AfterKept(p, s, s', t, clock)
  {
  }

  lemma LoopAfterQueues(p: LiveProgram, s: System, u: Trigger, clock: nat -> nat, t: Trigger)
    requires HasAfter(p, t) && OwnAfterLabel(p, t)
    ensures AfterKept(p, s, ScheduleLoopAfter(p, s, u, clock), t, clock)
    ensures u == t && AfterPending(p, s, t, clock) ==> AfterQueued(p, ScheduleLoopAfter(p, s, u, clock), t, clock)
  {
    hide Describe;
    hide Suffixed;
    var s' := ScheduleLoopAfter(p, s, u, clock);
    RunsKept(p, s, s', t, clock);
    if u == t && AfterLabel(t) !in s.queue.active {
      KindsApart(t, t);
      var motion := p.table.motions[t];
      Enqueued(p, s, AfterLabel(t), motion.loopDefinition.value.after.value, motion.interActionDelayMs, clock);
      assert s'.queue.runs[|s.queue.runs|] in s'.queue.runs;
    }
  }

  lemma {:induction false} LoopAftersQueue(p: LiveProgram, s: System, triggers: seq<Trigger>, clock: nat -> nat, t: Trigger)
    requires HasAfter(p, t) && OwnAfterLabel(p, t)
    ensures AfterKept(p, s, LoopAfters(p, s, triggers, clock), t, clock)
    ensures t in triggers && AfterPending(p, s, t, clock) ==> AfterQueued(p, LoopAfters(p, s, triggers, clock), t, clock)
    decreases |triggers|
  {
    hide AfterQueued;
    hide AfterPending;
    hide OwnAfterLabel;
    hide ScheduleLoopAfter;
    if triggers != [] {
      LoopAfterQueues(p, s, triggers[0], clock, t);
      LoopAftersQueue(p, ScheduleLoopAfter(p, s, triggers[0], clock), triggers[1..], clock, t);
    }
  }

  /** A lost focus ends every active loop, and what comes after each is queued. */
  lemma {:induction false} DeactivationQueuesAfter(p: LiveProgram, s: System, clock: nat -> nat, t: Trigger)
    requires WellFormed(p) && HasAfter(p, t) && OwnAfterLabel(p, t)
    ensures AfterKept(p, s, TakeDeactivation(p, s, clock), t, clock)
    ensures s.deactivated && t in s.matcher.loops && AfterLabel(t) !in s.queue.active ==>
      AfterQueued(p, TakeDeactivation(p, s, clock), t, clock)
  {
    hide Describe;
    hide OwnAfterLabel;
    hide LoopAfters;
    var s1 := s.(deactivated := false, matcher := s.matcher.(loops := {}));
    RunsKept(p, s, s1, t, clock);
    ListedMeaning(p.table.order, s.matcher.loops);
    LoopAftersQueue(p, s1, Listed(p.table.order, s.matcher.loops), clock, t);
  }

  lemma {:induction false} LoopAftersLeaveLoops(p: LiveProgram, s: System, triggers: seq<Trigger>, clock: nat -> nat)
    ensures LoopAfters(p, s, triggers, clock).matcher == s.matcher
    ensures LoopAfters(p, s, triggers, clock).deactivated == s.deactivated
    decreases |triggers|
  {
    hide Describe;
    if triggers != [] {
      LoopAftersLeaveLoops(p, ScheduleLoopAfter(p, s, triggers[0], clock), triggers[1..], clock);
    }
  }

  lemma {:induction false} DeactivationEndsLoops(p: LiveProgram, s: System, clock: nat -> nat)
    ensures s.deactivated ==> TakeDeactivation(p, s, clock).matcher.loops == {}
    ensures !TakeDeactivation(p, s, clock).deactivated
  {
    hide LoopAfters;
    LoopAftersLeaveLoops(p, s.(deactivated := false, matcher := s.matcher.(loops := {})),
                         Listed(p.table.order, s.matcher.loops), clock);
  }

  /** Cancelling the runs of a loop touches none under another label. */
  lemma CancelKeepsOthers(p: LiveProgram, s: System, l: string, t: Trigger, clock: nat -> nat)
    requires HasAfter(p, t) && l != AfterLabel(t)
    ensures AfterKept(p, s, s.(queue := Cancel(s.queue, HasLabel(l))), t, clock)
  {
    hide Describe;
    KindsApart(t, t);
    var q' := Cancel(s.queue, HasLabel(l));
    if AfterQueued(p, s, t, clock) {
      var motion := p.table.motions[t];
      var after := motion.loopDefinition.value.after.value;
      var id :| FreshRun(p, id, AfterLabel(t), after, motion.interActionDelayMs, clock) in s.queue.runs;
      var i :| 0 <= i < |s.queue.runs|
        && s.queue.runs[i] == FreshRun(p, id, AfterLabel(t), after, motion.interActionDelayMs, clock);
      assert q'.runs[i] == s.queue.runs[i];
    }
  }

  lemma ReleaseQueuesAfter(p: LiveProgram, s: System, u: Trigger, clock: nat -> nat, t: Trigger)
    requires HasAfter(p, t) && OwnAfterLabel(p, t)
    ensures AfterKept(p, s, ReleaseLoop(p, s, u, clock), t, clock)
    ensures u == t && AfterPending(p, s, t, clock) ==> AfterQueued(p, ReleaseLoop(p, s, u, clock), t, clock)
  {
    hide Cancel;
    hide HasLabel;
    hide Suffixed;
    hide AfterQueued;
    hide AfterPending;
    hide OwnAfterLabel;
    hide ScheduleLoopAfter;
    KindsApart(u, t);
    var s1 := s.(queue := Cancel(s.queue, HasLabel(RepeatLabel(u))));
    var s2 := s.(queue := Cancel(s1.queue, HasLabel(BeforeLabel(u))));
    var s3 := s.(queue := Cancel(s2.queue, HasLabel(OnceLabel(u))));
    CancelKeepsOthers(p, s, RepeatLabel(u), t, clock);
    CancelKeepsOthers(p, s1, BeforeLabel(u), t, clock);
    CancelKeepsOthers(p, s2, OnceLabel(u), t, clock);
    LoopAfterQueues(p, s3, u, clock, t);
  }

  lemma {:induction false} CancelsQueueAfter(
    p: LiveProgram, s: System, events: seq<Event>, focus: nat -> Focus, i: nat, clock: nat -> nat, t: Trigger)
    requires WellFormed(p) && HasAfter(p, t) && OwnAfterLabel(p, t) && i <= |events|
    requires forall e :: e in events ==> !e.Triggered?
    requires AfterPending(p, s, t, clock) && (AfterQueued(p, s, t, clock) || LoopCancelled(t) in events[i..])
    requires HandleEvents(p, s, events, focus, i, clock).1
    ensures AfterQueued(p, HandleEvents(p, s, events, focus, i, clock).0, t, clock)
    decreases |events| - i
  {
    hide AfterPending;
    hide AfterQueued;
    hide OwnAfterLabel;
    hide ReleaseLoop;
    hide TakeDeactivation;
    if i < |events| {
      assert events[i..] == [events[i]] + events[i + 1..];
      if events[i].Discarded? {
        CancelsQueueAfter(p, s, events, focus, i + 1, clock, t);
      } else {
        assert events[i] in events;
        var s1 := ReleaseLoop(p, s, events[i].loop, clock);
        ReleaseQueuesAfter(p, s, events[i].loop, clock, t);
        DeactivationQueuesAfter(p, s1, clock, t);
        CancelsQueueAfter(p, TakeDeactivation(p, s1, clock), events, focus, i + 1, clock, t);
      }
    }
  }

  /** After a handled release that ends the loop of `t`, what comes after it is queued. */
  lemma {:induction false} ReleasedLoopQueuesAfter(p: LiveProgram, s: System, step: LiveStep, t: Trigger)
    requires WellFormed(p) && HasAfter(p, t) && OwnAfterLabel(p, t)
    requires step.InputStep? && step.input.Released? && LoopCancelled(t) in StepEvents(p, s, step)
    requires AfterLabel(t) !in s.queue.active && LiveStepFrom(p, s, step).2
    ensures AfterQueued(p, LiveStepFrom(p, s, step).0, t, step.clock)
  {
    hide AfterQueued;
    hide OwnAfterLabel;
    hide HandleEvents;
    hide Describe;
    var (matcher, events) := Step(p.table, s.matcher, step.input);
    assert forall e :: e in events ==> !e.Triggered?;
    assert events[0..] == events;
    CancelsQueueAfter(p, s.(matcher := matcher), events, step.eventFocus, 0, step.clock, t);
  }
}

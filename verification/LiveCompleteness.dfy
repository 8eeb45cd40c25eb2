/**
 Completeness in the live pipeline: inputs that perform a motion trigger it, whatever scans, shortcuts
 and drives come between them, and its macro is then in the queue.
*/
module LiveCompleteness {
  import opened Wrappers
  import opened Motion
  import opened MotionRuns
  import opened Configuration
  import opened MotionCompleteness
  import opened LiveRuntime
  import opened LiveInvariants
  import opened LiveHistory
  import opened LiveLaws

  /** The inputs among these steps, in order. */
  function InputsOf(steps: seq<LiveStep>): seq<Input> {
    if steps == [] then []
    else
      var last := steps[|steps| - 1];
      InputsOf(steps[..|steps| - 1]) + if last.InputStep? then [last.input] else []
  }

  // ---- the matcher's own history over a stretch of steps ----

  /** `h[..at[k]]` leads the matcher to where it is before step `k`; an input step then handles `h[at[k]]`. */
  ghost predicate Follows(p: LiveProgram, s: System, steps: seq<LiveStep>, h: seq<Input>, at: seq<nat>) {
    && |at| == |steps|
    && forall k :: 0 <= k < |steps| ==>
         && at[k] <= |h|
         && After(p.table, s.matcher, h[..at[k]]) == LiveAfter(p, s, steps[..k]).0.matcher
         && (steps[k].InputStep? ==> at[k] < |h| && h[at[k]] == steps[k].input)
  }

  lemma LiveAfterSnoc(p: LiveProgram, s: System, steps: seq<LiveStep>, last: LiveStep)
    requires LiveAfter(p, s, steps).1
    ensures var (s', _, ok) := LiveStepFrom(p, LiveAfter(p, s, steps).0, last);
      LiveAfter(p, s, steps + [last]) == (s', ok)
  {
    hide LiveStepFrom;
    assert (steps + [last])[..|steps|] == steps;
  }

  lemma InputsSnoc(steps: seq<LiveStep>, last: LiveStep)
    ensures InputsOf(steps + [last]) == InputsOf(steps) + if last.InputStep? then [last.input] else []
  {
    assert (steps + [last])[..|steps|] == steps;
  }

  lemma FollowsSnoc(
    p: LiveProgram, s: System, steps: seq<LiveStep>, last: LiveStep, h: seq<Input>, at: seq<nat>, more: seq<Input>)
    requires Follows(p, s, steps, h, at)
    requires After(p.table, s.matcher, h) == LiveAfter(p, s, steps).0.matcher
    requires last.InputStep? ==> more != [] && more[0] == last.input
    ensures Follows(p, s, steps + [last], h + more, at + [|h|])
  {
    hide LiveAfter;
    hide After;
    var all := steps + [last];
    forall k | 0 <= k < |all|
      ensures var i := (at + [|h|])[k];
        && i <= |h + more|
        && After(p.table, s.matcher, (h + more)[..i]) == LiveAfter(p, s, all[..k]).0.matcher
        && (all[k].InputStep? ==> i < |h + more| && (h + more)[i] == all[k].input)
    {
      if k < |steps| {
        assert all[..k] == steps[..k] && (h + more)[..at[k]] == h[..at[k]];
      } else {
        assert all[..k] == steps && (h + more)[..|h|] == h;
      }
    }
  }

  lemma ExtendFrom(table: MotionTable, s: Matcher, h: seq<Input>, input: Input)
    ensures After(table, s, h + [input]) == Step(table, After(table, s, h), input).0
    ensures WithoutCancels(h + [input]) == WithoutCancels(h) + if input.CancelLoops? then [] else [input]
  {
    AfterSnoc(table, s, h, input);
    WithoutSnoc(h, input);
  }

  /** What one step adds to the matcher's history: its input, and perhaps an ending of the loops. */
  lemma {:induction false} StepHistory(p: LiveProgram, s: System, step: LiveStep, from: Matcher, h: seq<Input>)
    returns (more: seq<Input>)
    requires WellFormed(p) && StepOk(step) && After(p.table, from, h) == s.matcher
    ensures After(p.table, from, h + more) == LiveStepFrom(p, s, step).0.matcher
    ensures WithoutCancels(h + more) == WithoutCancels(h) + if step.InputStep? then [step.input] else []
    ensures step.InputStep? ==> more != [] && more[0] == step.input
  {
    hide Step;
    hide LiveStepFrom;
    hide After;
    StepMatcher(p, s, step);
    more := [];
    assert h + more == h;
    assert WithoutCancels(h) + [] == WithoutCancels(h);
    if step.InputStep? {
      more := [step.input];
      ExtendFrom(p.table, from, h, step.input);
    }
    if After(p.table, from, h + more) != LiveStepFrom(p, s, step).0.matcher {
      ExtendFrom(p.table, from, h + more, CancelLoops);
      EndsLoops(p.table, After(p.table, from, h + more));
      assert h + more + [CancelLoops] == h + (more + [CancelLoops]);
      more := more + [CancelLoops];
    }
  }

  lemma {:induction false} StretchHistory(p: LiveProgram, s: System, steps: seq<LiveStep>) returns (h: seq<Input>, at: seq<nat>)
    requires WellFormed(p) && LiveAfter(p, s, steps).1
    requires forall step :: step in steps ==> StepOk(step)
    ensures After(p.table, s.matcher, h) == LiveAfter(p, s, steps).0.matcher
    ensures WithoutCancels(h) == InputsOf(steps)
    ensures Follows(p, s, steps, h, at)
    ensures steps == [] ==> h == []
    ensures steps != [] && steps[0].InputStep? ==> h != [] && h[0] == steps[0].input
    ensures |at| == |steps| && (steps != [] && steps[0].InputStep? ==> forall k :: 0 < k < |steps| ==> at[k] > 0)
  {
    hide LiveStepFrom;
    hide Follows;
    h, at := [], [];
    if steps == [] {
      NothingFollows(p, s);
    } else {
      var before, last := steps[..|steps| - 1], steps[|steps| - 1];
      assert steps == before + [last];
      h, at := StretchHistory(p, s, before);
      LiveAfterSnoc(p, s, before, last);
      InputsSnoc(before, last);
      var more := StepHistory(p, LiveAfter(p, s, before).0, last, s.matcher, h);
      FollowsSnoc(p, s, before, last, h, at, more);
      assert before != [] ==> before[0] == steps[0];
      h, at := h + more, at + [|h|];
    }
  }

  lemma NothingFollows(p: LiveProgram, s: System)
    ensures Follows(p, s, [], [], [])
  {
  }

  // ---- performing, with endings of the loops in between ----

  lemma {:induction false} PressedWithout(h: seq<Input>)
    ensures PressedTokens(WithoutCancels(h)) == PressedTokens(h)
    ensures forall input :: input in h && !input.CancelLoops? ==> input in WithoutCancels(h)
  {
    if h != [] {
      var before, last := h[..|h| - 1], h[|h| - 1];
      PressedWithout(before);
      assert h == before + [last];
      if !last.CancelLoops? {
        assert (WithoutCancels(before) + [last])[..|WithoutCancels(before)|] == WithoutCancels(before);
      } else {
        assert WithoutCancels(before) + [] == WithoutCancels(before);
      }
    }
  }

  /** Every input of `h` but the endings of the loops is among these. */
  ghost predicate Covered(h: seq<Input>, inputs: seq<Input>) {
    forall input :: input in h && !input.CancelLoops? ==> input in inputs
  }

  lemma InTimeCovered(h: seq<Input>, inputs: seq<Input>, start: nat, window: nat)
    requires Covered(h, inputs)
    requires forall k :: 0 <= k < |inputs| && inputs[k].Pressed? ==> SatSub(inputs[k].at, start) <= window
    ensures forall k :: 0 <= k < |h| && h[k].Pressed? ==> SatSub(h[k].at, start) <= window
  {
    forall k | 0 <= k < |h| && h[k].Pressed? ensures SatSub(h[k].at, start) <= window {
      assert h[k] in inputs;
    }
  }

  lemma NoReleaseCovered(h: seq<Input>, inputs: seq<Input>, tokens: seq<Token>)
    requires Covered(h, inputs) && NoReleaseOf(inputs, tokens)
    ensures NoReleaseOf(h, tokens)
  {
    forall k | 0 <= k < |h| && h[k].Released? ensures h[k].token !in tokens {
      assert h[k] in inputs;
    }
  }

  lemma PerformsWithEndings(table: MotionTable, s: Matcher, inputs: seq<Input>, h: seq<Input>, t: Trigger)
    requires Performs(table, s, inputs, t) && WithoutCancels(h) == inputs
    requires h != [] && h[0] == inputs[0] && h[|h| - 1] == inputs[|inputs| - 1]
    ensures Performs(table, s, h, t)
  {
    hide PressedTokens;
    hide WithoutCancels;
    hide NoReleaseOf;
    PressedWithout(h);
    hide Covered;
    assert Covered(h, inputs) by {
      CoveredMeaning(h, inputs);
    }
    InTimeCovered(h, inputs, h[0].at, table.motions[t].Window());
    forall u | u in table.motions ensures NoReleaseOf(h, table.motions[u].requiresHeld) {
      NoReleaseCovered(h, inputs, table.motions[u].requiresHeld);
    }
  }

  lemma CoveredMeaning(h: seq<Input>, inputs: seq<Input>)
    requires forall input :: input in h && !input.CancelLoops? ==> input in inputs
    ensures Covered(h, inputs)
  {
  }

  /** The steps begin and end with an input, and their inputs perform `t`; the event loop goes on up to the last. */
  ghost predicate PerformsLive(p: LiveProgram, s: System, steps: seq<LiveStep>, t: Trigger) {
    && steps != [] && steps[0].InputStep? && steps[|steps| - 1].InputStep?
    && (forall step :: step in steps ==> StepOk(step))
    && LiveAfter(p, s, steps[..|steps| - 1]).1
    && Performs(p.table, s.matcher, InputsOf(steps), t)
  }

  lemma {:induction false} InputsStart(steps: seq<LiveStep>)
    requires steps != [] && steps[0].InputStep?
    ensures InputsOf(steps) != [] && InputsOf(steps)[0] == steps[0].input
  {
    if |steps| > 1 {
      InputsStart(steps[..|steps| - 1]);
    } else {
      assert steps[..0] == [];
    }
  }

  lemma FollowsBefore(p: LiveProgram, s: System, steps: seq<LiveStep>, h: seq<Input>, at: seq<nat>, k: nat)
    requires Follows(p, s, steps, h, at) && k < |steps| && steps[k].InputStep?
    ensures at[k] < |h|
  {
    hide LiveAfter;
    hide After;
  }

  lemma FollowsSize(p: LiveProgram, s: System, steps: seq<LiveStep>, h: seq<Input>, at: seq<nat>)
    requires Follows(p, s, steps, h, at)
    ensures |at| == |steps|
  {
  }

  /** The history of a performance, but for its last input, followed by that input performs the trigger. */
  lemma HistoryPerforms(p: LiveProgram, s: System, steps: seq<LiveStep>, t: Trigger, h: seq<Input>)
    requires PerformsLive(p, s, steps, t)
    requires var before := steps[..|steps| - 1];
      WithoutCancels(h) == InputsOf(before) && (before != [] ==> h != [] && h[0] == before[0].input)
      && (before == [] ==> h == [])
    ensures Performs(p.table, s.matcher, h + [steps[|steps| - 1].input], t)
  {
    hide WithoutCancels;
    hide InputsOf;
    hide Performs;
    hide LiveAfter;
    var before, last := steps[..|steps| - 1], steps[|steps| - 1];
    assert steps == before + [last];
    WithoutSnoc(h, last.input);
    InputsSnoc(before, last);
    InputsStart(steps);
    PerformsLast(p, s, steps, t);
    PerformsWithEndings(p.table, s.matcher, InputsOf(steps), h + [last.input], t);
  }

  lemma StretchParts(p: LiveProgram, s: System, steps: seq<LiveStep>, t: Trigger)
    requires PerformsLive(p, s, steps, t)
    ensures steps != [] && steps[0].InputStep? && steps[|steps| - 1].InputStep?
    ensures LiveAfter(p, s, steps[..|steps| - 1]).1
    ensures forall step :: step in steps[..|steps| - 1] ==> StepOk(step)
  {
  }

  /** The whole history of a live performance, with the last input at its end. */
  lemma {:induction false} PerformanceHistory(p: LiveProgram, s: System, steps: seq<LiveStep>, t: Trigger)
    returns (h: seq<Input>, at: seq<nat>)
    requires WellFormed(p) && PerformsLive(p, s, steps, t)
    ensures Performs(p.table, s.matcher, h, t)
    ensures Follows(p, s, steps, h, at) && |at| == |steps| > 0 && at[|steps| - 1] == |h| - 1
    ensures forall k :: 0 <= k < |steps| - 1 && steps[k].InputStep? ==> at[k] < |h| - 1
    ensures h[0] == steps[0].input && (|h| == 1 <==> |steps| == 1)
    ensures forall k :: 0 < k < |steps| ==> at[k] > 0
  {
    hide LiveAfter;
    hide After;
    hide Follows;
    hide WithoutCancels;
    hide InputsOf;
    hide Performs;
    hide PerformsLive;
    hide StepOk;
    StretchParts(p, s, steps, t);
    var before, last := steps[..|steps| - 1], steps[|steps| - 1];
    assert steps == before + [last];
    var h0, at0 := StretchHistory(p, s, before);
    FollowsSize(p, s, before, h0, at0);
    FollowsSnoc(p, s, before, last, h0, at0, [last.input]);
    h, at := h0 + [last.input], at0 + [|h0|];
    HistoryPerforms(p, s, steps, t, h0);
    forall k | 0 <= k < |steps| - 1 && steps[k].InputStep? ensures at[k] < |h| - 1 {
      assert before[k] == steps[k];
      FollowsBefore(p, s, before, h0, at0, k);
    }
  }

  lemma PerformsLast(p: LiveProgram, s: System, steps: seq<LiveStep>, t: Trigger)
    requires PerformsLive(p, s, steps, t)
    ensures InputsOf(steps) != [] && InputsOf(steps)[|InputsOf(steps)| - 1] == steps[|steps| - 1].input
    ensures !steps[|steps| - 1].input.CancelLoops?
  {
    assert steps[|steps| - 1] in steps;
  }

  lemma FollowedEvents(p: LiveProgram, s: System, steps: seq<LiveStep>, h: seq<Input>, at: seq<nat>, k: nat)
    requires Follows(p, s, steps, h, at) && k < |steps| && steps[k].InputStep?
    ensures at[k] < |h|
    ensures StepEvents(p, LiveAfter(p, s, steps[..k]).0, steps[k]) == EventsAt(p.table, s.matcher, h, at[k])
  {
    hide LiveAfter;
    hide After;
    hide Step;
  }

  /** What an attempt open at the beginning leaves in the log, if the performance begins and ends with one press. */
  function LeftoverAtOnce(p: LiveProgram, s: System, steps: seq<LiveStep>): seq<Event>
    requires steps != [] && steps[0].InputStep? && steps[0].input.Pressed?
  {
    if |steps| == 1 then Leftover(p.table, s.matcher, steps[0].input) else []
  }

  lemma FirstEvents(p: LiveProgram, s: System, step: LiveStep, h: seq<Input>)
    requires step.InputStep? && h != [] && h[0] == step.input
    ensures StepEvents(p, s, step) == EventsAt(p.table, s.matcher, h, 0)
  {
    assert h[..0] == [];
  }

  lemma LastEvents(table: MotionTable, s: Matcher, h: seq<Input>, t: Trigger, before: Matcher)
    requires h != [] && After(table, s, h[..|h| - 1]) == before && t in table.motions
    ensures StartsLoop(table, After(table, s, h).held, t) ==
      StartsLoop(table, Step(table, before, h[|h| - 1]).0.held, t)
  {
    hide Step;
    AfterPrefix(table, s, h, |h| - 1);
    assert h[..|h|] == h;
  }

  lemma PerformsFirst(p: LiveProgram, s: System, steps: seq<LiveStep>, t: Trigger)
    requires PerformsLive(p, s, steps, t)
    ensures steps[0].input.Pressed? && t in p.table.motions
  {
    InputsStart(steps);
  }

  /**
   Completeness over live runs: under a prefix-free configuration, steps whose inputs perform `t` trigger
   it at the last input and nothing else before, whatever scans, shortcuts and drives lie between the
   inputs. This holds from any state whose open attempt, if any, the first press does not carry on; that
   press then reports it, once.
  */
  lemma {:induction false} LiveTriggerCompleteness(p: LiveProgram, s: System, steps: seq<LiveStep>, t: Trigger)
    requires WellFormed(p) && PrefixFree(p.table.motions.Keys)
    requires PerformsLive(p, s, steps, t) && Freed(p.table, s.matcher, steps[0].input)
    ensures steps[0].input.Pressed? && t in p.table.motions
    ensures |steps| > 1 ==> StepEvents(p, s, steps[0]) == Leftover(p.table, s.matcher, steps[0].input)
    ensures forall k, e :: 0 < k < |steps| - 1 && e in StepEvents(p, LiveAfter(p, s, steps[..k]).0, steps[k]) ==>
      e.LoopCancelled?
    ensures var before, last := LiveAfter(p, s, steps[..|steps| - 1]).0, steps[|steps| - 1];
      StepEvents(p, before, last) ==
      LeftoverAtOnce(p, s, steps)
      + [Triggered(t, StartsLoop(p.table, Step(p.table, before.matcher, last.input).0.held, t))]
  {
    hide LiveAfter;
    hide After;
    hide EventsAt;
    hide Freed;
    hide Leftover;
    hide Step;
    hide Performs;
    hide StepEvents;
    hide StartsLoop;
    var h, at := PerformanceHistory(p, s, steps, t);
    PerformsFirst(p, s, steps, t);
    TriggerCompleteness(p.table, s.matcher, h, t);
    FirstEvents(p, s, steps[0], h);
    forall k, e | 0 < k < |steps| - 1 && e in StepEvents(p, LiveAfter(p, s, steps[..k]).0, steps[k])
      ensures e.LoopCancelled?
    {
      if steps[k].InputStep? {
        FollowedEvents(p, s, steps, h, at, k);
      } else {
        NoOtherEvents(p, LiveAfter(p, s, steps[..k]).0, steps[k]);
      }
    }
    FollowedEvents(p, s, steps, h, at, |steps| - 1);
    LastEvents(p.table, s.matcher, h, t, LiveAfter(p, s, steps[..|steps| - 1]).0.matcher);
  }

  lemma NoOtherEvents(p: LiveProgram, s: System, step: LiveStep)
    ensures !step.InputStep? ==> StepEvents(p, s, step) == []
  {
  }

  // ---- and the macro is queued ----

  /** The state in which the events of an input step are handled: after the matcher and the press definition. */
  function BeforeEvents(p: LiveProgram, s: System, step: LiveStep): (System, bool)
    requires step.InputStep?
  {
    HandlePressDefinition(p, s.(matcher := Step(p.table, s.matcher, step.input).0), step.input, step.pressFocus, step.clock)
  }

  lemma {:induction false} DiscardsPass(
    p: LiveProgram, s: System, events: seq<Event>, focus: nat -> Focus, i: nat, n: nat, clock: nat -> nat)
    requires i <= n <= |events| && forall j :: i <= j < n ==> events[j].Discarded?
    ensures HandleEvents(p, s, events, focus, i, clock) == HandleEvents(p, s, events, focus, n, clock)
    decreases n - i
  {
    if i < n {
      DiscardsPass(p, s, events, focus, i + 1, n, clock);
    }
  }

  lemma TriggerStepQueues(p: LiveProgram, s: System, step: LiveStep, t: Trigger, startsLoop: bool, left: seq<Event>)
    requires WellFormed(p) && step.InputStep? && t in p.table.motions
    requires StepEvents(p, s, step) == left + [Triggered(t, startsLoop)] && forall e :: e in left ==> e.Discarded?
    requires BeforeEvents(p, s, step).1 && InScope(p, step.eventFocus(|left|))
    ensures var (q, motion) := (BeforeEvents(p, s, step).0.queue, p.table.motions[t]);
      var own := MacroRuns(p, q, t, motion, step.clock);
      var loop := if startsLoop then LoopRuns(p, q, t, motion, q.nextId + 1 + |own|, step.clock) else [];
      forall run :: run in own + loop ==> run in LiveStepFrom(p, s, step).0.queue.runs
    ensures LiveStepFrom(p, s, step).2
  {
    hide Step;
    hide HandlePressDefinition;
    hide ScheduleRuntimeEvent;
    hide TakeDeactivation;
    hide MacroRuns;
    hide LoopRuns;
    var s1, n, events := BeforeEvents(p, s, step).0, |left|, StepEvents(p, s, step);
    assert events[n] == Triggered(t, startsLoop) && |events| == n + 1;
    TriggerQueues(p, s1, t, startsLoop, step.eventFocus(n), step.clock);
    var s2 := ScheduleRuntimeEvent(p, s1, events[n], step.eventFocus(n), step.clock);
    DeactivationKeepsRuns(p, s2, step.clock);
    forall j | 0 <= j < n ensures events[j].Discarded? {
      assert events[j] == left[j] && left[j] in left;
    }
    DiscardsPass(p, s1, events, step.eventFocus, 0, n, step.clock);
    LastEvent(p, s1, events, step.eventFocus, step.clock);
  }

  lemma LastEvent(p: LiveProgram, s: System, events: seq<Event>, focus: nat -> Focus, clock: nat -> nat)
    requires events != [] && !events[|events| - 1].Discarded? && focus(|events| - 1).Context?
    ensures var n := |events| - 1;
      HandleEvents(p, s, events, focus, n, clock) ==
      (TakeDeactivation(p, ScheduleRuntimeEvent(p, s, events[n], focus(n), clock), clock), true)
  {
    hide ScheduleRuntimeEvent;
    hide TakeDeactivation;
    var n := |events| - 1;
    var s' := TakeDeactivation(p, ScheduleRuntimeEvent(p, s, events[n], focus(n), clock), clock);
    assert HandleEvents(p, s', events, focus, n + 1, clock) == (s', true);
  }

  lemma LeftoverDiscards(p: LiveProgram, s: System, steps: seq<LiveStep>)
    requires steps != [] && steps[0].InputStep? && steps[0].input.Pressed?
    ensures forall e :: e in LeftoverAtOnce(p, s, steps) ==> e.Discarded?
  {
  }

  /**
   From the performance to the queue: when the last input finds the focus in scope, the motion's macro is
   queued under its label if that is free, and, if the tokens that the loop needs are held, so is the
   beginning of the loop under its own; neither is cancelled, and nothing of them is done yet.
  */
  lemma {:induction false} PerformedMotionIsQueued(p: LiveProgram, s: System, steps: seq<LiveStep>, t: Trigger)
    requires WellFormed(p) && PrefixFree(p.table.motions.Keys)
    requires PerformsLive(p, s, steps, t) && Freed(p.table, s.matcher, steps[0].input)
    requires var before, last := LiveAfter(p, s, steps[..|steps| - 1]).0, steps[|steps| - 1];
      BeforeEvents(p, before, last).1 && InScope(p, last.eventFocus(if |steps| == 1 && s.matcher.attempt.Some? then 1 else 0))
    ensures var before, last, motion := LiveAfter(p, s, steps[..|steps| - 1]).0, steps[|steps| - 1], p.table.motions[t];
      var q := BeforeEvents(p, before, last).0.queue;
      var own := MacroRuns(p, q, t, motion, last.clock);
      && (forall run :: run in own ==> run in LiveAfter(p, s, steps).0.queue.runs)
      && (StartsLoop(p.table, Step(p.table, before.matcher, last.input).0.held, t) ==>
            forall run :: run in LoopRuns(p, q, t, motion, q.nextId + 1 + |own|, last.clock) ==>
              run in LiveAfter(p, s, steps).0.queue.runs)
  {
    hide BeforeEvents;
    hide StepEvents;
    hide LiveStepFrom;
    hide MacroRuns;
    hide LoopRuns;
    hide InScope;
    hide StartsLoop;
    hide Freed;
    var earlier, last := steps[..|steps| - 1], steps[|steps| - 1];
    var before := LiveAfter(p, s, earlier).0;
    LiveTriggerCompleteness(p, s, steps, t);
    var startsLoop := StartsLoop(p.table, Step(p.table, before.matcher, last.input).0.held, t);
    LeftoverDiscards(p, s, steps);
    TriggerStepQueues(p, before, last, t, startsLoop, LeftoverAtOnce(p, s, steps));
    LiveAfterSnoc(p, s, earlier, last);
    assert steps == earlier + [last];
  }
}

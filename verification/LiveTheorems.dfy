/**
 The main results about whole runs of the live pipeline.
*/
module LiveTheorems {
  import opened Wrappers
  import opened Motion
  import opened MotionRuns
  import opened MotionAccounting
  import opened Configuration
  import opened MacroQueue
  import opened QueueInvariants
  import opened LiveRuntime
  import opened LiveInvariants
  import opened LiveHistory

  lemma {:induction false} ReachableLive(p: LiveProgram, steps: seq<LiveStep>)
    requires WellFormed(p)
    ensures LiveInv(p, LiveAfter(p, START, steps).0, None)
  {
    if steps == [] {
      assert IDLE == After(p.table, IDLE, []);
    } else {
      var before := steps[..|steps| - 1];
      ReachableLive(p, before);
      LiveStepKeeps(p, LiveAfter(p, START, before).0, steps[|steps| - 1], None);
    }
  }

  // ---- queue consistency and bounded depth ----

  lemma {:induction false} ImageSize<T>(domain: set<T>, f: T -> string, image: set<string>)
    requires image == set x | x in domain :: f(x)
    ensures |image| <= |domain|
  {
    if domain != {} {
      var x :| x in domain;
      var rest := set y | y in domain - {x} :: f(y);
      ImageSize(domain - {x}, f, rest);
      assert image == rest + {f(x)};
    } else {
      assert image == {};
    }
  }

  lemma {:induction false} ListImageSize<T>(items: seq<T>, f: T -> string, image: set<string>)
    requires image == set x | x in items :: f(x)
    ensures |image| <= |items|
  {
    if items != [] {
      var rest := set x | x in items[1..] :: f(x);
      ListImageSize(items[1..], f, rest);
      assert forall x :: x in items <==> x == items[0] || x in items[1..];
      assert image == rest + {f(items[0])};
    } else {
      assert image == {};
    }
  }

  lemma MotionLabelsSize(triggers: set<Trigger>)
    ensures |MotionLabels(triggers)| <= 5 * |triggers|
  {
    var a, b := set t | t in triggers :: Describe(t), set t | t in triggers :: RepeatLabel(t);
    var c, d := set t | t in triggers :: BeforeLabel(t), set t | t in triggers :: OnceLabel(t);
    var e := set t | t in triggers :: AfterLabel(t);
    ImageSize(triggers, (t: Trigger) => Describe(t), a);
    ImageSize(triggers, (t: Trigger) => RepeatLabel(t), b);
    ImageSize(triggers, (t: Trigger) => BeforeLabel(t), c);
    ImageSize(triggers, (t: Trigger) => OnceLabel(t), d);
    ImageSize(triggers, (t: Trigger) => AfterLabel(t), e);
    assert MotionLabels(triggers) == a + b + c + d + e;
  }

  lemma {:induction false} LabelsSize(runs: seq<LiveRun>)
    requires Ordered(runs)
    ensures |Labels(runs)| == |runs|
  {
    if runs != [] {
      HeadOrdered(runs);
      LabelsSize(runs[1..]);
      LabelsHead(runs);
      assert runs[0].triggerLabel !in Labels(runs[1..]);
    } else {
      assert Labels(runs) == {};
    }
  }

  lemma {:induction false} SubsetSize(a: set<string>, b: set<string>)
    requires a <= b
    ensures |a| <= |b|
  {
    if a != {} {
      var x :| x in a;
      SubsetSize(a - {x}, b - {x});
    }
  }

  lemma ProgramLabelsSize(p: LiveProgram)
    ensures |ProgramLabels(p)| <= |p.bindings| + |p.presses| + 5 * |p.table.motions|
  {
    var a := set b | b in p.bindings :: BindingLabel(b.trigger);
    var c := set q | q in p.presses :: PressLabel(q.trigger);
    ListImageSize(p.bindings, (b: BindingDefinition) => BindingLabel(b.trigger), a);
    ListImageSize(p.presses, (q: PressDefinition) => PressLabel(q.trigger), c);
    MotionLabelsSize(p.table.motions.Keys);
    assert ProgramLabels(p) == a + c + MotionLabels(p.table.motions.Keys);
  }

  /**
   In every reachable state, also after a step that ended in an error: the active labels are exactly
   those of the queued runs, labels are distinct and ids increase, every accepted run is completed,
   dropped or queued, no cancellation is counted twice, and the queue is bounded by the program,
   whatever the input and tick rates.
  */
  lemma {:induction false} QueueConsistentAndBounded(p: LiveProgram, steps: seq<LiveStep>)
    requires WellFormed(p)
    ensures var q := LiveAfter(p, START, steps).0.queue;
      && q.active == Labels(q.runs)
      && Ordered(q.runs)
      && q.nextId == q.completed + q.dropped + |q.runs|
      && q.cancelledRuns == q.dropped + CountCancelled(q.runs)
      && |q.runs| <= |p.bindings| + |p.presses| + 5 * |p.table.motions|
  {
    var q := LiveAfter(p, START, steps).0.queue;
    ReachableLive(p, steps);
    LabelsSize(q.runs);
    SubsetSize(Labels(q.runs), ProgramLabels(p));
    ProgramLabelsSize(p);
  }

  // ---- triggers in the live pipeline ----

  /**
   Every trigger of a live run was performed by what was actually observed: `h` is the inputs of the
   steps carried out so far, in order, with nothing added but endings of the loops, and then the input
   of this step; and the last presses of `h` perform the trigger.
  */
  lemma {:induction false} LiveTriggerSoundness(
    p: LiveProgram, steps: seq<LiveStep>, step: LiveStep, t: Trigger, startsLoop: bool)
    returns (h: seq<Input>, b: nat)
    requires WellFormed(p)
    requires step.InputStep?
    requires Triggered(t, startsLoop) in StepEvents(p, LiveAfter(p, START, steps).0, step)
    ensures h != [] && h[|h| - 1] == step.input
    ensures WithoutCancels(h[..|h| - 1]) == LiveInputs(p, steps)
    ensures After(p.table, IDLE, h[..|h| - 1]) == LiveAfter(p, START, steps).0.matcher
    ensures Performed(p.table, h, b, t)
  {
    hide LiveAfter;
    hide Step;
    hide LiveInputs;
    var before := LiveHistoryOf(p, steps);
    h := before + [step.input];
    assert h[..|h| - 1] == before;
    b := TriggerSoundness(p.table, h, |h| - 1, t, startsLoop);
    assert h[..|h|] == h;
  }

  // ---- no repeat output after release ----

  /** Every run under one of the labels is cancelled. */
  ghost predicate Hushed(runs: seq<LiveRun>, labels: set<string>) {
    forall run :: run in runs && run.triggerLabel in labels ==> run.state.cancelled
  }

  lemma CancelHushes(runs: seq<LiveRun>, l: string, labels: set<string>)
    requires Hushed(runs, labels)
    ensures Hushed(CancelRuns(runs, HasLabel(l)), labels + {l})
  {
    var runs' := CancelRuns(runs, HasLabel(l));
    forall run | run in runs' && run.triggerLabel in labels + {l} ensures run.state.cancelled {
      var i :| 0 <= i < |runs| && runs'[i] == run;
      assert runs[i] in runs;
    }
  }

  /** `ReleaseLoop` cancels all that loop `t` has queued before it queues what comes after. */
  lemma ReleaseLoopSilences(p: LiveProgram, s: System, t: Trigger, clock: nat -> nat)
    requires LiveInv(p, s, None) && LabelsApart(p, t) && t !in s.matcher.loops
    ensures LiveInv(p, ReleaseLoop(p, s, t, clock), Some(t))
  {
    var s1 := s.(queue := Cancel(s.queue, HasLabel(RepeatLabel(t))));
    var s2 := s1.(queue := Cancel(s1.queue, HasLabel(BeforeLabel(t))));
    var s3 := s2.(queue := Cancel(s2.queue, HasLabel(OnceLabel(t))));
    assert LiveInv(p, s3, None) by {
      CancelKeepsLive(p, s, HasLabel(RepeatLabel(t)), None);
      CancelKeepsLive(p, s1, HasLabel(BeforeLabel(t)), None);
      CancelKeepsLive(p, s2, HasLabel(OnceLabel(t)), None);
    }
    assert Hushed(s3.queue.runs, LoopLabels(t)) by {
      CancelHushes(s.queue.runs, RepeatLabel(t), {});
      CancelHushes(s1.queue.runs, BeforeLabel(t), {} + {RepeatLabel(t)});
      CancelHushes(s2.queue.runs, OnceLabel(t), {} + {RepeatLabel(t)} + {BeforeLabel(t)});
      assert {} + {RepeatLabel(t)} + {BeforeLabel(t)} + {OnceLabel(t)} == LoopLabels(t);
    }
    LoopAfterKeeps(p, s3, t, clock, Some(t));
  }

  /** Handling the cancellation of `t` silences it, and the events after it leave it silent. */
  lemma {:induction false} EventsSilence(
    p: LiveProgram, s: System, events: seq<Event>, focus: nat -> Focus, i: nat, clock: nat -> nat, t: Trigger)
    requires WellFormed(p) && LiveInv(p, s, None) && LabelsApart(p, t)
    requires t !in s.matcher.loops && Triggered(t, true) !in events
    requires i <= |events| && LoopCancelled(t) in events[i..]
    requires HandleEvents(p, s, events, focus, i, clock).1
    ensures LiveInv(p, HandleEvents(p, s, events, focus, i, clock).0, Some(t))
    decreases |events| - i
  {
    assert i < |events|;
    assert forall e :: e in events[i..] ==> e == events[i] || e in events[i + 1..];
    if events[i].Discarded? {
      EventsSilence(p, s, events, focus, i + 1, clock, t);
    } else {
      var s1 := ScheduleRuntimeEvent(p, s, events[i], focus(i), clock);
      var s2 := TakeDeactivation(p, s1, clock);
      if events[i] == LoopCancelled(t) {
        ReleaseLoopSilences(p, s, t, clock);
        TakeDeactivationKeeps(p, s1, clock, Some(t));
        HandleEventsKeep(p, s2, events, focus, i + 1, clock, Some(t));
      } else {
        RuntimeEventKeeps(p, s, events[i], focus(i), clock, None);
        TakeDeactivationKeeps(p, s1, clock, None);
        EventsSilence(p, s2, events, focus, i + 1, clock, t);
      }
    }
  }

  /** The step is an observed release that cancels loop `t`. */
  ghost predicate ReleaseCancels(p: LiveProgram, s: System, step: LiveStep, t: Trigger) {
    step.InputStep? && step.input.Released? && LoopCancelled(t) in StepEvents(p, s, step)
  }

  lemma ReleaseSilences(p: LiveProgram, s: System, step: LiveStep, t: Trigger)
    requires WellFormed(p) && LiveInv(p, s, None) && LabelsApart(p, t)
    requires ReleaseCancels(p, s, step, t) && LiveStepFrom(p, s, step).2
    ensures LiveInv(p, LiveStepFrom(p, s, step).0, Some(t))
  {
    var token := step.input.token;
    var (matcher, events) := Release(p.table, s.matcher, token);
    var before :| s.matcher == After(p.table, IDLE, before);
    MatcherInvariant(p.table, before);
    ReleaseLog(p.table, s.matcher, token, t);
    MatcherStepKeeps(p, s, step.input, None);
    assert events[0..] == events;
    EventsSilence(p, s.(matcher := matcher), events, step.eventFocus, 0, step.clock, t);
  }

  /** From step `k` on, no input starts loop `t`. */
  ghost predicate NotRestarted(p: LiveProgram, steps: seq<LiveStep>, k: nat, t: Trigger) {
    forall j :: k <= j < |steps| ==>
      Triggered(t, true) !in StepEvents(p, LiveAfter(p, START, steps[..j]).0, steps[j])
  }

  lemma {:induction false} StaysSilent(p: LiveProgram, steps: seq<LiveStep>, k: nat, t: Trigger)
    requires WellFormed(p) && LabelsApart(p, t)
    requires k < |steps| && NotRestarted(p, steps, k + 1, t)
    requires ReleaseCancels(p, LiveAfter(p, START, steps[..k]).0, steps[k], t)
    requires LiveAfter(p, START, steps[..k + 1]).1
    ensures LiveInv(p, LiveAfter(p, START, steps).0, Some(t))
  {
    hide LiveInv;
    hide LiveStepFrom;
    if |steps| == k + 1 {
      assert steps[..k + 1] == steps;
      ReachableLive(p, steps[..k]);
      ReleaseSilences(p, LiveAfter(p, START, steps[..k]).0, steps[k], t);
    } else {
      var before := steps[..|steps| - 1];
      assert before[..k] == steps[..k] && before[..k + 1] == steps[..k + 1];
      forall j | k + 1 <= j < |before| ensures before[..j] == steps[..j] {
      }
      StaysSilent(p, before, k, t);
      LiveStepKeeps(p, LiveAfter(p, START, before).0, steps[|steps| - 1], Some(t));
    }
  }

  /**
   No repeat output after release: once a release that cancels loop `t` has been handled, no step
   makes a request for a run labelled as its repeat, its before or its once macro until an input
   starts the loop again, for every interleaving of inputs, shortcuts, tick scans and drives.
  */
  lemma {:induction false} NoRepeatAfterRelease(p: LiveProgram, steps: seq<LiveStep>, k: nat, t: Trigger)
    requires WellFormed(p) && LabelsApart(p, t)
    requires k < |steps| - 1 && NotRestarted(p, steps, k + 1, t)
    requires ReleaseCancels(p, LiveAfter(p, START, steps[..k]).0, steps[k], t)
    requires LiveAfter(p, START, steps[..k + 1]).1
    ensures forall o :: o in LastOutputs(p, START, steps) ==> o.triggerLabel !in LoopLabels(t)
  {
    hide LiveInv;
    hide LiveStepFrom;
    hide LabelsApart;
    hide ReleaseCancels;
    var before := steps[..|steps| - 1];
    assert before[..k] == steps[..k] && before[..k + 1] == steps[..k + 1];
    forall j | k + 1 <= j < |before| ensures before[..j] == steps[..j] {
    }
    StaysSilent(p, before, k, t);
    LiveStepKeeps(p, LiveAfter(p, START, before).0, steps[|steps| - 1], Some(t));
  }
}

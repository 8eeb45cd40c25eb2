/**
 The requests of a live run, run by run: what a queued macro emits over any number of drives, whatever
 else goes on, refines the blocking executor started when the macro was queued.
*/
module LiveRefinement {
  import opened Wrappers
  import opened MacroPlan
  import opened MacroRefinement
  import opened MacroQueue
  import opened QueueInvariants
  import opened LiveRuntime
  import opened LiveInvariants
  import opened LiveTheorems
  import opened LiveHistory

  // ---- one drive, one run ----

  /** The requests of the run with this id, and when they were made. */
  function EmissionsOf(outputs: seq<Output>, id: nat, now: nat): seq<Emission> {
    if outputs == [] then []
    else (if outputs[0].id == id then [Emission(outputs[0].request, now)] else []) + EmissionsOf(outputs[1..], id, now)
  }

  lemma {:induction false} EmissionsAppend(a: seq<Output>, b: seq<Output>, id: nat, now: nat)
    ensures EmissionsOf(a + b, id, now) == EmissionsOf(a, id, now) + EmissionsOf(b, id, now)
  {
    if a == [] {
      assert a + b == b;
    } else {
      EmissionsAppend(a[1..], b, id, now);
      var first := if a[0].id == id then [Emission(a[0].request, now)] else [];
      assert (a + b)[1..] == a[1..] + b && (a + b)[0] == a[0];
      assert first + (EmissionsOf(a[1..], id, now) + EmissionsOf(b, id, now)) ==
        first + EmissionsOf(a[1..], id, now) + EmissionsOf(b, id, now);
    }
  }

  lemma {:induction false} NoEmissions(outputs: seq<Output>, id: nat, now: nat)
    requires forall o :: o in outputs ==> o.id != id
    ensures EmissionsOf(outputs, id, now) == []
  {
    if outputs != [] {
      NoEmissions(outputs[1..], id, now);
    }
  }

  lemma VisitEmissions(run: LiveRun, now: nat, answer: Answer)
    ensures EmissionsOf(Visit(run, now, answer).outputs, run.state.id, now) == MacroRefinement.Emitted(run.state.Poll(now).1, now)
    ensures forall o :: o in Visit(run, now, answer).outputs ==> o.id == run.state.id
    ensures forall kept :: kept in Visit(run, now, answer).kept ==> kept == Polled(run, now)
  {
    VisitMeaning(run, now, answer);
  }

  /** Nothing is emitted under an id that no run has, and no run gets it. */
  lemma {:induction false} DriveOthers(runs: seq<LiveRun>, now: nat, answers: nat -> Answer, k: nat, id: nat)
    requires forall run :: run in runs ==> run.state.id != id
    ensures var d := DriveRuns(runs, now, answers, k);
      && (forall o :: o in d.outputs ==> o.id != id)
      && (forall run :: run in d.kept ==> run.state.id != id)
  {
    if runs != [] {
      hide Visit;
      var first := Visit(runs[0], now, answers(k));
      VisitEmissions(runs[0], now, answers(k));
      PolledKeepsId(runs[0], now);
      assert forall run :: run in runs[1..] ==> run in runs;
      DriveOthers(runs[1..], now, answers, k + |first.outputs|, id);
    }
  }

  lemma PolledKeepsId(run: LiveRun, now: nat)
    ensures Polled(run, now).state.id == run.state.id && Polled(run, now).triggerLabel == run.triggerLabel
  {
  }

  lemma VisitLeaves(run: LiveRun, now: nat, answer: Answer)
    ensures forall id :: HasId(Visit(run, now, answer).kept, id) <==> id == run.state.id && !Finished(run, now)
  {
    VisitMeaning(run, now, answer);
    if !Finished(run, now) {
      assert Visit(run, now, answer).kept[0] == Polled(run, now);
      assert Polled(run, now) in Visit(run, now, answer).kept && Polled(run, now).state.id == run.state.id;
    }
  }

  lemma IdAppend(a: seq<LiveRun>, b: seq<LiveRun>, id: nat)
    ensures HasId(a + b, id) <==> HasId(a, id) || HasId(b, id)
  {
    if HasId(a, id) {
      var run :| run in a && run.state.id == id;
      assert run in a + b;
    }
    if HasId(b, id) {
      var run :| run in b && run.state.id == id;
      assert run in a + b;
    }
  }

  /** What is left of the run: nothing, or the run polled, or the run untouched behind a refusal. */
  ghost predicate LeftAs(kept: seq<LiveRun>, id: nat, run: LiveRun) {
    forall other :: other in kept && other.state.id == id ==> other == run
  }

  lemma MemberHasId(runs: seq<LiveRun>, run: LiveRun)
    requires run in runs
    ensures HasId(runs, run.state.id)
  {
  }

  lemma NoneHasId(runs: seq<LiveRun>, id: nat)
    requires forall run :: run in runs ==> run.state.id != id
    ensures !HasId(runs, id)
  {
  }

  /** In one drive a run is polled once, and emits what that poll says, or it is not touched. */
  lemma {:induction false} DriveOne(runs: seq<LiveRun>, now: nat, answers: nat -> Answer, k: nat, run: LiveRun)
    returns (visited: bool)
    requires Ordered(runs) && run in runs
    ensures DriveRuns(runs, now, answers, k).ok ==> visited
    ensures HasId(DriveRuns(runs, now, answers, k).kept, run.state.id) <==> !(visited && Finished(run, now))
    ensures var d := DriveRuns(runs, now, answers, k);
      && EmissionsOf(d.outputs, run.state.id, now) == (if visited then MacroRefinement.Emitted(run.state.Poll(now).1, now) else [])
      && LeftAs(d.kept, run.state.id, if visited then Polled(run, now) else run)
  {
    hide Visit;
    hide Ordered;
    hide EmissionsOf;
    hide HasId;
    var id := run.state.id;
    var first := Visit(runs[0], now, answers(k));
    var rest := if first.ok then DriveRuns(runs[1..], now, answers, k + |first.outputs|)
                else Driven(runs[1..], [], [], false);
    VisitEmissions(runs[0], now, answers(k));
    PolledKeepsId(runs[0], now);
    HeadOrdered(runs);
    EmissionsAppend(first.outputs, rest.outputs, id, now);
    VisitLeaves(runs[0], now, answers(k));
    IdAppend(first.kept, rest.kept, id);
    if runs[0] == run {
      visited := true;
      DriveOthers(runs[1..], now, answers, k + |first.outputs|, id);
      NoEmissions(rest.outputs, id, now);
      NoneHasId(rest.kept, id);
    } else {
      assert run in runs[1..];
      assert Before(runs[0], run);
      NoEmissions(first.outputs, id, now);
      if first.ok {
        visited := DriveOne(runs[1..], now, answers, k + |first.outputs|, run);
      } else {
        visited := false;
        OnlyOne(runs[1..], run);
        MemberHasId(runs[1..], run);
        NoEmissions(rest.outputs, id, now);
      }
    }
  }

  lemma OnlyOne(runs: seq<LiveRun>, run: LiveRun)
    requires Ordered(runs) && run in runs
    ensures LeftAs(runs, run.state.id, run)
  {
    forall other | other in runs && other.state.id == run.state.id ensures other == run {
      var i, j :| 0 <= i < |runs| && 0 <= j < |runs| && runs[i] == run && runs[j] == other;
    }
  }

  // ---- the requests of a whole run ----

  function RunEmissions(p: LiveProgram, steps: seq<LiveStep>, id: nat): seq<Emission> {
    if steps == [] then []
    else
      var last := steps[|steps| - 1];
      RunEmissions(p, steps[..|steps| - 1], id)
      + if last.DriveStep? then EmissionsOf(LastOutputs(p, START, steps), id, last.now) else []
  }

  /** The times of the drives carried out after step `j`; only the last of them can have been refused. */
  function DriveTimes(p: LiveProgram, steps: seq<LiveStep>, j: nat): seq<nat> {
    if |steps| <= j + 1 then []
    else
      var before, last := steps[..|steps| - 1], steps[|steps| - 1];
      DriveTimes(p, before, j) + if LiveAfter(p, START, before).1 && last.DriveStep? then [last.now] else []
  }

  ghost predicate CancelledIn(runs: seq<LiveRun>, id: nat) {
    exists run :: run in runs && run.state.id == id && run.state.cancelled
  }

  /** At some time the run was queued and cancelled. */
  ghost predicate EverCancelled(p: LiveProgram, steps: seq<LiveStep>, id: nat) {
    exists k :: 0 <= k <= |steps| && CancelledIn(LiveAfter(p, START, steps[..k]).0.queue.runs, id)
  }

  /** The emissions so far are those of polls at `times`, and a run still queued is in the state they leave. */
  ghost predicate Traced(emitted: seq<Emission>, runs: seq<LiveRun>, id: nat, plan: Run, times: seq<nat>) {
    && emitted == PollAll(plan, times).1
    && forall run :: run in runs && run.state.id == id ==>
         run.state == PollAll(plan, times).0 || run.state == PollAll(plan, times).0.Cancel()
  }

  /** The last of the polls answered `Complete`. */
  ghost predicate EndsComplete(plan: Run, times: seq<nat>) {
    times != [] && OutcomeAt(plan, times, |times| - 1).Complete?
  }

  /**
   How the polls relate to the drives: they are the first of them; an uncancelled run still queued has
   been polled by all and has not completed; one that is gone completed, unless it was cancelled.
  */
  ghost predicate Fate(ok: bool, ever: bool, runs: seq<LiveRun>, id: nat, plan: Run, drives: seq<nat>, times: seq<nat>) {
    && times <= drives
    && !plan.cancelled
    && (CancelledIn(runs, id) ==> ever)
    && (if HasId(runs, id) then ok && !CancelledIn(runs, id) ==> times == drives && !EndsComplete(plan, times)
        else ever || EndsComplete(plan, times))
  }

  lemma PollMore(plan: Run, times: seq<nat>, now: nat)
    ensures var r := PollAll(plan, times).0;
      && PollAll(plan, times + [now]).0 == r.Poll(now).0
      && PollAll(plan, times + [now]).1 == PollAll(plan, times).1 + MacroRefinement.Emitted(r.Poll(now).1, now)
      && (EndsComplete(plan, times + [now]) <==> r.Poll(now).1.Complete?)
  {
    assert (times + [now])[..|times|] == times;
  }

  lemma CancelledEmitsNothing(r: Run, now: nat)
    ensures r.Cancel().Poll(now) == (r.Cancel(), Cancelled)
  {
  }

  lemma {:induction false} NeverCancelledByPolls(plan: Run, times: seq<nat>)
    ensures PollAll(plan, times).0.cancelled == plan.cancelled
  {
    if times != [] {
      NeverCancelledByPolls(plan, times[..|times| - 1]);
    }
  }

  /** What one drive does to the trace of a run that is queued. */
  lemma {:induction false} DriveTracesQueued(
    q: Queue, now: nat, answers: nat -> Answer, emitted: seq<Emission>, run: LiveRun, plan: Run, drives: seq<nat>,
    times: seq<nat>, ever: bool)
    returns (times': seq<nat>)
    requires QueueInv(q) && run in q.runs
    requires Traced(emitted, q.runs, run.state.id, plan, times)
    requires Fate(true, ever, q.runs, run.state.id, plan, drives, times)
    ensures var (q', outputs, ok) := Drive(q, now, answers);
      && Traced(emitted + EmissionsOf(outputs, run.state.id, now), q'.runs, run.state.id, plan, times')
      && Fate(ok, ever, q'.runs, run.state.id, plan, drives + [now], times')
  {
    hide DriveRuns;
    hide PollAll;
    hide EndsComplete;
    hide Ordered;
    var id := run.state.id;
    times' := times;
    var visited := DriveOne(q.runs, now, answers, 0, run);
    var r := PollAll(plan, times).0;
    NeverCancelledByPolls(plan, times);
    PollMore(plan, times, now);
    OnlyOne(q.runs, run);
    assert HasId(q.runs, id) && (CancelledIn(q.runs, id) <==> run.state.cancelled);
    assert emitted + [] == emitted;
    if visited {
      if run.state == r {
        times' := times + [now];
        PolledStaysUncancelled(run, now);
      } else {
        CancelledEmitsNothing(r, now);
      }
    }
  }

  lemma PolledStaysUncancelled(run: LiveRun, now: nat)
    ensures Polled(run, now).state.cancelled == run.state.cancelled
    ensures !run.state.cancelled ==> (Finished(run, now) <==> run.state.Poll(now).1.Complete?)
  {
  }

  lemma {:induction false} DriveTraces(
    q: Queue, now: nat, answers: nat -> Answer, emitted: seq<Emission>, id: nat, plan: Run, drives: seq<nat>,
    times: seq<nat>, ever: bool)
    returns (times': seq<nat>)
    requires QueueInv(q) && Traced(emitted, q.runs, id, plan, times) && Fate(true, ever, q.runs, id, plan, drives, times)
    ensures var (q', outputs, ok) := Drive(q, now, answers);
      && Traced(emitted + EmissionsOf(outputs, id, now), q'.runs, id, plan, times')
      && Fate(ok, ever, q'.runs, id, plan, drives + [now], times')
  {
    if run :| run in q.runs && run.state.id == id {
      times' := DriveTracesQueued(q, now, answers, emitted, run, plan, drives, times, ever);
    } else {
      hide DriveRuns;
      hide PollAll;
      hide EndsComplete;
      times' := times;
      DriveOthers(q.runs, now, answers, 0, id);
      NoEmissions(DriveRuns(q.runs, now, answers, 0).outputs, id, now);
      assert emitted + [] == emitted;
      assert !HasId(q.runs, id);
    }
  }

  /** A step that is no drive adds no emission and, of runs already known, cancels at most. */
  lemma MovesTrace(
    p: LiveProgram, q: Queue, q': Queue, clock: nat -> nat, emitted: seq<Emission>, id: nat, plan: Run, times: seq<nat>)
    requires Grown(p, q, q', clock) && id <= q.nextId && Traced(emitted, q.runs, id, plan, times)
    ensures Traced(emitted, q'.runs, id, plan, times)
  {
    hide PollAll;
    forall run' | run' in q'.runs && run'.state.id == id
      ensures run'.state == PollAll(plan, times).0 || run'.state == PollAll(plan, times).0.Cancel()
    {
      assert ComesFrom(q.runs, run');
      var run :| run in q.runs && SameOrCancelled(run, run');
    }
  }

  lemma MovesFate(
    p: LiveProgram, q: Queue, q': Queue, clock: nat -> nat, ok: bool, ever: bool, ever': bool, id: nat, plan: Run,
    drives: seq<nat>, times: seq<nat>)
    requires Grown(p, q, q', clock) && id <= q.nextId && Fate(true, ever, q.runs, id, plan, drives, times)
    requires (ever ==> ever') && (CancelledIn(q'.runs, id) ==> ever')
    ensures Fate(ok, ever', q'.runs, id, plan, drives, times)
  {
    hide EndsComplete;
    hide IsNew;
    if HasId(q'.runs, id) {
      var run' :| run' in q'.runs && run'.state.id == id;
      FromKnown(p, q, q', clock, run');
      var run :| run in q.runs && SameOrCancelled(run, run');
      assert HasId(q.runs, id);
      if CancelledIn(q.runs, id) {
        var other :| other in q.runs && other.state.id == id && other.state.cancelled;
        assert LeadsTo(other, q'.runs);
        var other' :| other' in q'.runs && SameOrCancelled(other, other');
        assert CancelledIn(q'.runs, id);
      }
    } else if HasId(q.runs, id) {
      var run :| run in q.runs && run.state.id == id;
      IdLeads(run, q'.runs);
      assert false;
    }
  }

  lemma FromKnown(p: LiveProgram, q: Queue, q': Queue, clock: nat -> nat, run': LiveRun)
    requires Grown(p, q, q', clock) && run' in q'.runs && run'.state.id <= q.nextId
    ensures ComesFrom(q.runs, run')
  {
  }

  /** Queued by step `j`, under this label, for a macro the program configures under it. */
  ghost predicate QueuedAt(
    p: LiveProgram, steps: seq<LiveStep>, j: nat, id: nat, l: string, definition: Macro, delayMs: nat)
  {
    && j < |steps| && !steps[j].DriveStep?
    && LiveAfter(p, START, steps[..j]).0.queue.nextId < id
    && Configured(p, l, definition, delayMs)
    && exists run :: run in LiveAfter(p, START, steps[..j + 1]).0.queue.runs && run.triggerLabel == l
         && run.state.id == id && Queued(p, run, definition, delayMs, steps[j].clock)
  }

  lemma StepParts(p: LiveProgram, steps: seq<LiveStep>)
    requires steps != []
    ensures var before, last := steps[..|steps| - 1], steps[|steps| - 1];
      var (s, ok) := LiveAfter(p, START, before);
      if ok then
        && LiveAfter(p, START, steps) == (LiveStepFrom(p, s, last).0, LiveStepFrom(p, s, last).2)
        && LastOutputs(p, START, steps) == LiveStepFrom(p, s, last).1
      else
        LiveAfter(p, START, steps) == (s, false) && LastOutputs(p, START, steps) == []
  {
    hide LiveStepFrom;
  }

  lemma NextIdGrows(p: LiveProgram, s: System, step: LiveStep)
    requires WellFormed(p)
    ensures s.queue.nextId <= LiveStepFrom(p, s, step).0.queue.nextId
    ensures step.DriveStep? ==> s.queue.nextId == LiveStepFrom(p, s, step).0.queue.nextId
  {
    if !step.DriveStep? {
      hide LiveStepFrom;
      StepMoves(p, s, step);
    }
  }

  /** Nothing is emitted under an id before it is given out. */
  lemma {:induction false} NothingBeforeQueued(p: LiveProgram, steps: seq<LiveStep>, id: nat)
    requires WellFormed(p) && LiveAfter(p, START, steps).0.queue.nextId < id
    ensures RunEmissions(p, steps, id) == []
  {
    hide LiveAfter;
    hide LiveStepFrom;
    hide LastOutputs;
    if steps != [] {
      var before, last := steps[..|steps| - 1], steps[|steps| - 1];
      var s := LiveAfter(p, START, before).0;
      StepParts(p, steps);
      NextIdGrows(p, s, last);
      NothingBeforeQueued(p, before, id);
      ReachableLive(p, before);
      StepSilentFor(p, s, last, id);
      if last.DriveStep? {
        NoEmissions(LastOutputs(p, START, steps), id, last.now);
      }
    }
  }

  lemma StepSilentFor(p: LiveProgram, s: System, step: LiveStep, id: nat)
    requires WellFormed(p) && LiveInv(p, s, None) && s.queue.nextId < id
    ensures forall o :: o in LiveStepFrom(p, s, step).1 ==> o.id != id
  {
    if step.DriveStep? {
      forall o | o in LiveStepFrom(p, s, step).1 ensures o.id != id {
        CancelledRunsAreSilent(s.queue, step.now, step.answers, o);
      }
    } else {
      hide LiveStepFrom;
      StepMoves(p, s, step);
    }
  }

  /** The run a step has just queued, and that it is the only one with its id. */
  lemma {:induction false} JustQueued(p: LiveProgram, q: Queue, q': Queue, clock: nat -> nat, id: nat)
    returns (run: LiveRun, definition: Macro, delayMs: nat)
    requires QueueInv(q) && QueueInv(q') && Grown(p, q, q', clock) && q.nextId < id <= q'.nextId
    ensures run in q'.runs && run.state.id == id && Queued(p, run, definition, delayMs, clock)
    ensures Configured(p, run.triggerLabel, definition, delayMs)
    ensures Traced([], q'.runs, id, NewRun(id, definition, delayMs, clock(id)), [])
  {
    hide Configured;
    assert HasId(q'.runs, id);
    run :| run in q'.runs && run.state.id == id;
    assert !ComesFrom(q.runs, run);
    definition, delayMs :| Queued(p, run, definition, delayMs, clock);
    OnlyOne(q'.runs, run);
  }

  lemma CancelledNow(p: LiveProgram, steps: seq<LiveStep>, id: nat)
    ensures CancelledIn(LiveAfter(p, START, steps).0.queue.runs, id) ==> EverCancelled(p, steps, id)
  {
    hide LiveAfter;
    hide CancelledIn;
    assert steps[..|steps|] == steps;
  }

  lemma CancelledBefore(p: LiveProgram, steps: seq<LiveStep>, id: nat)
    requires steps != []
    ensures EverCancelled(p, steps[..|steps| - 1], id) ==> EverCancelled(p, steps, id)
  {
    hide LiveAfter;
    hide CancelledIn;
    var before := steps[..|steps| - 1];
    if k :| 0 <= k <= |before| && CancelledIn(LiveAfter(p, START, before[..k]).0.queue.runs, id) {
      assert before[..k] == steps[..k];
    }
  }

  /** The trace of a run in a live run: its emissions and its fate. */
  ghost predicate RunTrace(p: LiveProgram, steps: seq<LiveStep>, id: nat, j: nat, plan: Run, times: seq<nat>) {
    var (s, ok) := LiveAfter(p, START, steps);
    && Traced(RunEmissions(p, steps, id), s.queue.runs, id, plan, times)
    && Fate(ok, EverCancelled(p, steps, id), s.queue.runs, id, plan, DriveTimes(p, steps, j), times)
  }

  /** Every id given out stands for a configured macro, queued by one step, whose emissions are those of polls. */
  lemma {:induction false} RunIsTraced(p: LiveProgram, steps: seq<LiveStep>, id: nat)
    returns (j: nat, l: string, definition: Macro, delayMs: nat, times: seq<nat>)
    requires WellFormed(p) && 1 <= id <= LiveAfter(p, START, steps).0.queue.nextId
    ensures QueuedAt(p, steps, j, id, l, definition, delayMs)
    ensures RunTrace(p, steps, id, j, NewRun(id, definition, delayMs, steps[j].clock(id)), times)
  {
    hide LiveAfter;
    hide LiveStepFrom;
    hide LastOutputs;
    hide RunTrace;
    hide Grown;
    hide Queued;
    hide Configured;
    NoneAtStart(p);
    var before, last := steps[..|steps| - 1], steps[|steps| - 1];
    var s := LiveAfter(p, START, before).0;
    StepParts(p, steps);
    NextIdGrows(p, s, last);
    if id <= s.queue.nextId {
      j, l, definition, delayMs, times := RunIsTraced(p, before, id);
      QueuedEarlier(p, steps, j, id, l, definition, delayMs);
      times := StepTraces(p, steps, id, j, NewRun(id, definition, delayMs, steps[j].clock(id)), times);
    } else {
      j, times := |before|, [];
      l, definition, delayMs := QueuedLast(p, steps, id);
    }
  }

  lemma {:induction false} QueuedLast(p: LiveProgram, steps: seq<LiveStep>, id: nat)
    returns (l: string, definition: Macro, delayMs: nat)
    requires WellFormed(p) && steps != [] && LiveAfter(p, START, steps[..|steps| - 1]).0.queue.nextId < id
    requires id <= LiveAfter(p, START, steps).0.queue.nextId
    ensures var j := |steps| - 1;
      && QueuedAt(p, steps, j, id, l, definition, delayMs)
      && RunTrace(p, steps, id, j, NewRun(id, definition, delayMs, steps[j].clock(id)), [])
  {
    hide LiveAfter;
    hide LiveStepFrom;
    hide LastOutputs;
    hide Traced;
    hide Grown;
    hide Queued;
    hide Configured;
    hide CancelledIn;
    hide EverCancelled;
    hide EndsComplete;
    var before, last := steps[..|steps| - 1], steps[|steps| - 1];
    var s, s' := LiveAfter(p, START, before).0, LiveAfter(p, START, steps).0;
    StepParts(p, steps);
    ReachableLive(p, before);
    ReachableLive(p, steps);
    InvQueue(p, s);
    InvQueue(p, s');
    NextIdGrows(p, s, last);
    assert steps[..|before| + 1] == steps;
    StepMoves(p, s, last);
    var run;
    run, definition, delayMs := JustQueued(p, s.queue, s'.queue, last.clock, id);
    l := run.triggerLabel;
    NothingBeforeQueued(p, before, id);
    CancelledNow(p, steps, id);
    assert HasId(s'.queue.runs, id);
    var plan := NewRun(id, definition, delayMs, last.clock(id));
    NothingYet(plan);
    assert RunEmissions(p, steps, id) == [] && DriveTimes(p, steps, |before|) == [];
    assert Traced([], s'.queue.runs, id, plan, []);
    assert Fate(LiveAfter(p, START, steps).1, EverCancelled(p, steps, id), s'.queue.runs, id, plan, [], []);
  }

  lemma NothingYet(plan: Run)
    ensures !EndsComplete(plan, [])
  {
  }

  lemma NoneAtStart(p: LiveProgram)
    ensures LiveAfter(p, START, []).0.queue.nextId == 0
  {
  }

  lemma InvQueue(p: LiveProgram, s: System)
    requires LiveInv(p, s, None)
    ensures QueueInv(s.queue)
  {
  }

  lemma QueuedEarlier(p: LiveProgram, steps: seq<LiveStep>, j: nat, id: nat, l: string, definition: Macro, delayMs: nat)
    requires steps != [] && QueuedAt(p, steps[..|steps| - 1], j, id, l, definition, delayMs)
    ensures QueuedAt(p, steps, j, id, l, definition, delayMs) && steps[..|steps| - 1][j] == steps[j]
  {
    hide LiveAfter;
    var before := steps[..|steps| - 1];
    assert before[..j] == steps[..j] && before[..j + 1] == steps[..j + 1] && before[j] == steps[j];
  }

  lemma {:induction false} StepTraces(p: LiveProgram, steps: seq<LiveStep>, id: nat, j: nat, plan: Run, times: seq<nat>)
    returns (times': seq<nat>)
    requires WellFormed(p) && j < |steps| - 1
    requires var before := steps[..|steps| - 1];
      id <= LiveAfter(p, START, before).0.queue.nextId && RunTrace(p, before, id, j, plan, times)
    ensures RunTrace(p, steps, id, j, plan, times')
  {
    hide LiveAfter;
    hide LastOutputs;
    hide Traced;
    hide Fate;
    hide Grown;
    hide EverCancelled;
    hide Drive;
    var before, last := steps[..|steps| - 1], steps[|steps| - 1];
    var (s, ok) := LiveAfter(p, START, before);
    var emitted, drives := RunEmissions(p, before, id), DriveTimes(p, before, j);
    var ever, ever' := EverCancelled(p, before, id), EverCancelled(p, steps, id);
    StepParts(p, steps);
    ReachableLive(p, before);
    InvQueue(p, s);
    CancelledNow(p, steps, id);
    CancelledBefore(p, steps, id);
    times' := times;
    assert emitted + [] == emitted && drives + [] == drives;
    if !ok {
      FateKept(ok, false, ever, ever', s.queue.runs, id, plan, drives, times);
      assert LastOutputs(p, START, steps) == [] && EmissionsOf([], id, 0) == [];
      if last.DriveStep? {
        NoEmissions([], id, last.now);
      }
    } else if last.DriveStep? {
      times' := DriveTraces(s.queue, last.now, last.answers, emitted, id, plan, drives, times, ever);
      var (q', outputs, ok') := Drive(s.queue, last.now, last.answers);
      FateKept(ok', ok', ever, ever', q'.runs, id, plan, drives + [last.now], times');
    } else {
      StepMoves(p, s, last);
      hide LiveStepFrom;
      var s' := LiveStepFrom(p, s, last).0;
      MovesTrace(p, s.queue, s'.queue, last.clock, emitted, id, plan, times);
      MovesFate(p, s.queue, s'.queue, last.clock, LiveStepFrom(p, s, last).2, ever, ever', id, plan, drives, times);
    }
  }

  lemma FateKept(
    ok: bool, ok': bool, ever: bool, ever': bool, runs: seq<LiveRun>, id: nat, plan: Run, drives: seq<nat>, times: seq<nat>)
    requires Fate(ok, ever, runs, id, plan, drives, times) && (ever ==> ever') && (ok' ==> ok)
    ensures Fate(ok', ever', runs, id, plan, drives, times)
  {
  }

  // ---- the theorems ----

  lemma PrefixNeverLate(plan: Run, times: seq<nat>, drives: seq<nat>)
    requires times <= drives && NeverLate(plan, drives)
    ensures NeverLate(plan, times)
  {
    forall k | 0 <= k < |times| ensures times[k] <= DeadlineAt(plan, times, k) {
      assert times[..k] == drives[..k];
      assert drives[k] <= DeadlineAt(plan, drives, k);
    }
  }

  /** The requests are the first of the schedule, in order, none earlier. */
  ghost predicate FirstOf(emitted: seq<Emission>, schedule: seq<Emission>) {
    && |emitted| <= |schedule|
    && forall i :: 0 <= i < |emitted| ==>
         emitted[i].request == schedule[i].request && emitted[i].at >= schedule[i].at
  }

  lemma {:induction false} DueCountGrows(plan: Run, times: seq<nat>, more: seq<nat>)
    requires times <= more
    ensures DueCount(plan, times) <= DueCount(plan, more)
    decreases |more|
  {
    if |times| < |more| {
      DueCountGrows(plan, times, more[..|more| - 1]);
    } else {
      assert times == more;
    }
  }

  lemma CompleteEmitsAll(id: nat, definition: Macro, delayMs: nat, start: nat, times: seq<nat>)
    requires EndsComplete(NewRun(id, definition, delayMs, start), times)
    ensures |PollAll(NewRun(id, definition, delayMs, start), times).1| == |Blocking(definition, delayMs, 0, start)|
  {
    var plan := NewRun(id, definition, delayMs, start);
    var n := |times| - 1;
    CompleteMeansAllEmitted(id, definition, delayMs, start, times, n);
    BlockingRequests(definition, delayMs, 0, start);
    PollMore(plan, times[..n], times[n]);
    assert times == times[..n] + [times[n]];
  }

  /** Enough drives but the last came at or past the deadline they found: the last one found the run complete. */
  ghost predicate DrivenToEnd(plan: Run, drives: seq<nat>, polls: nat) {
    drives != [] && DueCount(plan, drives[..|drives| - 1]) >= polls
  }

  lemma {:induction false} EndIff(id: nat, definition: Macro, delayMs: nat, start: nat, drives: seq<nat>, times: seq<nat>)
    requires times <= drives
    ensures var plan, polls := NewRun(id, definition, delayMs, start), PollsLeft(definition, delayMs, 0);
      && (EndsComplete(plan, times) ==> DrivenToEnd(plan, drives, polls))
      && (times == drives && !EndsComplete(plan, times) ==> !DrivenToEnd(plan, drives, polls))
  {
    var plan := NewRun(id, definition, delayMs, start);
    if times != [] {
      PolledRunCompletes(id, definition, delayMs, start, times, |times| - 1);
      if EndsComplete(plan, times) {
        DueCountGrows(plan, times[..|times| - 1], drives[..|drives| - 1]);
      }
    }
  }

  /**
   Over every live run, the requests made under one id are, in order, the first requests of the
   blocking executor on the macro that was queued under that id, none earlier than if it had started
   when the macro was queued, and at exactly its times when no drive came late; and that macro is one
   the program configures under the run's label. While the event loop goes on, a run that was never
   cancelled has left the queue exactly when enough drives came due, and then every request was made.
  */
  lemma {:induction false} LiveRunRefinesBlocking(p: LiveProgram, steps: seq<LiveStep>, id: nat)
    returns (j: nat, l: string, definition: Macro, delayMs: nat)
    requires WellFormed(p) && 1 <= id <= LiveAfter(p, START, steps).0.queue.nextId
    ensures QueuedAt(p, steps, j, id, l, definition, delayMs)
    ensures var start, drives := steps[j].clock(id), DriveTimes(p, steps, j);
      var plan, blocking := NewRun(id, definition, delayMs, start), Blocking(definition, delayMs, 0, start);
      var emitted, queued := RunEmissions(p, steps, id), HasId(LiveAfter(p, START, steps).0.queue.runs, id);
      && FirstOf(emitted, blocking)
      && (NeverLate(plan, drives) ==> emitted <= blocking)
      && (LiveAfter(p, START, steps).1 && !EverCancelled(p, steps, id) ==>
            && (!queued <==> DrivenToEnd(plan, drives, PollsLeft(definition, delayMs, 0)))
            && (!queued ==> |emitted| == |blocking|))
  {
    hide LiveAfter;
    hide RunEmissions;
    hide DriveTimes;
    hide PollAll;
    hide Queued;
    hide Configured;
    hide EverCancelled;
    hide CancelledIn;
    hide EndsComplete;
    hide NeverLate;
    hide DrivenToEnd;
    hide HasId;
    var times;
    j, l, definition, delayMs, times := RunIsTraced(p, steps, id);
    var start, drives := steps[j].clock(id), DriveTimes(p, steps, j);
    var plan := NewRun(id, definition, delayMs, start);
    PolledRunRefinesBlocking(id, definition, delayMs, start, times);
    BlockingRequests(definition, delayMs, 0, start);
    if NeverLate(plan, drives) {
      PrefixNeverLate(plan, times, drives);
    }
    EndIff(id, definition, delayMs, start, drives, times);
    if EndsComplete(plan, times) {
      CompleteEmitsAll(id, definition, delayMs, start, times);
    }
  }
}

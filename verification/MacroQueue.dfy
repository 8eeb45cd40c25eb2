/**
 The live macro queue (crates/signal-auras-cli/src/runner.rs:3161-3173, 3608-3733).

 `stats` counters that the queue and its callers update travel with it: the runs completed,
 the runs cancelled, and the attempts skipped because their label was busy. `dropped` counts
 the cancelled runs removed by driving; the source keeps no such counter.
*/
module MacroQueue {
  import opened Wrappers
  import opened MacroPlan

  datatype LiveRun = LiveRun(triggerLabel: string, processScoped: bool, state: Run)

  /** What the executor answers to one request; `Broken` is its own error. */
  datatype Answer = Emitted | Denied | Failed | Withdrawn | Broken

  /** A request handed to the executor on behalf of a run, and the answer. */
  datatype Output = Output(triggerLabel: string, id: nat, request: Request, answer: Answer)

  datatype Queue = Queue(
    nextId: nat,
    active: set<string>,
    skips: map<string, nat>,
    runs: seq<LiveRun>,
    completed: nat,
    dropped: nat,
    cancelledRuns: nat,
    collisions: nat)

  const EMPTY_QUEUE: Queue := Queue(0, {}, map[], [], 0, 0, 0, 0)

  // ---- what each operation does ----

  function Scheduled(q: Queue, triggerLabel: string, processScoped: bool, definition: Macro, delayMs: nat, now: nat): Queue {
    if triggerLabel in q.active then q.(collisions := q.collisions + 1)
    else
      q.(active := q.active + {triggerLabel},
         nextId := q.nextId + 1,
         runs := q.runs + [LiveRun(triggerLabel, processScoped, NewRun(q.nextId + 1, definition, delayMs, now))])
  }

  function RepeatSkip(q: Queue, triggerLabel: string): Queue {
    q.(skips := q.skips[triggerLabel := (if triggerLabel in q.skips then q.skips[triggerLabel] else 0) + 1])
  }

  /** Cancel every run of `runs` that `hit` selects and that is not cancelled yet. */
  function CancelRuns(runs: seq<LiveRun>, hit: LiveRun -> bool): (r: seq<LiveRun>)
    ensures |r| == |runs|
    ensures forall i :: 0 <= i < |runs| ==>
      r[i] == if hit(runs[i]) then runs[i].(state := runs[i].state.Cancel()) else runs[i]
  {
    if runs == [] then []
    else
      [if hit(runs[0]) then runs[0].(state := runs[0].state.Cancel()) else runs[0]] + CancelRuns(runs[1..], hit)
  }

  function CountHits(runs: seq<LiveRun>, hit: LiveRun -> bool): nat {
    if runs == [] then 0
    else (if hit(runs[0]) && !runs[0].state.cancelled then 1 else 0) + CountHits(runs[1..], hit)
  }

  /** Cancel the selected runs and record how many were newly cancelled. */
  function Cancel(q: Queue, hit: LiveRun -> bool): Queue {
    q.(runs := CancelRuns(q.runs, hit), cancelledRuns := q.cancelledRuns + CountHits(q.runs, hit))
  }

  function HasLabel(triggerLabel: string): LiveRun -> bool {
    (run: LiveRun) => run.triggerLabel == triggerLabel
  }

  function IsProcessScoped(): LiveRun -> bool {
    (run: LiveRun) => run.processScoped
  }

  /** How long until the run wants to be driven; `None` when it waits for nothing. */
  function WaitOf(run: LiveRun, now: nat): Option<nat> {
    match run.state.NextDeadline()
    case Some(deadline) => Some(SatSub(deadline, now))
    case None => None
  }

  /** What one drive makes of the runs still to be visited. */
  datatype Driven = Driven(kept: seq<LiveRun>, gone: seq<LiveRun>, outputs: seq<Output>, ok: bool)

  /** One run visited: it is kept as polled, or it is finished or cancelled and goes. */
  function Visit(run: LiveRun, now: nat, answer: Answer): (d: Driven)
    ensures |d.kept| + |d.gone| == 1
    ensures |d.outputs| <= 1 && (!d.ok ==> d.outputs != [])
  {
    var (state, outcome) := run.state.Poll(now);
    match outcome
    case Ready(request) =>
      Driven([run.(state := state)], [], [Output(run.triggerLabel, run.state.id, request, answer)], answer.Emitted?)
    case Pending(_) => Driven([run.(state := state)], [], [], true)
    case _ => Driven([], [run], [], true)
  }

  /** `first`, then `rest`. */
  function Then(first: Driven, rest: Driven): Driven {
    Driven(first.kept + rest.kept, first.gone + rest.gone, first.outputs + rest.outputs, first.ok && rest.ok)
  }

  /**
   Visit the runs in order; `answers(k)` is the executor's answer to request number `k`. The first
   refusal leaves the runs behind it as they are.
  */
  function DriveRuns(runs: seq<LiveRun>, now: nat, answers: nat -> Answer, k: nat): Driven {
    if runs == [] then Driven([], [], [], true)
    else
      var first := Visit(runs[0], now, answers(k));
      Then(first,
           if first.ok then DriveRuns(runs[1..], now, answers, k + |first.outputs|)
           else Driven(runs[1..], [], [], false))
  }

  function CountCancelled(runs: seq<LiveRun>): (n: nat)
    ensures n <= |runs|
  {
    if runs == [] then 0
    else (if runs[0].state.cancelled then 1 else 0) + CountCancelled(runs[1..])
  }

  function Labels(runs: seq<LiveRun>): set<string> {
    set run | run in runs :: run.triggerLabel
  }

  /** The queue once a drive has done `d`: labels of removed runs are free again. */
  function Settled(q: Queue, d: Driven): Queue {
    q.(runs := d.kept,
       active := q.active - Labels(d.gone),
       completed := q.completed + |d.gone| - CountCancelled(d.gone),
       dropped := q.dropped + CountCancelled(d.gone))
  }

  function Drive(q: Queue, now: nat, answers: nat -> Answer): (Queue, seq<Output>, bool) {
    var d := DriveRuns(q.runs, now, answers, 0);
    (Settled(q, d), d.outputs, d.ok)
  }

  lemma {:induction false} CountCancelledSnoc(runs: seq<LiveRun>, run: LiveRun)
    ensures CountCancelled(runs + [run]) == CountCancelled(runs) + if run.state.cancelled then 1 else 0
  {
    if runs == [] {
      assert runs + [run] == [run];
    } else {
      CountCancelledSnoc(runs[1..], run);
      assert (runs + [run])[1..] == runs[1..] + [run];
    }
  }

  lemma LabelsSnoc(runs: seq<LiveRun>, run: LiveRun)
    ensures Labels(runs + [run]) == Labels(runs) + {run.triggerLabel}
  {
    assert forall r :: r in runs + [run] <==> r in runs || r == run;
  }

  lemma GoneAppend(gone: seq<LiveRun>, more: seq<LiveRun>)
    requires |more| <= 1
    ensures Labels(gone + more) == Labels(gone) + Labels(more)
    ensures CountCancelled(gone + more) == CountCancelled(gone) + CountCancelled(more)
  {
    if more == [] {
      assert gone + more == gone;
    } else {
      var run := more[0];
      assert more == [run] && [] + [run] == [run];
      LabelsSnoc(gone, run);
      LabelsSnoc([], run);
      CountCancelledSnoc(gone, run);
      CountCancelledSnoc([], run);
    }
  }

  lemma ThenAssociates(a: Driven, b: Driven, c: Driven)
    ensures Then(Then(a, b), c) == Then(a, Then(b, c))
  {
  }

  lemma SettledStep(q: Queue, sofar: Queue, done: Driven, first: Driven, runs: seq<LiveRun>)
    requires Settled(q, done.(kept := sofar.runs)) == sofar
    requires |first.gone| <= 1
    ensures Settled(q, Then(done, first).(kept := runs)) == Settled(sofar, first.(kept := runs))
  {
    GoneAppend(done.gone, first.gone);
  }

  lemma DriveGoesOn(done: Driven, runs: seq<LiveRun>, now: nat, answers: nat -> Answer)
    requires runs != [] && Visit(runs[0], now, answers(|done.outputs|)).ok
    ensures var next := Then(done, Visit(runs[0], now, answers(|done.outputs|)));
      Then(done, DriveRuns(runs, now, answers, |done.outputs|)) ==
        Then(next, DriveRuns(runs[1..], now, answers, |next.outputs|))
  {
    hide Visit;
    var first := Visit(runs[0], now, answers(|done.outputs|));
    ThenAssociates(done, first, DriveRuns(runs[1..], now, answers, |done.outputs| + |first.outputs|));
  }

  lemma DriveStops(done: Driven, runs: seq<LiveRun>, now: nat, answers: nat -> Answer)
    requires runs != [] && !Visit(runs[0], now, answers(|done.outputs|)).ok
    ensures var next := Then(done, Visit(runs[0], now, answers(|done.outputs|)));
      Then(done, DriveRuns(runs, now, answers, |done.outputs|)) ==
        Driven(next.kept + runs[1..], next.gone, next.outputs, false)
  {
    hide Visit;
    var first := Visit(runs[0], now, answers(|done.outputs|));
    ThenAssociates(done, first, Driven(runs[1..], [], [], false));
  }

  /** The queue as the object the source updates in place, with the counters it reports to. */
  class LiveMacroQueue {
    var nextId: nat
    var activeTriggers: set<string>
    var repeatSkipCounts: map<string, nat>
    var runs: seq<LiveRun>
    var macroSuccessCount: nat
    var cancelledMacroRunCount: nat
    var nonRepeatTriggerSkippedCount: nat
    ghost var dropped: nat

    ghost function State(): Queue
      reads this
    {
      Queue(nextId, activeTriggers, repeatSkipCounts, runs,
            macroSuccessCount, dropped, cancelledMacroRunCount, nonRepeatTriggerSkippedCount)
    }

    constructor ()
      ensures State() == EMPTY_QUEUE
    {
      nextId := 0;
      activeTriggers := {};
      repeatSkipCounts := map[];
      runs := [];
      macroSuccessCount, cancelledMacroRunCount, nonRepeatTriggerSkippedCount := 0, 0, 0;
      dropped := 0;
    }

    method Schedule(triggerLabel: string, processScoped: bool, definition: Macro, delayMs: nat, now: nat)
      returns (id: Option<nat>)
      modifies this
      ensures State() == Scheduled(old(State()), triggerLabel, processScoped, definition, delayMs, now)
      ensures id == if triggerLabel in old(activeTriggers) then None else Some(nextId)
    {
      if triggerLabel in activeTriggers {
        nonRepeatTriggerSkippedCount := nonRepeatTriggerSkippedCount + 1;
        return None;
      }
      activeTriggers := activeTriggers + {triggerLabel};
      nextId := nextId + 1;
      runs := runs + [LiveRun(triggerLabel, processScoped, NewRun(nextId, definition, delayMs, now))];
      id := Some(nextId);
    }

    method TriggerIsPendingOrActive(triggerLabel: string) returns (busy: bool)
      ensures busy <==> triggerLabel in State().active
    {
      busy := triggerLabel in activeTriggers;
    }

    method RecordRepeatSkip(triggerLabel: string) returns (count: nat)
      modifies this`repeatSkipCounts
      ensures State() == RepeatSkip(old(State()), triggerLabel)
      ensures count == State().skips[triggerLabel]
    {
      count := (if triggerLabel in repeatSkipCounts then repeatSkipCounts[triggerLabel] else 0) + 1;
      repeatSkipCounts := repeatSkipCounts[triggerLabel := count];
    }

    /** Cancel in place every selected run that is not cancelled yet, and count them. */
    method CancelWhere(hit: LiveRun -> bool) returns (cancelled: nat)
      modifies this`runs
      ensures runs == CancelRuns(old(runs), hit)
      ensures cancelled == CountHits(old(runs), hit)
    {
      hide CancelRuns;
      ghost var was, want := runs, CancelRuns(runs, hit);
      cancelled := 0;
      for i := 0 to |runs|
        invariant |runs| == |was| == |want|
        invariant forall j :: 0 <= j < i ==> runs[j] == want[j]
        invariant forall j :: i <= j < |runs| ==> runs[j] == was[j]
        invariant cancelled + CountHits(was[i..], hit) == CountHits(was, hit)
      {
        assert was[i..][0] == was[i] && was[i..][1..] == was[i + 1..];
        if hit(runs[i]) && !runs[i].state.cancelled {
          runs := runs[i := runs[i].(state := runs[i].state.Cancel())];
          cancelled := cancelled + 1;
        }
      }
      assert runs == want;
    }

    method CancelTrigger(triggerLabel: string) returns (cancelled: nat)
      modifies this`runs
      ensures runs == CancelRuns(old(runs), HasLabel(triggerLabel))
      ensures cancelled == CountHits(old(runs), HasLabel(triggerLabel))
    {
      cancelled := CancelWhere(HasLabel(triggerLabel));
    }

    method CancelProcessScoped() returns (cancelled: nat)
      modifies this`runs
      ensures runs == CancelRuns(old(runs), IsProcessScoped())
      ensures cancelled == CountHits(old(runs), IsProcessScoped())
    {
      cancelled := CancelWhere(IsProcessScoped());
    }

    method RecordCancelledMacroRuns(count: nat)
      modifies this`cancelledMacroRunCount
      ensures cancelledMacroRunCount == old(cancelledMacroRunCount) + count
    {
      cancelledMacroRunCount := cancelledMacroRunCount + count;
    }

    /** How long the event loop may wait: until the first deadline, or `idle` when there is none. */
    method NextWaitTimeout(now: nat, idle: nat) returns (timeout: nat)
      ensures forall run :: run in runs && WaitOf(run, now).Some? ==> timeout <= WaitOf(run, now).value
      ensures (exists run :: run in runs && WaitOf(run, now) == Some(timeout))
        || (timeout == idle && forall run :: run in runs ==> WaitOf(run, now).None?)
    {
      var least: Option<nat> := None;
      for i := 0 to |runs|
        invariant least.None? ==> forall run :: run in runs[..i] ==> WaitOf(run, now).None?
        invariant least.Some? ==> forall run :: run in runs[..i] && WaitOf(run, now).Some? ==>
          least.value <= WaitOf(run, now).value
        invariant least.Some? ==> exists run :: run in runs[..i] && WaitOf(run, now) == least
      {
        assert runs[..i + 1] == runs[..i] + [runs[i]];
        var wait := WaitOf(runs[i], now);
        if wait.Some? && (least.None? || wait.value < least.value) {
          least := wait;
        }
      }
      assert runs[..|runs|] == runs;
      timeout := if least.Some? then least.value else idle;
    }

    /** Take the run at `index` out and free its label; the next run moves to its index. */
    method RemoveRun(index: nat) returns (run: LiveRun)
      requires index < |runs|
      modifies this`runs, this`activeTriggers
      ensures run == old(runs)[index]
      ensures runs == old(runs)[..index] + old(runs)[index + 1..]
      ensures activeTriggers == old(activeTriggers) - {run.triggerLabel}
    {
      run := runs[index];
      runs := runs[..index] + runs[index + 1..];
      activeTriggers := activeTriggers - {run.triggerLabel};
    }

    /** The body of the drive loop for the run at `index`. */
    method VisitRun(index: nat, now: nat, answer: Answer) returns (outputs: seq<Output>, kept: bool, ok: bool)
      requires index < |runs|
      modifies this`runs, this`activeTriggers, this`macroSuccessCount, this`dropped
      ensures var visit := Visit(old(runs)[index], now, answer);
        && outputs == visit.outputs && ok == visit.ok && |visit.kept| == (if kept then 1 else 0)
        && State() == Settled(old(State()),
             visit.(kept := old(runs)[..index] + visit.kept + old(runs)[index + 1..]))
    {
      outputs, kept, ok := [], true, true;
      var run := runs[index];
      var (state, outcome) := run.state.Poll(now);
      match outcome {
        case Ready(request) =>
          outputs := [Output(run.triggerLabel, run.state.id, request, answer)];
          runs := runs[index := run.(state := state)];
          ok := answer.Emitted?;
        case Pending(_) =>
          runs := runs[index := run.(state := state)];
        case Complete =>
          var removed := RemoveRun(index);
          macroSuccessCount := macroSuccessCount + 1;
          kept := false;
          LabelsSnoc([], removed);
        case Cancelled =>
          var removed := RemoveRun(index);
          dropped := dropped + 1;
          kept := false;
          LabelsSnoc([], removed);
      }
    }

    /**
     Poll every run once. A finished or cancelled run is removed where it stands; a request the
     executor refuses ends the drive at once.
    */
    method DriveReady(now: nat, answers: nat -> Answer) returns (outputs: seq<Output>, ok: bool)
      modifies this
      ensures (State(), outputs, ok) == Drive(old(State()), now, answers)
    {
      hide Visit;
      outputs, ok := [], true;
      ghost var done := Driven([], [], [], true);
      var index := 0;
      while index < |runs|
        invariant 0 <= index <= |runs|
        invariant Settled(old(State()), Driven(runs, done.gone, outputs, true)) == State()
        invariant done.kept == runs[..index] && done.outputs == outputs && done.ok && ok
        invariant DriveRuns(old(runs), now, answers, 0) ==
          Then(done, DriveRuns(runs[index..], now, answers, |outputs|))
        decreases |runs| - index
      {
        ghost var rest, visited, sofar := runs[index..], done, State();
        ghost var first := Visit(rest[0], now, answers(|outputs|));
        var emitted, kept, accepted := VisitRun(index, now, answers(|outputs|));
        outputs := outputs + emitted;
        done := Then(visited, first);
        assert runs == done.kept + rest[1..];
        SettledStep(old(State()), sofar, visited, first, runs);
        assert State() == Settled(old(State()), Driven(runs, done.gone, outputs, true));
        if !accepted {
          DriveStops(visited, rest, now, answers);
          ok := false;
          return;
        }
        DriveGoesOn(visited, rest, now, answers);
        if kept {
          index := index + 1;
        }
        assert runs[index..] == rest[1..];
      }
      assert runs[index..] == [] && runs[..index] == runs;
      assert Then(done, Driven([], [], [], true)) == done;
    }
  }
}

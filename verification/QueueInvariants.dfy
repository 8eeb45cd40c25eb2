/**
 What every operation of the live macro queue keeps, and what one drive does to the runs it finds.
*/
module QueueInvariants {
  import opened MacroPlan
  import opened MacroQueue

  predicate Before(run: LiveRun, other: LiveRun) {
    run.state.id < other.state.id && run.triggerLabel != other.triggerLabel
  }

  /** Ids strictly increase along the queue and labels are pairwise distinct. */
  ghost predicate Ordered(runs: seq<LiveRun>) {
    forall i, j :: 0 <= i < j < |runs| ==> Before(runs[i], runs[j])
  }

  /**
   The active labels are exactly those of the queued runs; every accepted run is completed,
   dropped or queued; and the recorded cancellations are the dropped runs and the queued ones
   that are cancelled, each counted once.
  */
  ghost predicate QueueInv(q: Queue) {
    && Ordered(q.runs)
    && (forall run :: run in q.runs ==> run.state.id <= q.nextId)
    && q.active == Labels(q.runs)
    && q.nextId == q.completed + q.dropped + |q.runs|
    && q.cancelledRuns == q.dropped + CountCancelled(q.runs)
  }

  lemma ScheduledKeeps(q: Queue, triggerLabel: string, processScoped: bool, definition: Macro, delayMs: nat, now: nat)
    requires QueueInv(q)
    ensures QueueInv(Scheduled(q, triggerLabel, processScoped, definition, delayMs, now))
    ensures var q' := Scheduled(q, triggerLabel, processScoped, definition, delayMs, now);
      && q'.nextId + q'.collisions == q.nextId + q.collisions + 1
      && (triggerLabel in q.active ==> q'.runs == q.runs && q'.active == q.active)
  {
    var q' := Scheduled(q, triggerLabel, processScoped, definition, delayMs, now);
    if triggerLabel !in q.active {
      LabelsSnoc(q.runs, q'.runs[|q.runs|]);
      CountCancelledSnoc(q.runs, q'.runs[|q.runs|]);
      forall run | run in q.runs ensures run.triggerLabel != triggerLabel {
        assert run.triggerLabel in Labels(q.runs);
      }
    }
  }

  lemma {:induction false} CancelCounts(runs: seq<LiveRun>, hit: LiveRun -> bool)
    ensures CountCancelled(CancelRuns(runs, hit)) == CountCancelled(runs) + CountHits(runs, hit)
  {
    if runs != [] {
      CancelCounts(runs[1..], hit);
      assert CancelRuns(runs, hit)[1..] == CancelRuns(runs[1..], hit);
    }
  }

  lemma CancelLabels(runs: seq<LiveRun>, hit: LiveRun -> bool)
    ensures Labels(CancelRuns(runs, hit)) == Labels(runs)
  {
    var runs' := CancelRuns(runs, hit);
    forall i | 0 <= i < |runs| ensures runs'[i].triggerLabel == runs[i].triggerLabel && runs[i] in runs && runs'[i] in runs' {
    }
    forall x | x in Labels(runs) ensures x in Labels(runs') {
      var i :| 0 <= i < |runs| && runs[i].triggerLabel == x;
      assert runs'[i] in runs';
    }
  }

  lemma CancelOrdered(runs: seq<LiveRun>, hit: LiveRun -> bool)
    requires Ordered(runs)
    ensures Ordered(CancelRuns(runs, hit))
  {
    hide CancelRuns;
    var runs' := CancelRuns(runs, hit);
    forall i, j | 0 <= i < j < |runs'| ensures Before(runs'[i], runs'[j]) {
      assert Before(runs[i], runs[j]);
    }
  }

  /** Cancelling changes no label and no id, and counts no run twice. */
  lemma CancelKeeps(q: Queue, hit: LiveRun -> bool)
    requires QueueInv(q)
    ensures QueueInv(Cancel(q, hit))
  {
    hide CancelRuns;
    hide CountHits;
    hide CountCancelled;
    hide Labels;
    hide Ordered;
    CancelCounts(q.runs, hit);
    CancelLabels(q.runs, hit);
    CancelOrdered(q.runs, hit);
    forall run | run in CancelRuns(q.runs, hit) ensures run.state.id <= q.nextId {
      var i :| 0 <= i < |q.runs| && CancelRuns(q.runs, hit)[i] == run;
      assert q.runs[i] in q.runs;
    }
  }

  // ---- driving ----

  predicate SameRun(run: LiveRun, origin: LiveRun) {
    && run.state.id == origin.state.id
    && run.triggerLabel == origin.triggerLabel
    && run.state.cancelled == origin.state.cancelled
  }

  /** A visit keeps or removes its one run, and nothing is emitted for a cancelled one. */
  lemma VisitTraced(run: LiveRun, now: nat, answer: Answer)
    ensures var d := Visit(run, now, answer);
      && (d.kept != [] ==> SameRun(d.kept[0], run))
      && (d.gone != [] ==> d.gone[0] == run)
      && (run.state.cancelled ==> d.outputs == [])
      && (d.outputs != [] ==> d.outputs[0].triggerLabel == run.triggerLabel && d.outputs[0].id == run.state.id)
  {
  }

  /**
   `kept` and `gone` split `runs` in order: each run is kept up to its state or removed as it is,
   and after a refusal the rest is kept untouched.
  */
  ghost predicate Split(runs: seq<LiveRun>, kept: seq<LiveRun>, gone: seq<LiveRun>) {
    || (runs == kept && gone == [])
    || (runs != [] && kept != [] && SameRun(kept[0], runs[0]) && Split(runs[1..], kept[1..], gone))
    || (runs != [] && gone != [] && gone[0] == runs[0] && Split(runs[1..], kept, gone[1..]))
  }

  lemma SplitCons(runs: seq<LiveRun>, first: Driven, tail: Driven)
    requires runs != [] && |first.kept| + |first.gone| == 1
    requires first.kept != [] ==> SameRun(first.kept[0], runs[0])
    requires first.gone != [] ==> first.gone[0] == runs[0]
    requires Split(runs[1..], tail.kept, tail.gone)
    ensures Split(runs, Then(first, tail).kept, Then(first, tail).gone)
  {
    var whole := Then(first, tail);
    if first.kept != [] {
      assert first.gone == [] && whole.gone == tail.gone;
      assert whole.kept[1..] == tail.kept;
    } else {
      assert first.kept == [] && whole.kept == tail.kept;
      assert whole.gone[1..] == tail.gone;
    }
  }

  /** Every drive, refused or not, is such a split. */
  lemma {:induction false} DriveSplits(runs: seq<LiveRun>, now: nat, answers: nat -> Answer, k: nat)
    ensures Split(runs, DriveRuns(runs, now, answers, k).kept, DriveRuns(runs, now, answers, k).gone)
  {
    hide Visit;
    hide Split;
    if runs == [] {
      SplitUntouched([]);
    } else {
      var first := Visit(runs[0], now, answers(k));
      VisitTraced(runs[0], now, answers(k));
      if first.ok {
        DriveSplits(runs[1..], now, answers, k + |first.outputs|);
        SplitCons(runs, first, DriveRuns(runs[1..], now, answers, k + |first.outputs|));
      } else {
        SplitUntouched(runs[1..]);
        SplitCons(runs, first, Driven(runs[1..], [], [], false));
      }
    }
  }

  lemma SplitUntouched(runs: seq<LiveRun>)
    ensures Split(runs, runs, [])
  {
  }

  lemma {:induction false} SplitCounts(runs: seq<LiveRun>, kept: seq<LiveRun>, gone: seq<LiveRun>)
    requires Split(runs, kept, gone)
    ensures |kept| + |gone| == |runs|
    ensures CountCancelled(kept) + CountCancelled(gone) == CountCancelled(runs)
  {
    if runs == kept && gone == [] {
    } else if kept != [] && SameRun(kept[0], runs[0]) && Split(runs[1..], kept[1..], gone) {
      SplitCounts(runs[1..], kept[1..], gone);
    } else {
      SplitCounts(runs[1..], kept, gone[1..]);
    }
  }

  lemma HeadOrdered(runs: seq<LiveRun>)
    requires runs != [] && Ordered(runs)
    ensures Ordered(runs[1..])
    ensures forall run :: run in runs[1..] ==> Before(runs[0], run)
  {
    forall run | run in runs[1..] ensures Before(runs[0], run) {
      var i :| 0 <= i < |runs[1..]| && runs[1..][i] == run;
      assert runs[i + 1] == run;
    }
    forall i, j | 0 <= i < j < |runs[1..]| ensures Before(runs[1..][i], runs[1..][j]) {
      assert runs[i + 1] == runs[1..][i] && runs[j + 1] == runs[1..][j];
    }
  }

  lemma OrderedFromHead(runs: seq<LiveRun>)
    requires runs != [] && Ordered(runs[1..])
    requires forall run :: run in runs[1..] ==> Before(runs[0], run)
    ensures Ordered(runs)
  {
    forall i, j | 0 <= i < j < |runs| ensures Before(runs[i], runs[j]) {
      assert runs[j] == runs[1..][j - 1] && runs[j] in runs[1..];
      if i > 0 {
        assert runs[i] == runs[1..][i - 1];
      }
    }
  }

  /** The origin of a run that a split keeps or removes. */
  lemma {:induction false} SplitOrigin(runs: seq<LiveRun>, kept: seq<LiveRun>, gone: seq<LiveRun>, run: LiveRun)
    returns (origin: LiveRun)
    requires Split(runs, kept, gone)
    requires run in kept || run in gone
    ensures origin in runs && SameRun(run, origin)
  {
    if runs == kept && gone == [] {
      origin := run;
    } else if kept != [] && SameRun(kept[0], runs[0]) && Split(runs[1..], kept[1..], gone) {
      if run == kept[0] {
        origin := runs[0];
      } else {
        origin := SplitOrigin(runs[1..], kept[1..], gone, run);
      }
    } else {
      if run == gone[0] {
        origin := runs[0];
      } else {
        origin := SplitOrigin(runs[1..], kept, gone[1..], run);
      }
    }
  }

  lemma {:induction false} SplitOrdered(runs: seq<LiveRun>, kept: seq<LiveRun>, gone: seq<LiveRun>)
    requires Split(runs, kept, gone) && Ordered(runs)
    ensures Ordered(kept)
    ensures Labels(kept) == Labels(runs) - Labels(gone)
  {
    if runs == kept && gone == [] {
    } else if kept != [] && SameRun(kept[0], runs[0]) && Split(runs[1..], kept[1..], gone) {
      HeadOrdered(runs);
      SplitOrdered(runs[1..], kept[1..], gone);
      forall run | run in kept[1..] ensures Before(kept[0], run) {
        var origin := SplitOrigin(runs[1..], kept[1..], gone, run);
      }
      OrderedFromHead(kept);
      LabelsHead(runs);
      LabelsHead(kept);
      forall run | run in gone ensures run.triggerLabel != runs[0].triggerLabel {
        var origin := SplitOrigin(runs[1..], kept[1..], gone, run);
      }
    } else {
      HeadOrdered(runs);
      SplitOrdered(runs[1..], kept, gone[1..]);
      LabelsHead(runs);
      LabelsHead(gone);
      forall run | run in kept ensures run.triggerLabel != runs[0].triggerLabel {
        var origin := SplitOrigin(runs[1..], kept, gone[1..], run);
      }
    }
  }

  lemma LabelsHead(runs: seq<LiveRun>)
    requires runs != []
    ensures Labels(runs) == {runs[0].triggerLabel} + Labels(runs[1..])
  {
    assert forall run :: run in runs <==> run == runs[0] || run in runs[1..];
  }

  /** Driving keeps the invariant, also when the executor refuses a request half way. */
  lemma DriveKeeps(q: Queue, now: nat, answers: nat -> Answer)
    requires QueueInv(q)
    ensures QueueInv(Drive(q, now, answers).0)
  {
    var d := DriveRuns(q.runs, now, answers, 0);
    DriveSplits(q.runs, now, answers, 0);
    SplitCounts(q.runs, d.kept, d.gone);
    SplitOrdered(q.runs, d.kept, d.gone);
    forall run | run in d.kept ensures run.state.id <= q.nextId {
      var origin := SplitOrigin(q.runs, d.kept, d.gone, run);
    }
  }

  // ---- one drive, run by run ----

  predicate Finished(run: LiveRun, now: nat) {
    var outcome := run.state.Poll(now).1;
    outcome.Complete? || outcome.Cancelled?
  }

  function Polled(run: LiveRun, now: nat): LiveRun {
    run.(state := run.state.Poll(now).0)
  }

  /** The runs that stay, each polled once, in queue order. */
  function Staying(runs: seq<LiveRun>, now: nat): seq<LiveRun> {
    if runs == [] then []
    else (if Finished(runs[0], now) then [] else [Polled(runs[0], now)]) + Staying(runs[1..], now)
  }

  function Leaving(runs: seq<LiveRun>, now: nat): seq<LiveRun> {
    if runs == [] then []
    else (if Finished(runs[0], now) then [runs[0]] else []) + Leaving(runs[1..], now)
  }

  lemma VisitMeaning(run: LiveRun, now: nat, answer: Answer)
    ensures var d := Visit(run, now, answer);
      && d.kept == (if Finished(run, now) then [] else [Polled(run, now)])
      && d.gone == (if Finished(run, now) then [run] else [])
      && (d.ok <==> d.outputs == [] || answer.Emitted?)
      && d.outputs == match run.state.Poll(now).1
           case Ready(request) => [Output(run.triggerLabel, run.state.id, request, answer)]
           case _ => []
  {
  }

  /**
   A successful drive polls each run it finds exactly once and in queue order, although it removes
   runs in place: it keeps exactly the runs that are neither complete nor cancelled.
  */
  lemma {:induction false} DriveVisitsAll(runs: seq<LiveRun>, now: nat, answers: nat -> Answer, k: nat)
    requires DriveRuns(runs, now, answers, k).ok
    ensures DriveRuns(runs, now, answers, k).kept == Staying(runs, now)
    ensures DriveRuns(runs, now, answers, k).gone == Leaving(runs, now)
  {
    if runs != [] {
      hide Visit;
      VisitMeaning(runs[0], now, answers(k));
      DriveVisitsAll(runs[1..], now, answers, k + |Visit(runs[0], now, answers(k)).outputs|);
    }
  }

  /** All of these were answered `Emitted`, but the last one was not when the drive failed. */
  ghost predicate RefusedLast(outputs: seq<Output>, ok: bool) {
    && (forall j :: 0 <= j < |outputs| - 1 ==> outputs[j].answer.Emitted?)
    && (ok ==> forall j :: 0 <= j < |outputs| ==> outputs[j].answer.Emitted?)
    && (!ok ==> outputs != [] && !outputs[|outputs| - 1].answer.Emitted?)
  }

  lemma RefusedCons(head: seq<Output>, tail: seq<Output>, ok: bool)
    requires RefusedLast(head, true) && RefusedLast(tail, ok)
    ensures RefusedLast(head + tail, ok)
  {
  }

  lemma StayingCons(runs: seq<LiveRun>, now: nat, n: nat)
    requires 0 < n <= |runs|
    ensures Staying(runs[..n], now) == (if Finished(runs[0], now) then [] else [Polled(runs[0], now)]) + Staying(runs[1..][..n - 1], now)
    ensures Leaving(runs[..n], now) == (if Finished(runs[0], now) then [runs[0]] else []) + Leaving(runs[1..][..n - 1], now)
    ensures runs[n..] == runs[1..][n - 1..]
  {
    assert runs[..n][1..] == runs[1..][..n - 1];
  }

  /** The drive polled the runs in front of `n` and ended there, refused if there is a rest. */
  ghost predicate StopsAt(runs: seq<LiveRun>, now: nat, d: Driven, n: nat) {
    && n <= |runs|
    && d.kept == Staying(runs[..n], now) + runs[n..] && d.gone == Leaving(runs[..n], now)
    && RefusedLast(d.outputs, d.ok)
    && (d.ok ==> n == |runs|)
    && (!d.ok ==> n > 0 && runs[n - 1].state.Poll(now).1.Ready? && d.outputs[|d.outputs| - 1].id == runs[n - 1].state.id)
  }

  lemma StopsLater(runs: seq<LiveRun>, now: nat, answer: Answer, rest: Driven, n: nat)
    requires runs != [] && Visit(runs[0], now, answer).ok && StopsAt(runs[1..], now, rest, n)
    ensures StopsAt(runs, now, Then(Visit(runs[0], now, answer), rest), n + 1)
  {
    hide Visit;
    hide Staying;
    hide Leaving;
    hide Finished;
    var first := Visit(runs[0], now, answer);
    VisitMeaning(runs[0], now, answer);
    RefusedCons(first.outputs, rest.outputs, rest.ok);
    StayingCons(runs, now, n + 1);
  }

  lemma StopsHere(runs: seq<LiveRun>, now: nat, answer: Answer)
    requires runs != [] && !Visit(runs[0], now, answer).ok
    ensures StopsAt(runs, now, Then(Visit(runs[0], now, answer), Driven(runs[1..], [], [], false)), 1)
  {
    hide Staying;
    hide Leaving;
    VisitMeaning(runs[0], now, answer);
    NoneStay(runs[1..], now);
    StayingCons(runs, now, 1);
  }

  /**
   A drive goes on exactly as long as every request is answered `Emitted`: it polls the runs in front of
   `n`, once each, and leaves the rest as they are. A refused request is the last one, of the run in front
   of the rest, and ends the drive; without one the drive succeeds and there is no rest.
  */
  lemma {:induction false} DriveStopsAtRefusal(runs: seq<LiveRun>, now: nat, answers: nat -> Answer, k: nat) returns (n: nat)
    ensures StopsAt(runs, now, DriveRuns(runs, now, answers, k), n)
  {
    hide Visit;
    hide StopsAt;
    if runs == [] {
      n := 0;
      assert StopsAt(runs, now, DriveRuns(runs, now, answers, k), 0) by {
        NoRunsStop(now, answers, k);
      }
    } else {
      var first := Visit(runs[0], now, answers(k));
      if first.ok {
        n := DriveStopsAtRefusal(runs[1..], now, answers, k + |first.outputs|);
        StopsLater(runs, now, answers(k), DriveRuns(runs[1..], now, answers, k + |first.outputs|), n);
        n := n + 1;
      } else {
        n := 1;
        StopsHere(runs, now, answers(k));
      }
    }
  }

  lemma NoRunsStop(now: nat, answers: nat -> Answer, k: nat)
    ensures StopsAt([], now, DriveRuns([], now, answers, k), 0)
  {
  }

  lemma NoneStay(runs: seq<LiveRun>, now: nat)
    ensures Staying(runs[..0], now) == [] && Leaving(runs[..0], now) == []
  {
  }

  /** Output number `j` of a drive that starts at request `k` is the request of run `i`, answered. */
  ghost predicate OutputOf(run: LiveRun, now: nat, output: Output, answer: Answer) {
    output.triggerLabel == run.triggerLabel && output.id == run.state.id && output.answer == answer
    && run.state.Poll(now).1 == Ready(output.request)
  }

  ghost predicate OutputsOf(runs: seq<LiveRun>, now: nat, outputs: seq<Output>, answers: nat -> Answer, k: nat, idx: seq<nat>) {
    && |idx| == |outputs|
    && (forall j :: 0 <= j < |idx| ==> idx[j] < |runs| && OutputOf(runs[idx[j]], now, outputs[j], answers(k + j)))
    && (forall i, j :: 0 <= i < j < |idx| ==> idx[i] < idx[j])
  }

  /** Every run that is ready is among these. */
  ghost predicate ReadyIn(runs: seq<LiveRun>, now: nat, idx: seq<nat>) {
    forall i :: 0 <= i < |runs| && runs[i].state.Poll(now).1.Ready? ==> i in idx
  }

  function ShiftBy(idx: seq<nat>): (r: seq<nat>)
    ensures |r| == |idx|
    ensures forall j :: 0 <= j < |idx| ==> r[j] == idx[j] + 1
  {
    seq(|idx|, j requires 0 <= j < |idx| => idx[j] + 1)
  }

  /**
   The outputs of a drive, refused or not, belong to distinct runs in queue order, each of which
   was ready; in a successful drive every ready run has its output.
  */
  lemma {:induction false} DriveOutputs(runs: seq<LiveRun>, now: nat, answers: nat -> Answer, k: nat) returns (idx: seq<nat>)
    ensures var d := DriveRuns(runs, now, answers, k);
      && OutputsOf(runs, now, d.outputs, answers, k, idx)
      && (d.ok ==> ReadyIn(runs, now, idx))
  {
    hide Visit;
    hide ReadyIn;
    hide OutputsOf;
    idx := [];
    if runs == [] {
      NothingEmitted([], now, answers, k);
    } else {
      var first := Visit(runs[0], now, answers(k));
      VisitMeaning(runs[0], now, answers(k));
      var tail := if first.ok then DriveRuns(runs[1..], now, answers, k + |first.outputs|)
                  else Driven(runs[1..], [], [], false);
      NothingEmitted(runs[1..], now, answers, k + |first.outputs|);
      if first.ok {
        idx := DriveOutputs(runs[1..], now, answers, k + |first.outputs|);
      }
      idx := OutputsCons(runs, now, first.outputs, tail.outputs, answers, k, idx, first.ok && tail.ok);
    }
  }

  lemma NothingEmitted(runs: seq<LiveRun>, now: nat, answers: nat -> Answer, k: nat)
    ensures OutputsOf(runs, now, [], answers, k, []) && ReadyIn([], now, [])
  {
  }

  lemma OutputsCons(
    runs: seq<LiveRun>, now: nat, head: seq<Output>, tail: seq<Output>, answers: nat -> Answer, k: nat, idx: seq<nat>, all: bool)
    returns (idx': seq<nat>)
    requires runs != []
    requires head == match runs[0].state.Poll(now).1
      case Ready(request) => [Output(runs[0].triggerLabel, runs[0].state.id, request, answers(k))]
      case _ => []
    requires OutputsOf(runs[1..], now, tail, answers, k + |head|, idx)
    requires all ==> ReadyIn(runs[1..], now, idx)
    ensures OutputsOf(runs, now, head + tail, answers, k, idx')
    ensures all ==> ReadyIn(runs, now, idx')
  {
    idx' := (if head == [] then [] else [0]) + ShiftBy(idx);
    forall j | 0 <= j < |idx'|
      ensures idx'[j] < |runs| && OutputOf(runs[idx'[j]], now, (head + tail)[j], answers(k + j))
    {
      if j >= |head| {
        var m := j - |head|;
        assert idx'[j] == idx[m] + 1 && runs[idx[m] + 1] == runs[1..][idx[m]];
        assert OutputOf(runs[1..][idx[m]], now, tail[m], answers(k + |head| + m));
      }
    }
    if all {
      ReadyCons(runs, now, idx, idx');
    }
  }

  lemma ReadyCons(runs: seq<LiveRun>, now: nat, idx: seq<nat>, idx': seq<nat>)
    requires runs != [] && ReadyIn(runs[1..], now, idx)
    requires idx' == (if runs[0].state.Poll(now).1.Ready? then [0] else []) + ShiftBy(idx)
    ensures ReadyIn(runs, now, idx')
  {
    forall i | 0 <= i < |runs| && runs[i].state.Poll(now).1.Ready? ensures i in idx' {
      if i > 0 {
        assert runs[1..][i - 1] == runs[i];
        var j :| 0 <= j < |idx| && idx[j] == i - 1;
        assert ShiftBy(idx)[j] == i;
        assert ShiftBy(idx)[j] in idx';
      }
    }
  }

  /** No cancelled run emits, whatever the executor answers. */
  lemma CancelledRunsAreSilent(q: Queue, now: nat, answers: nat -> Answer, output: Output)
    requires QueueInv(q) && output in Drive(q, now, answers).1
    ensures exists run :: run in q.runs && run.state.id == output.id && !run.state.cancelled
    ensures forall run :: run in q.runs && run.state.id == output.id ==>
      run.triggerLabel == output.triggerLabel && !run.state.cancelled
  {
    var outputs := Drive(q, now, answers).1;
    var idx := DriveOutputs(q.runs, now, answers, 0);
    var j :| 0 <= j < |outputs| && outputs[j] == output;
    assert OutputOf(q.runs[idx[j]], now, output, answers(j));
    assert q.runs[idx[j]] in q.runs;
    forall run | run in q.runs && run.state.id == output.id ensures run == q.runs[idx[j]] {
      var i :| 0 <= i < |q.runs| && q.runs[i] == run;
    }
  }

  // ---- a run after its last request ----

  lemma {:induction false} RequestKeepsRun(runs: seq<LiveRun>, now: nat, answers: nat -> Answer, k: nat, o: Output)
    returns (run: LiveRun)
    requires o in DriveRuns(runs, now, answers, k).outputs
    ensures run in runs && OutputOf(run, now, o, o.answer)
    ensures Polled(run, now) in DriveRuns(runs, now, answers, k).kept
  {
    hide Visit;
    var first := Visit(runs[0], now, answers(k));
    VisitMeaning(runs[0], now, answers(k));
    VisitPolls(runs[0], now, answers(k));
    if o in first.outputs {
      run := runs[0];
    } else {
      run := RequestKeepsRun(runs[1..], now, answers, k + |first.outputs|, o);
    }
  }

  lemma VisitPolls(run: LiveRun, now: nat, answer: Answer)
    ensures forall o :: o in Visit(run, now, answer).outputs ==> OutputOf(run, now, o, o.answer)
    ensures Visit(run, now, answer).outputs != [] ==> Visit(run, now, answer).kept == [Polled(run, now)]
  {
  }

  /**
   A run whose request is made stays queued, polled, with its label taken, also when the request is
   refused; if that was its last action it has no deadline any more.
  */
  lemma {:induction false} RequestingRunStays(q: Queue, now: nat, answers: nat -> Answer, o: Output)
    returns (run: LiveRun)
    requires QueueInv(q) && o in Drive(q, now, answers).1
    ensures run in q.runs && run.state.id == o.id && run.triggerLabel == o.triggerLabel
    ensures Polled(run, now) in Drive(q, now, answers).0.runs
    ensures run.triggerLabel in Drive(q, now, answers).0.active
    ensures run.state.nextAction + 1 == |run.state.actions| ==> Polled(run, now).state.NextDeadline().None?
  {
    run := RequestKeepsRun(q.runs, now, answers, 0, o);
    DriveKeeps(q, now, answers);
  }

  lemma {:induction false} LeavingMeaning(runs: seq<LiveRun>, now: nat, run: LiveRun)
    requires run in runs && Finished(run, now)
    ensures run in Leaving(runs, now)
  {
    if run != runs[0] {
      LeavingMeaning(runs[1..], now, run);
    }
  }

  /** A run with no action left stays until the next successful drive, which removes it and frees its label. */
  lemma {:induction false} FinishedRunLeaves(q: Queue, run: LiveRun, now: nat, answers: nat -> Answer)
    requires QueueInv(q) && run in q.runs && run.state.nextAction >= |run.state.actions|
    requires Drive(q, now, answers).2
    ensures run in DriveRuns(q.runs, now, answers, 0).gone
    ensures run.triggerLabel !in Drive(q, now, answers).0.active
    ensures forall other :: other in Drive(q, now, answers).0.runs ==> other.triggerLabel != run.triggerLabel
  {
    var d := DriveRuns(q.runs, now, answers, 0);
    DriveVisitsAll(q.runs, now, answers, 0);
    LeavingMeaning(q.runs, now, run);
    DriveSplits(q.runs, now, answers, 0);
    SplitOrdered(q.runs, d.kept, d.gone);
    forall other | other in d.kept ensures other.triggerLabel != run.triggerLabel {
      assert other.triggerLabel in Labels(d.kept);
    }
  }
}

/**
 The incremental macro run refines the blocking executor
 (crates/signal-auras-core/src/macro_plan.rs:240-317).
*/
module MacroRefinement {
  import opened Wrappers
  import opened MacroPlan

  /** A request handed to the executor, and when. */
  datatype Emission = Emission(request: Request, at: nat)

  // ---- the blocking executor ----

  /** The sleep before a generated action: none before the first one. */
  function Gap(generated: nat, delayMs: nat): nat {
    if generated > 0 then Millis(delayMs) else 0
  }

  /** What the blocking executor emits from `clock` on, when executing takes no time. */
  function Blocking(actions: seq<Action>, delayMs: nat, generated: nat, clock: nat): seq<Emission> {
    if actions == [] then []
    else if actions[0].Delay? then Blocking(actions[1..], delayMs, generated, clock + Millis(actions[0].durationMs))
    else
      var at := clock + Gap(generated, delayMs);
      [Emission(Request(actions[0], generated + 1), at)] + Blocking(actions[1..], delayMs, generated + 1, at)
  }

  /** The clock when the blocking executor returns. */
  function BlockingEnd(actions: seq<Action>, delayMs: nat, generated: nat, clock: nat): nat {
    if actions == [] then clock
    else if actions[0].Delay? then BlockingEnd(actions[1..], delayMs, generated, clock + Millis(actions[0].durationMs))
    else BlockingEnd(actions[1..], delayMs, generated + 1, clock + Gap(generated, delayMs))
  }

  /**
   The blocking executor. `succeeds(i)` is the answer of the executor to the i-th generated
   action; the first failure stops the plan.
  */
  method ExecutePlan(definition: Macro, delayMs: nat, start: nat, succeeds: nat -> bool)
    returns (log: seq<Emission>, clock: nat, ok: bool)
    ensures log <= Blocking(definition, delayMs, 0, start)
    ensures ok ==>
      && log == Blocking(definition, delayMs, 0, start)
      && clock == BlockingEnd(definition, delayMs, 0, start)
      && forall i: nat :: i < |log| ==> succeeds(i)
    ensures !ok ==>
      log != [] && !succeeds(|log| - 1) && forall i: nat :: i < |log| - 1 ==> succeeds(i)
  {
    var generated := 0;
    clock := start;
    log := [];
    for i := 0 to |definition|
      invariant generated == |log|
      invariant log + Blocking(definition[i..], delayMs, generated, clock) == Blocking(definition, delayMs, 0, start)
      invariant BlockingEnd(definition[i..], delayMs, generated, clock) == BlockingEnd(definition, delayMs, 0, start)
      invariant forall k: nat :: k < |log| ==> succeeds(k)
    {
      var action := definition[i];
      assert definition[i..][1..] == definition[i + 1..];
      if action.Delay? {
        clock := clock + Millis(action.durationMs);
      } else {
        if generated > 0 && delayMs > 0 {
          clock := clock + Millis(delayMs);
        }
        log := log + [Emission(Request(action, generated + 1), clock)];
        if !succeeds(generated) {
          return log, clock, false;
        }
        generated := generated + 1;
      }
    }
    ok := true;
  }

  // ---- polled runs ----

  function Emitted(outcome: Outcome, now: nat): seq<Emission> {
    if outcome.Ready? then [Emission(outcome.request, now)] else []
  }

  /** The state after polling `r` at the given times, and everything it emitted. */
  function PollAll(r: Run, times: seq<nat>): (Run, seq<Emission>) {
    if times == [] then (r, [])
    else
      var (r', emitted) := PollAll(r, times[..|times| - 1]);
      var now := times[|times| - 1];
      var (r'', outcome) := r'.Poll(now);
      (r'', emitted + Emitted(outcome, now))
  }

  /** The outcome of poll number `k`. */
  function OutcomeAt(r: Run, times: seq<nat>, k: nat): Outcome
    requires k < |times|
  {
    PollAll(r, times[..k]).0.Poll(times[k]).1
  }

  /** The deadline poll number `k` finds. */
  function DeadlineAt(r: Run, times: seq<nat>, k: nat): nat
    requires k < |times|
  {
    PollAll(r, times[..k]).0.readyAt
  }

  /** The same requests in the same order, none earlier. */
  ghost predicate NoEarlier(xs: seq<Emission>, ys: seq<Emission>) {
    && |xs| == |ys|
    && forall i :: 0 <= i < |xs| ==> xs[i].request == ys[i].request && xs[i].at >= ys[i].at
  }

  predicate RunOk(r: Run) {
    && !r.cancelled
    && r.nextAction <= |r.actions|
    && (!r.delayArmed ==> r.nextAction < |r.actions| && !r.actions[r.nextAction].Delay? && r.generated > 0)
  }

  /** What a run still has to emit when every poll comes exactly at its deadline. */
  function Rest(r: Run): seq<Emission>
    requires RunOk(r)
  {
    if r.delayArmed then Blocking(r.actions[r.nextAction..], r.delayMs, r.generated, r.readyAt)
    else
      [Emission(Request(r.actions[r.nextAction], r.generated + 1), r.readyAt)]
      + Blocking(r.actions[r.nextAction + 1..], r.delayMs, r.generated + 1, r.readyAt)
  }

  lemma {:induction false} BlockingLater(actions: seq<Action>, delayMs: nat, generated: nat, late: nat, clock: nat)
    requires late >= clock
    ensures NoEarlier(Blocking(actions, delayMs, generated, late), Blocking(actions, delayMs, generated, clock))
  {
    if actions == [] {
    } else if actions[0].Delay? {
      var d := Millis(actions[0].durationMs);
      BlockingLater(actions[1..], delayMs, generated, late + d, clock + d);
    } else {
      var gap := Gap(generated, delayMs);
      BlockingLater(actions[1..], delayMs, generated + 1, late + gap, clock + gap);
    }
  }

  /** Starting the rest of a run later makes nothing in it earlier. */
  lemma RestLater(r: Run, late: nat)
    requires RunOk(r) && late >= r.readyAt
    ensures NoEarlier(Rest(r.(readyAt := late)), Rest(r))
  {
    if r.delayArmed {
      BlockingLater(r.actions[r.nextAction..], r.delayMs, r.generated, late, r.readyAt);
    } else {
      BlockingLater(r.actions[r.nextAction + 1..], r.delayMs, r.generated + 1, late, r.readyAt);
    }
  }

  /** A poll exactly at the deadline stays on the blocking schedule. */
  lemma OnTimePoll(r: Run)
    requires RunOk(r)
    ensures var (r', outcome) := r.Poll(r.readyAt);
      RunOk(r') && Emitted(outcome, r.readyAt) + Rest(r') == Rest(r)
  {
    if r.nextAction < |r.actions| {
      assert r.actions[r.nextAction..][1..] == r.actions[r.nextAction + 1..];
    }
  }

  lemma PollStep(r: Run, now: nat)
    requires RunOk(r)
    ensures var (r', outcome) := r.Poll(now);
      && RunOk(r')
      && NoEarlier(Emitted(outcome, now) + Rest(r'), Rest(r))
      && (now <= r.readyAt ==> Emitted(outcome, now) + Rest(r') == Rest(r))
  {
    if r.nextAction < |r.actions| && now >= r.readyAt {
      var late := r.(readyAt := now);
      assert r.Poll(now) == late.Poll(now);
      OnTimePoll(late);
      RestLater(r, now);
      if now == r.readyAt {
        assert late == r;
      }
    } else {
      assert r.Poll(now).0 == r;
      assert [] + Rest(r) == Rest(r);
    }
  }

  lemma NoEarlierExtends(
    emitted: seq<Emission>, more: seq<Emission>, rest: seq<Emission>, before: seq<Emission>, all: seq<Emission>)
    requires NoEarlier(emitted + before, all) && NoEarlier(more + rest, before)
    ensures NoEarlier(emitted + more + rest, all)
  {
    forall i | 0 <= i < |emitted + more + rest|
      ensures (emitted + more + rest)[i].request == all[i].request && (emitted + more + rest)[i].at >= all[i].at
    {
      assert (emitted + before)[i].request == all[i].request;
      if i >= |emitted| {
        assert (more + rest)[i - |emitted|] == (emitted + more + rest)[i];
      }
    }
  }

  lemma {:induction false} PolledSchedule(r: Run, times: seq<nat>)
    requires RunOk(r)
    ensures var (r', emitted) := PollAll(r, times);
      RunOk(r') && NoEarlier(emitted + Rest(r'), Rest(r))
  {
    if times == [] {
      assert [] + Rest(r) == Rest(r);
    } else {
      var earlier, now := times[..|times| - 1], times[|times| - 1];
      PolledSchedule(r, earlier);
      var (r', emitted) := PollAll(r, earlier);
      PollStep(r', now);
      NoEarlierExtends(emitted, Emitted(r'.Poll(now).1, now), Rest(r'.Poll(now).0), Rest(r'), Rest(r));
    }
  }

  /** No poll comes after the deadline it finds. */
  ghost predicate NeverLate(r: Run, times: seq<nat>) {
    forall k :: 0 <= k < |times| ==> times[k] <= DeadlineAt(r, times, k)
  }

  lemma {:induction false} PolledOnTime(r: Run, times: seq<nat>)
    requires RunOk(r) && NeverLate(r, times)
    ensures var (r', emitted) := PollAll(r, times);
      RunOk(r') && emitted + Rest(r') == Rest(r)
  {
    if times == [] {
      assert [] + Rest(r) == Rest(r);
    } else {
      var earlier, now := times[..|times| - 1], times[|times| - 1];
      forall k | 0 <= k < |earlier| ensures earlier[k] <= DeadlineAt(r, earlier, k) {
        assert earlier[..k] == times[..k];
        assert times[k] <= DeadlineAt(r, times, k);
      }
      PolledOnTime(r, earlier);
      var (r', emitted) := PollAll(r, earlier);
      assert now <= DeadlineAt(r, times, |times| - 1);
      PollStep(r', now);
      var (r'', outcome) := r'.Poll(now);
      assert emitted + Emitted(outcome, now) + Rest(r'') == emitted + (Emitted(outcome, now) + Rest(r''));
    }
  }

  /** The actions a plan generates, in order. */
  function GeneratedActions(actions: seq<Action>): seq<Action> {
    if actions == [] then []
    else (if actions[0].Delay? then [] else [actions[0]]) + GeneratedActions(actions[1..])
  }

  /** The blocking schedule is the non-delay actions in order, numbered consecutively. */
  lemma {:induction false} BlockingRequests(actions: seq<Action>, delayMs: nat, generated: nat, clock: nat)
    ensures var b := Blocking(actions, delayMs, generated, clock);
      && |b| == |GeneratedActions(actions)|
      && forall i :: 0 <= i < |b| ==> b[i].request == Request(GeneratedActions(actions)[i], generated + i + 1)
  {
    if actions == [] {
    } else if actions[0].Delay? {
      BlockingRequests(actions[1..], delayMs, generated, clock + Millis(actions[0].durationMs));
    } else {
      BlockingRequests(actions[1..], delayMs, generated + 1, clock + Gap(generated, delayMs));
    }
  }

  /**
   Refinement, for any poll times: the requests emitted so far are the first non-delay actions in
   order, numbered from 1, none earlier than in the blocking schedule; and when no poll came after
   its deadline they are emitted at exactly the blocking times.
  */
  lemma PolledRunRefinesBlocking(id: nat, definition: Macro, delayMs: nat, start: nat, times: seq<nat>)
    ensures var emitted := PollAll(NewRun(id, definition, delayMs, start), times).1;
      var blocking := Blocking(definition, delayMs, 0, start);
      && |emitted| <= |GeneratedActions(definition)| == |blocking|
      && (forall i :: 0 <= i < |emitted| ==>
            && emitted[i].request == Request(GeneratedActions(definition)[i], i + 1)
            && emitted[i].at >= blocking[i].at)
      && (NeverLate(NewRun(id, definition, delayMs, start), times) ==> emitted <= blocking)
  {
    var r := NewRun(id, definition, delayMs, start);
    assert r.actions[0..] == r.actions;
    PolledSchedule(r, times);
    BlockingRequests(definition, delayMs, 0, start);
    var (r', emitted) := PollAll(r, times);
    forall i | 0 <= i < |emitted| ensures emitted[i] == (emitted + Rest(r'))[i] {
    }
    if NeverLate(r, times) {
      PolledOnTime(r, times);
    }
  }

  // ---- how many polls a run needs ----

  /** The polls a run still needs before it answers `Complete`. */
  function PollsLeft(actions: seq<Action>, delayMs: nat, generated: nat): nat {
    if actions == [] then 0
    else if actions[0].Delay? then 1 + PollsLeft(actions[1..], delayMs, generated)
    else (if Gap(generated, delayMs) > 0 then 2 else 1) + PollsLeft(actions[1..], delayMs, generated + 1)
  }

  function RunPollsLeft(r: Run): nat
    requires RunOk(r)
  {
    if r.delayArmed then PollsLeft(r.actions[r.nextAction..], r.delayMs, r.generated)
    else 1 + PollsLeft(r.actions[r.nextAction + 1..], r.delayMs, r.generated + 1)
  }

  lemma {:induction false} PollsLeftBound(actions: seq<Action>, delayMs: nat, generated: nat)
    ensures |actions| <= PollsLeft(actions, delayMs, generated) <= 2 * |actions|
    ensures generated == 0 && actions != [] ==> PollsLeft(actions, delayMs, generated) < 2 * |actions|
  {
    if actions != [] {
      PollsLeftBound(actions[1..], delayMs, if actions[0].Delay? then generated else generated + 1);
    }
  }

  /** A poll at or past the deadline does one of the polls left; an earlier one changes nothing. */
  lemma PollProgress(r: Run, now: nat)
    requires RunOk(r)
    ensures var (r', outcome) := r.Poll(now);
      && RunOk(r')
      && (outcome.Complete? <==> RunPollsLeft(r) == 0)
      && RunPollsLeft(r') == (if now >= r.readyAt then SatSub(RunPollsLeft(r), 1) else RunPollsLeft(r))
  {
    PollStep(r, now);
    if r.nextAction < |r.actions| {
      assert r.actions[r.nextAction..][1..] == r.actions[r.nextAction + 1..];
      PollsLeftBound(r.actions[r.nextAction..], r.delayMs, r.generated);
    }
  }

  /** How many of the polls come at or past the deadline they find. */
  function DueCount(r: Run, times: seq<nat>): nat {
    if times == [] then 0
    else
      var earlier, now := times[..|times| - 1], times[|times| - 1];
      DueCount(r, earlier) + if now >= PollAll(r, earlier).0.readyAt then 1 else 0
  }

  lemma {:induction false} DuePolls(r: Run, times: seq<nat>)
    requires RunOk(r)
    ensures var r' := PollAll(r, times).0;
      RunOk(r') && RunPollsLeft(r') == SatSub(RunPollsLeft(r), DueCount(r, times))
  {
    if times != [] {
      var earlier := times[..|times| - 1];
      DuePolls(r, earlier);
      PollProgress(PollAll(r, earlier).0, times[|times| - 1]);
    }
  }

  /**
   Progress, for any poll times: a run answers `Complete` exactly when `PollsLeft` polls before came
   at or past their deadlines, however many early ones lie between; that is at most 2n - 1 such
   polls for n actions.
  */
  lemma {:induction false} PolledRunCompletes(
    id: nat, definition: Macro, delayMs: nat, start: nat, times: seq<nat>, k: nat)
    requires k < |times|
    ensures var r := NewRun(id, definition, delayMs, start);
      OutcomeAt(r, times, k).Complete? <==> DueCount(r, times[..k]) >= PollsLeft(definition, delayMs, 0)
    ensures PollsLeft(definition, delayMs, 0) + 1 <= 2 * |definition|
  {
    var r := NewRun(id, definition, delayMs, start);
    assert r.actions[0..] == r.actions;
    DuePolls(r, times[..k]);
    PollProgress(PollAll(r, times[..k]).0, times[k]);
    PollsLeftBound(definition, delayMs, 0);
  }

  /** What a deadline tells the caller: whether polls still do anything, and from when on. */
  lemma DeadlineMeaning(r: Run, now: nat)
    ensures r.NextDeadline().None? <==> r.Poll(now).1.Complete? || r.Poll(now).1.Cancelled?
    ensures r.NextDeadline().None? ==> r.Poll(now).0 == r
    ensures r.NextDeadline().Some? ==>
      if now < r.NextDeadline().value then r.Poll(now) == (r, Pending(r.NextDeadline().value - now))
      else r.Poll(now).0 != r
  {
  }

  // ---- completion against the blocking executor ----

  /** The delay that ends a plan; zero when it ends otherwise. */
  function TrailingWait(actions: seq<Action>): nat {
    if actions != [] && actions[|actions| - 1].Delay? then Millis(actions[|actions| - 1].durationMs) else 0
  }

  /** When the blocking executor would return from here on. */
  function RestEnd(r: Run): nat
    requires RunOk(r)
  {
    if r.delayArmed then BlockingEnd(r.actions[r.nextAction..], r.delayMs, r.generated, r.readyAt)
    else BlockingEnd(r.actions[r.nextAction + 1..], r.delayMs, r.generated + 1, r.readyAt)
  }

  lemma {:induction false} EndLater(actions: seq<Action>, delayMs: nat, generated: nat, late: nat, clock: nat)
    requires late >= clock
    ensures BlockingEnd(actions, delayMs, generated, late) >= BlockingEnd(actions, delayMs, generated, clock)
  {
    if actions == [] {
    } else if actions[0].Delay? {
      var d := Millis(actions[0].durationMs);
      EndLater(actions[1..], delayMs, generated, late + d, clock + d);
    } else {
      var gap := Gap(generated, delayMs);
      EndLater(actions[1..], delayMs, generated + 1, late + gap, clock + gap);
    }
  }

  lemma OnTimeEnd(r: Run)
    requires RunOk(r)
    ensures RunOk(r.Poll(r.readyAt).0) && RestEnd(r.Poll(r.readyAt).0) == RestEnd(r)
  {
    OnTimePoll(r);
    if r.nextAction < |r.actions| {
      assert r.actions[r.nextAction..][1..] == r.actions[r.nextAction + 1..];
    }
  }

  /** No poll brings the end forward, and one at the deadline leaves it. */
  lemma PollEnd(r: Run, now: nat)
    requires RunOk(r)
    ensures RunOk(r.Poll(now).0) && RestEnd(r.Poll(now).0) >= RestEnd(r)
  {
    if r.nextAction < |r.actions| && now >= r.readyAt {
      var late := r.(readyAt := now);
      assert r.Poll(now) == late.Poll(now);
      OnTimeEnd(late);
      if r.delayArmed {
        EndLater(r.actions[r.nextAction..], r.delayMs, r.generated, now, r.readyAt);
      } else {
        EndLater(r.actions[r.nextAction + 1..], r.delayMs, r.generated + 1, now, r.readyAt);
      }
    }
  }

  predicate NonDecreasing(times: seq<nat>) {
    forall i :: 0 < i < |times| ==> times[i - 1] <= times[i]
  }

  /** A run that has taken its last action is ready, at the latest, a trailing wait after the last poll. */
  ghost predicate ReadyAfterLast(r: Run, times: seq<nat>) {
    r.nextAction == |r.actions| ==> times != [] && r.readyAt <= times[|times| - 1] + TrailingWait(r.actions)
  }

  lemma TakesLast(r: Run, now: nat)
    requires RunOk(r) && r.nextAction < |r.actions|
    ensures var r' := r.Poll(now).0;
      r'.actions == r.actions
      && (r'.nextAction == |r.actions| ==> now >= r.readyAt && r'.readyAt == now + TrailingWait(r.actions))
  {
  }

  lemma {:induction false} EndOfPolls(r: Run, times: seq<nat>)
    requires RunOk(r) && r.nextAction < |r.actions| && NonDecreasing(times)
    ensures var r' := PollAll(r, times).0;
      RunOk(r') && r'.actions == r.actions && RestEnd(r') >= RestEnd(r) && ReadyAfterLast(r', times)
  {
    if times != [] {
      var earlier, now := times[..|times| - 1], times[|times| - 1];
      EndOfPolls(r, earlier);
      var before := PollAll(r, earlier).0;
      PollEnd(before, now);
      if before.nextAction < |r.actions| {
        TakesLast(before, now);
      }
    }
  }

  lemma AllTaken(r: Run)
    requires RunOk(r) && r.nextAction == |r.actions|
    ensures RestEnd(r) == r.readyAt
  {
    assert r.actions[r.nextAction..] == [];
  }

  /**
   For every plan and all non-decreasing poll times, a run completes at most its trailing delay
   before the blocking executor returns.
  */
  lemma {:induction false} EarlyByTrailingDelayAtMost(
    id: nat, definition: Macro, delayMs: nat, start: nat, times: seq<nat>, k: nat)
    requires NonDecreasing(times) && k < |times|
    requires OutcomeAt(NewRun(id, definition, delayMs, start), times, k).Complete?
    ensures times[k] + TrailingWait(definition) >= BlockingEnd(definition, delayMs, 0, start)
  {
    var r := NewRun(id, definition, delayMs, start);
    assert r.actions[0..] == r.actions;
    EndOfPolls(r, times[..k]);
    AllTaken(PollAll(r, times[..k]).0);
    LastAtMost(times, k);
  }

  lemma LastAtMost(times: seq<nat>, k: nat)
    requires NonDecreasing(times) && 0 < k < |times|
    ensures times[..k][|times[..k]| - 1] <= times[k]
  {
  }

  /** The first `n` polls when each comes exactly at its deadline. */
  function OnTime(r: Run, n: nat): (times: seq<nat>)
    ensures |times| == n
  {
    if n == 0 then [] else OnTime(r, n - 1) + [PollAll(r, OnTime(r, n - 1)).0.readyAt]
  }

  lemma DeadlinesGrow(r: Run)
    requires RunOk(r)
    ensures r.Poll(r.readyAt).0.readyAt >= r.readyAt
  {
  }

  lemma {:induction false} OnTimePolls(r: Run, n: nat)
    requires RunOk(r)
    ensures var times := OnTime(r, n); var r' := PollAll(r, times).0;
      && RunOk(r') && RestEnd(r') == RestEnd(r) && r'.actions == r.actions
      && NonDecreasing(times) && NeverLate(r, times)
      && (times != [] ==> times[n - 1] <= r'.readyAt)
      && RunPollsLeft(r') == SatSub(RunPollsLeft(r), n)
  {
    hide PollAll;
    hide RunPollsLeft;
    hide RestEnd;
    hide RunOk;
    hide NeverLate;
    if n == 0 {
      NoPolls(r);
    } else {
      var earlier := OnTime(r, n - 1);
      OnTimePolls(r, n - 1);
      var before := PollAll(r, earlier).0;
      OnTimePollsStep(r, earlier, before);
    }
  }

  lemma NoPolls(r: Run)
    ensures PollAll(r, []) == (r, []) && NeverLate(r, [])
  {
  }

  lemma PollAllSnoc(r: Run, times: seq<nat>, now: nat)
    ensures PollAll(r, times + [now]).0 == PollAll(r, times).0.Poll(now).0
  {
    assert (times + [now])[..|times|] == times;
  }

  lemma OnTimePollsStep(r: Run, earlier: seq<nat>, before: Run)
    requires before == PollAll(r, earlier).0 && RunOk(before)
    requires NonDecreasing(earlier) && NeverLate(r, earlier)
    requires earlier != [] ==> earlier[|earlier| - 1] <= before.readyAt
    ensures var times := earlier + [before.readyAt]; var r' := PollAll(r, times).0;
      && RunOk(r') && RestEnd(r') == RestEnd(before) && r'.actions == before.actions
      && NonDecreasing(times) && NeverLate(r, times)
      && before.readyAt <= r'.readyAt
      && RunPollsLeft(r') == SatSub(RunPollsLeft(before), 1)
  {
    hide PollAll;
    hide RunPollsLeft;
    hide RestEnd;
    hide NeverLate;
    PollAllSnoc(r, earlier, before.readyAt);
    OnTimeEnd(before);
    PollProgress(before, before.readyAt);
    DeadlinesGrow(before);
    NeverLateSnoc(r, earlier, before.readyAt);
  }

  lemma NeverLateSnoc(r: Run, times: seq<nat>, now: nat)
    requires NeverLate(r, times) && now <= PollAll(r, times).0.readyAt
    ensures NeverLate(r, times + [now])
  {
    forall k | 0 <= k < |times + [now]| ensures (times + [now])[k] <= DeadlineAt(r, times + [now], k) {
      assert (times + [now])[..k] == times[..k];
      if k == |times| {
        assert times[..k] == times;
      } else {
        assert times[k] <= DeadlineAt(r, times, k);
      }
    }
  }

  /** For every plan, some poll times, none late, complete exactly its trailing delay early. */
  lemma {:induction false} TrailingDelayNotWaited(id: nat, definition: Macro, delayMs: nat, start: nat)
    returns (times: seq<nat>, k: nat)
    ensures var r := NewRun(id, definition, delayMs, start);
      && k < |times| && NonDecreasing(times) && NeverLate(r, times) && OutcomeAt(r, times, k).Complete?
      && times[k] + TrailingWait(definition) == BlockingEnd(definition, delayMs, 0, start)
  {
    hide PollAll;
    hide RestEnd;
    hide NeverLate;
    hide BlockingEnd;
    var r := NewRun(id, definition, delayMs, start);
    NewRunEnd(id, definition, delayMs, start);
    var n := RunPollsLeft(r);
    OnTimePolls(r, n);
    OnTimePolls(r, n - 1);
    var earlier := OnTime(r, n - 1);
    var before, after := PollAll(r, earlier).0, PollAll(r, OnTime(r, n)).0;
    PollAllSnoc(r, earlier, before.readyAt);
    TakesLastHere(before, after);
    times, k := OnTime(r, n) + [before.readyAt], n;
    assert times[..k] == OnTime(r, n);
    NeverLateSnoc(r, OnTime(r, n), before.readyAt);
  }

  lemma NewRunEnd(id: nat, definition: Macro, delayMs: nat, start: nat)
    ensures var r := NewRun(id, definition, delayMs, start);
      RunOk(r) && RunPollsLeft(r) > 0 && RestEnd(r) == BlockingEnd(definition, delayMs, 0, start)
  {
    var r := NewRun(id, definition, delayMs, start);
    assert r.actions[0..] == r.actions;
    PollsLeftBound(definition, delayMs, 0);
  }

  lemma TakesLastHere(before: Run, after: Run)
    requires RunOk(before) && RunPollsLeft(before) == 1 && after == before.Poll(before.readyAt).0
    requires RunOk(after) && RunPollsLeft(after) == 0
    ensures after.Poll(before.readyAt).1.Complete?
    ensures RestEnd(after) == before.readyAt + TrailingWait(before.actions)
    ensures before.readyAt <= after.readyAt
  {
    PollProgress(before, before.readyAt);
    PollProgress(after, before.readyAt);
    TakesLast(before, before.readyAt);
    AllTaken(after);
  }

  /**
   A run can complete before the blocking executor returns if and only if its plan ends in a delay of
   positive length.
  */
  lemma {:induction false} CompletesEarlyIff(id: nat, definition: Macro, delayMs: nat, start: nat)
    ensures
      (exists times, k :: 0 <= k < |times| && NonDecreasing(times)
        && OutcomeAt(NewRun(id, definition, delayMs, start), times, k).Complete?
        && times[k] < BlockingEnd(definition, delayMs, 0, start))
      <==> TrailingWait(definition) > 0
  {
    var r := NewRun(id, definition, delayMs, start);
    var end := BlockingEnd(definition, delayMs, 0, start);
    if times, k :| 0 <= k < |times| && NonDecreasing(times) && OutcomeAt(r, times, k).Complete? && times[k] < end {
      EarlyByTrailingDelayAtMost(id, definition, delayMs, start, times, k);
    }
    if TrailingWait(definition) > 0 {
      var times, k := TrailingDelayNotWaited(id, definition, delayMs, start);
      assert 0 <= k < |times| && NonDecreasing(times) && OutcomeAt(r, times, k).Complete? && times[k] < end;
    }
  }

  /** Once a run has answered `Complete` it has emitted the whole blocking schedule's requests. */
  lemma CompleteMeansAllEmitted(id: nat, definition: Macro, delayMs: nat, start: nat, times: seq<nat>, k: nat)
    requires k < |times|
    ensures var r := NewRun(id, definition, delayMs, start);
      OutcomeAt(r, times, k).Complete? ==> |PollAll(r, times[..k]).1| == |GeneratedActions(definition)|
  {
    var r := NewRun(id, definition, delayMs, start);
    assert r.actions[0..] == r.actions;
    PolledSchedule(r, times[..k]);
    BlockingRequests(definition, delayMs, 0, start);
    ActionsFixed(r, times[..k]);
  }

  lemma {:induction false} ActionsFixed(r: Run, times: seq<nat>)
    ensures PollAll(r, times).0.actions == r.actions
  {
    if times != [] {
      ActionsFixed(r, times[..|times| - 1]);
    }
  }
}

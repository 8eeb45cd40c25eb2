/**
 How often a repeating loop ticks, and that the event loop never sleeps past a tick or a deadline
 (crates/signal-auras-cli/src/runner.rs:2296-2351, 3673-3681;
 crates/signal-auras-cli/src/runner/runtime_loop.rs:76-101).
*/
module LiveTicks {
  import opened Wrappers
  import opened MacroPlan
  import opened Motion
  import opened MotionRuns
  import opened MacroQueue
  import opened LiveRuntime
  import opened LiveInvariants
  import opened LiveHistory

  /** The motion repeats, and how often. */
  predicate Repeats(p: LiveProgram, t: Trigger) {
    && t in p.table.motions && p.table.motions[t].loopDefinition.Some?
    && p.table.motions[t].loopDefinition.value.body.Repeat?
  }

  function Interval(p: LiveProgram, t: Trigger): nat
    requires Repeats(p, t)
  {
    Millis(p.table.motions[t].loopDefinition.value.body.everyMs)
  }

  /** The scan reaches the point where it schedules a tick of this motion. */
  predicate ScanFires(p: LiveProgram, s: System, t: Trigger, focus: Focus, now: nat) {
    t in s.matcher.loops && Repeats(p, t) && TickDue(p, s, t, now) && focus.Context?
  }

  /** The motions ticked by a scan from entry `i` on. */
  function TickedIn(
    p: LiveProgram, s: System, triggers: seq<Trigger>, focus: nat -> Focus, i: nat, now: nat, clock: nat -> nat)
    : seq<Trigger>
    requires i <= |triggers|
    decreases |triggers| - i
  {
    if i == |triggers| then []
    else
      var (s', ok) := ScanTick(p, s, triggers[i], focus(i), now, clock);
      (if ScanFires(p, s, triggers[i], focus(i), now) then [triggers[i]] else [])
      + if ok then TickedIn(p, s', triggers, focus, i + 1, now, clock) else []
  }

  /** The motions ticked by a step. */
  function TicksOf(p: LiveProgram, s: System, step: LiveStep): seq<Trigger> {
    if step.ScanStep? then TickedIn(p, s, RepeatingMotions(p.table), step.scanFocus, 0, step.now, step.clock) else []
  }

  ghost predicate SameTick(s: System, s': System, t: Trigger) {
    (t in s.ticks <==> t in s'.ticks) && (t in s.ticks ==> s.ticks[t] == s'.ticks[t])
  }

  // ---- one scan ----

  lemma RepeatTickTicks(p: LiveProgram, s: System, t: Trigger, focus: Focus, clock: nat -> nat)
    requires WellFormed(p) && t in p.table.motions && focus.Context?
    ensures var s' := TakeDeactivation(p, RepeatTick(p, s, p.table.motions[t], focus, clock), clock);
      s'.ticks == s.ticks && s'.matcher.loops <= s.matcher.loops
  {
    hide RepeatTick;
    hide TakeDeactivation;
    hide Grown;
    RepeatTickMoves(p, s, t, focus, clock);
    TakeDeactivationMoves(p, RepeatTick(p, s, p.table.motions[t], focus, clock), clock);
  }

  /** One entry of the scan forgets, stamps or leaves its own tick, and no other. */
  lemma ScanTickTicks(p: LiveProgram, s: System, t: Trigger, focus: Focus, now: nat, clock: nat -> nat)
    requires WellFormed(p)
    ensures var (s', ok) := ScanTick(p, s, t, focus, now, clock);
      && s'.matcher.loops <= s.matcher.loops
      && (forall u :: u != t ==> SameTick(s, s', u))
      && (if t !in s.matcher.loops then t !in s'.ticks
          else if ScanFires(p, s, t, focus, now) then t in s'.ticks && s'.ticks[t] == now
          else SameTick(s, s', t))
  {
    hide RepeatTick;
    hide TakeDeactivation;
    if ScanFires(p, s, t, focus, now) {
      RepeatTickTicks(p, s, t, focus, clock);
    }
  }

  /** What a whole scan does to the tick of `t`: nothing, or it stamps it once, or it forgets it. */
  ghost predicate Scanned(p: LiveProgram, s: System, s': System, t: Trigger, ticked: bool, now: nat) {
    && s'.matcher.loops <= s.matcher.loops
    && (if ticked then
          && Repeats(p, t) && t in s.matcher.loops && t in s'.ticks && s'.ticks[t] == now
          && (t in s.ticks ==> SatSub(now, s.ticks[t]) >= Interval(p, t))
        else SameTick(s, s', t) || (t !in s'.ticks && t !in s'.matcher.loops))
  }

  lemma ScanTickOther(p: LiveProgram, s: System, u: Trigger, focus: Focus, now: nat, clock: nat -> nat, t: Trigger)
    requires WellFormed(p) && u != t
    ensures var s' := ScanTick(p, s, u, focus, now, clock).0;
      s'.matcher.loops <= s.matcher.loops && SameTick(s, s', t)
  {
    hide ScanTick;
    hide ScanFires;
    ScanTickTicks(p, s, u, focus, now, clock);
  }

  lemma ScanUnfolds(
    p: LiveProgram, s: System, triggers: seq<Trigger>, focus: nat -> Focus, i: nat, now: nat, clock: nat -> nat, t: Trigger)
    requires i < |triggers|
    ensures var (s1, ok) := ScanTick(p, s, triggers[i], focus(i), now, clock);
      var fires := t == triggers[i] && ScanFires(p, s, t, focus(i), now);
      if ok then
        && ScanTicks(p, s, triggers, focus, i, now, clock) == ScanTicks(p, s1, triggers, focus, i + 1, now, clock)
        && (t in TickedIn(p, s, triggers, focus, i, now, clock) <==>
              fires || t in TickedIn(p, s1, triggers, focus, i + 1, now, clock))
      else
        && ScanTicks(p, s, triggers, focus, i, now, clock) == (s1, false)
        && (t in TickedIn(p, s, triggers, focus, i, now, clock) <==> fires)
  {
    hide ScanTick;
    hide ScanFires;
  }

  lemma SameTickThrough(a: System, b: System, c: System, t: Trigger)
    requires SameTick(a, b, t) && SameTick(b, c, t)
    ensures SameTick(a, c, t)
  {
  }

  lemma {:induction false} ScanLeaves(
    p: LiveProgram, s: System, triggers: seq<Trigger>, focus: nat -> Focus, i: nat, now: nat, clock: nat -> nat, t: Trigger)
    requires WellFormed(p) && i <= |triggers| && t !in triggers[i..]
    ensures t !in TickedIn(p, s, triggers, focus, i, now, clock)
    ensures SameTick(s, ScanTicks(p, s, triggers, focus, i, now, clock).0, t)
    ensures ScanTicks(p, s, triggers, focus, i, now, clock).0.matcher.loops <= s.matcher.loops
    decreases |triggers| - i
  {
    if i < |triggers| {
      ScanLeavesOne(p, s, triggers, focus, i, now, clock, t);
    }
  }

  lemma {:induction false} ScanLeavesOne(
    p: LiveProgram, s: System, triggers: seq<Trigger>, focus: nat -> Focus, i: nat, now: nat, clock: nat -> nat, t: Trigger)
    requires WellFormed(p) && i < |triggers| && t !in triggers[i..]
    ensures t !in TickedIn(p, s, triggers, focus, i, now, clock)
    ensures SameTick(s, ScanTicks(p, s, triggers, focus, i, now, clock).0, t)
    ensures ScanTicks(p, s, triggers, focus, i, now, clock).0.matcher.loops <= s.matcher.loops
    decreases |triggers| - i, 0
  {
    hide ScanTick;
    hide ScanFires;
    hide ScanTicks;
    hide TickedIn;
    hide SameTick;
    assert triggers[i] in triggers[i..] && forall u :: u in triggers[i + 1..] ==> u in triggers[i..];
    var (s1, ok) := ScanTick(p, s, triggers[i], focus(i), now, clock);
    ScanTickOther(p, s, triggers[i], focus(i), now, clock, t);
    ScanUnfolds(p, s, triggers, focus, i, now, clock, t);
    if ok {
      ScanLeaves(p, s1, triggers, focus, i + 1, now, clock, t);
      SameTickThrough(s, s1, ScanTicks(p, s1, triggers, focus, i + 1, now, clock).0, t);
    }
  }

  lemma ScannedThrough(p: LiveProgram, s: System, s1: System, s': System, t: Trigger, ticked: bool, now: nat)
    requires SameTick(s, s1, t) && s1.matcher.loops <= s.matcher.loops && Scanned(p, s1, s', t, ticked, now)
    ensures Scanned(p, s, s', t, ticked, now)
  {
  }

  lemma ScannedFirst(
    p: LiveProgram, s: System, t: Trigger, focus: Focus, s': System, now: nat, clock: nat -> nat)
    requires WellFormed(p)
    requires var s1 := ScanTick(p, s, t, focus, now, clock).0; SameTick(s1, s', t) && s'.matcher.loops <= s1.matcher.loops
    ensures Scanned(p, s, s', t, ScanFires(p, s, t, focus, now), now)
  {
    hide ScanTick;
    ScanTickTicks(p, s, t, focus, now, clock);
    if ScanFires(p, s, t, focus, now) {
      FiresMeaning(p, s, t, focus, now);
    }
  }

  lemma FiresMeaning(p: LiveProgram, s: System, t: Trigger, focus: Focus, now: nat)
    requires ScanFires(p, s, t, focus, now)
    ensures Repeats(p, t) && t in s.matcher.loops && (t in s.ticks ==> SatSub(now, s.ticks[t]) >= Interval(p, t))
  {
  }

  lemma {:induction false} ScanTicksTicks(
    p: LiveProgram, s: System, triggers: seq<Trigger>, focus: nat -> Focus, i: nat, now: nat, clock: nat -> nat, t: Trigger)
    requires WellFormed(p) && i <= |triggers|
    requires forall j, k :: 0 <= j < k < |triggers| ==> triggers[j] != triggers[k]
    ensures Scanned(p, s, ScanTicks(p, s, triggers, focus, i, now, clock).0, t,
                    t in TickedIn(p, s, triggers, focus, i, now, clock), now)
    decreases |triggers| - i
  {
    hide ScanTick;
    hide ScanFires;
    hide Scanned;
    hide SameTick;
    if i == |triggers| {
      NothingScanned(p, s, t, now);
    } else {
      var (s1, ok) := ScanTick(p, s, triggers[i], focus(i), now, clock);
      ScanUnfolds(p, s, triggers, focus, i, now, clock, t);
      var s' := ScanTicks(p, s, triggers, focus, i, now, clock).0;
      if triggers[i] == t {
        assert t !in triggers[i + 1..];
        SameTickHere(s1, t);
        ScanLeaves(p, s1, triggers, focus, i + 1, now, clock, t);
        ScannedFirst(p, s, t, focus(i), s', now, clock);
      } else {
        ScanTickOther(p, s, triggers[i], focus(i), now, clock, t);
        NothingScanned(p, s1, t, now);
        ScanTicksTicks(p, s1, triggers, focus, i + 1, now, clock, t);
        ScannedThrough(p, s, s1, s', t, t in TickedIn(p, s, triggers, focus, i, now, clock), now);
      }
    }
  }

  lemma SameTickHere(s: System, t: Trigger)
    ensures SameTick(s, s, t)
  {
  }

  lemma NothingScanned(p: LiveProgram, s: System, t: Trigger, now: nat)
    ensures Scanned(p, s, s, t, false, now)
  {
  }

  lemma RepeatingDistinct(table: MotionTable)
    requires table.Valid()
    ensures var triggers := RepeatingMotions(table);
      forall j, k :: 0 <= j < k < |triggers| ==> triggers[j] != triggers[k]
    ensures forall t :: t in RepeatingMotions(table) <==>
      t in table.motions && table.motions[t].loopDefinition.Some? && table.motions[t].loopDefinition.value.body.Repeat?
  {
    ListedMeaning(table.order,
                  set t | t in table.motions && table.motions[t].loopDefinition.Some?
                    && table.motions[t].loopDefinition.value.body.Repeat?);
  }

  lemma StepScanned(p: LiveProgram, s: System, step: LiveStep, t: Trigger)
    requires WellFormed(p) && step.ScanStep?
    ensures Scanned(p, s, LiveStepFrom(p, s, step).0, t, t in TicksOf(p, s, step), step.now)
  {
    RepeatingDistinct(p.table);
    ScanTicksTicks(p, s, RepeatingMotions(p.table), step.scanFocus, 0, step.now, step.clock, t);
  }

  // ---- two ticks ----

  /** The tick is remembered, and is not older than `since`. */
  ghost predicate TickedSince(s: System, t: Trigger, since: nat) {
    t in s.ticks && s.ticks[t] >= since
  }

  /** No scan among these steps, of those carried out, ends with loop `t` ended. */
  ghost predicate ScansFindActive(p: LiveProgram, steps: seq<LiveStep>, i: nat, k: nat, t: Trigger)
    requires k <= |steps|
  {
    forall l :: i <= l < k && steps[l].ScanStep? ==> t in LiveAfter(p, START, steps[..l + 1]).0.matcher.loops
  }

  lemma StepTicks(p: LiveProgram, s: System, step: LiveStep, t: Trigger, since: nat)
    requires WellFormed(p) && Repeats(p, t) && Interval(p, t) > 0 && TickedSince(s, t, since)
    requires step.ScanStep? ==> t in LiveStepFrom(p, s, step).0.matcher.loops
    ensures TickedSince(LiveStepFrom(p, s, step).0, t, since)
    ensures t in TicksOf(p, s, step) ==> step.ScanStep? && step.now >= since + Interval(p, t)
  {
    hide TicksOf;
    if step.ScanStep? {
      StepScanned(p, s, step, t);
    } else {
      hide Grown;
      if !step.DriveStep? {
        StepMoves(p, s, step);
      }
      NoOtherTicks(p, s, step);
    }
  }

  lemma NoOtherTicks(p: LiveProgram, s: System, step: LiveStep)
    ensures !step.ScanStep? ==> TicksOf(p, s, step) == []
  {
  }

  lemma LastStep(p: LiveProgram, steps: seq<LiveStep>, k: nat)
    requires k < |steps|
    ensures var (s, ok) := LiveAfter(p, START, steps[..k]);
      LiveAfter(p, START, steps[..k + 1]) ==
        if ok then (LiveStepFrom(p, s, steps[k]).0, LiveStepFrom(p, s, steps[k]).2) else (s, false)
  {
    hide LiveStepFrom;
    assert steps[..k + 1][..k] == steps[..k];
  }

  lemma {:induction false} TickStays(p: LiveProgram, steps: seq<LiveStep>, i: nat, k: nat, t: Trigger)
    requires WellFormed(p) && Repeats(p, t) && Interval(p, t) > 0
    requires i < k < |steps| && LiveAfter(p, START, steps[..k]).1
    requires t in TicksOf(p, LiveAfter(p, START, steps[..i]).0, steps[i]) && steps[i].ScanStep?
    requires ScansFindActive(p, steps, i + 1, k, t)
    ensures TickedSince(LiveAfter(p, START, steps[..k]).0, t, steps[i].now)
    decreases k
  {
    hide LiveAfter;
    hide LiveStepFrom;
    hide TicksOf;
    LastStep(p, steps, k - 1);
    var s := LiveAfter(p, START, steps[..k - 1]).0;
    if k == i + 1 {
      StepScanned(p, s, steps[i], t);
    } else {
      TickStays(p, steps, i, k - 1, t);
      StepTicks(p, s, steps[k - 1], t, steps[i].now);
    }
  }

  /**
   Over every live run, two ticks of one loop lie at least its interval apart, unless a scan between
   them found the loop ended.
  */
  lemma {:induction false} TicksApart(p: LiveProgram, steps: seq<LiveStep>, i: nat, k: nat, t: Trigger)
    requires WellFormed(p) && i < k < |steps| && LiveAfter(p, START, steps[..k]).1
    requires t in TicksOf(p, LiveAfter(p, START, steps[..i]).0, steps[i])
    requires t in TicksOf(p, LiveAfter(p, START, steps[..k]).0, steps[k])
    requires ScansFindActive(p, steps, i + 1, k, t)
    ensures steps[i].ScanStep? && steps[k].ScanStep? && Repeats(p, t)
    ensures SatSub(steps[k].now, steps[i].now) >= Interval(p, t)
  {
    hide LiveAfter;
    hide LiveStepFrom;
    var s := LiveAfter(p, START, steps[..k]).0;
    StepScanned(p, s, steps[k], t);
    if Interval(p, t) > 0 {
      TickStays(p, steps, i, k, t);
    }
  }

  // ---- the wait ----

  const IDLE_WAIT: nat := Millis(300_000)

  /** How long until the next tick of an active loop is due. */
  function TickWait(p: LiveProgram, s: System, t: Trigger, now: nat): nat
    requires Repeats(p, t)
  {
    if t in s.ticks then SatSub(Interval(p, t), SatSub(now, s.ticks[t])) else 0
  }

  /** No longer than the wait of any active repeating loop, and as long as the least of them allows. */
  ghost predicate LeastTickWait(p: LiveProgram, s: System, now: nat, wait: nat) {
    && wait <= IDLE_WAIT
    && (forall t :: Repeats(p, t) && t in s.matcher.loops ==> wait <= TickWait(p, s, t, now))
    && (wait == IDLE_WAIT || exists t :: Repeats(p, t) && t in s.matcher.loops && wait == TickWait(p, s, t, now))
  }

  /** No longer than the wait for any queued run, and as long as the least of them allows. */
  ghost predicate LeastRunWait(s: System, now: nat, wait: nat) {
    && (forall run :: run in s.queue.runs && WaitOf(run, now).Some? ==> wait <= WaitOf(run, now).value)
    && (|| (exists run :: run in s.queue.runs && WaitOf(run, now) == Some(wait))
        || (wait == IDLE_WAIT && forall run :: run in s.queue.runs ==> WaitOf(run, now).None?))
  }

  /** The lesser of the two waits, which read the clock one after the other. */
  ghost predicate LeastWait(p: LiveProgram, s: System, tickNow: nat, runNow: nat, wait: nat) {
    exists ticks: nat, runs: nat ::
      LeastTickWait(p, s, tickNow, ticks) && LeastRunWait(s, runNow, runs) && wait == if ticks <= runs then ticks else runs
  }

  lemma RunNotDue(run: LiveRun, now: nat, later: nat)
    requires run.state.NextDeadline().Some? && now <= later < now + WaitOf(run, now).value
    ensures run.state.Poll(later) == (run.state, Pending(run.state.readyAt - later))
  {
  }

  /**
   Sleeping for that long passes nothing: before it is over, in the same state, no tick of an active loop
   is due, and no queued run with a deadline would do anything if it were polled.
  */
  lemma {:induction false} NothingDueWhileWaiting(
    p: LiveProgram, s: System, tickNow: nat, runNow: nat, wait: nat, later: nat)
    requires LeastWait(p, s, tickNow, runNow, wait)
    ensures tickNow <= later < tickNow + wait ==>
      forall t :: Repeats(p, t) && t in s.matcher.loops ==> !TickDue(p, s, t, later)
    ensures runNow <= later < runNow + wait ==>
      forall run :: run in s.queue.runs && run.state.NextDeadline().Some? ==>
        run.state.Poll(later) == (run.state, Pending(run.state.readyAt - later))
  {
    if tickNow <= later < tickNow + wait {
      forall t | Repeats(p, t) && t in s.matcher.loops ensures !TickDue(p, s, t, later) {
        assert wait <= TickWait(p, s, t, tickNow);
      }
    }
    if runNow <= later < runNow + wait {
      forall run | run in s.queue.runs && run.state.NextDeadline().Some?
        ensures run.state.Poll(later) == (run.state, Pending(run.state.readyAt - later))
      {
        RunNotDue(run, runNow, later);
      }
    }
  }

  /** When the wait for the next tick is over, unless it was the idle wait, some active loop is due. */
  lemma {:induction false} TickDueAfterWait(p: LiveProgram, s: System, now: nat, wait: nat)
    requires LeastTickWait(p, s, now, wait)
    requires forall t :: t in s.ticks ==> s.ticks[t] <= now
    ensures wait < IDLE_WAIT ==> exists t :: Repeats(p, t) && t in s.matcher.loops && TickDue(p, s, t, now + wait)
  {
    if wait < IDLE_WAIT {
      var t :| Repeats(p, t) && t in s.matcher.loops && wait == TickWait(p, s, t, now);
      assert TickDue(p, s, t, now + wait);
    }
  }

  /**
   When the wait for the queued runs is over, some run has reached its deadline and polling it would move it on;
   the wait is the idle one when no run has a deadline.
  */
  lemma {:induction false} RunDueAfterWait(s: System, now: nat, wait: nat)
    requires LeastRunWait(s, now, wait)
    ensures (exists run :: run in s.queue.runs && run.state.NextDeadline().Some?) ==>
      exists run :: run in s.queue.runs && run.state.NextDeadline().Some?
        && run.state.NextDeadline().value <= now + wait
        && run.state.Poll(now + wait).0 != run.state
    ensures (forall run :: run in s.queue.runs ==> run.state.NextDeadline().None?) ==> wait == IDLE_WAIT
  {
    if some :| some in s.queue.runs && some.state.NextDeadline().Some? {
      assert WaitOf(some, now).Some?;
      var run :| run in s.queue.runs && WaitOf(run, now) == Some(wait);
      assert run.state.NextDeadline().value <= now + wait;
      RunDue(run, now + wait);
    }
  }

  lemma RunDue(run: LiveRun, now: nat)
    requires run.state.NextDeadline().Some? && run.state.NextDeadline().value <= now
    ensures run.state.Poll(now).0 != run.state
  {
  }
}

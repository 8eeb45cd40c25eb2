/**
 Accounting over every run of the matcher: loops that start and stop, and attempts that
 open and close.
*/
module MotionAccounting {
  import opened Wrappers
  import opened Motion
  import opened MotionRuns

  /** All the events of a run, in order. */
  function Log(table: MotionTable, h: seq<Input>): seq<Event> {
    if h == [] then []
    else Log(table, h[..|h| - 1]) + EventsAt(table, IDLE, h, |h| - 1)
  }

  // ---- loops ----

  /** Is the last start-or-cancel event of loop `t` in the log a start? */
  function LoopOpen(log: seq<Event>, t: Trigger): bool {
    if log == [] then false
    else
      var last := log[|log| - 1];
      if last == Triggered(t, true) then true
      else if last == LoopCancelled(t) then false
      else LoopOpen(log[..|log| - 1], t)
  }

  /** `log[j]` starts loop `t` and nothing after it cancels it. */
  predicate StartedAt(log: seq<Event>, t: Trigger, j: int) {
    && 0 <= j < |log|
    && log[j] == Triggered(t, true)
    && (forall k :: j < k < |log| ==> log[k] != LoopCancelled(t))
  }

  lemma {:induction false} LoopOpenMeaning(log: seq<Event>, t: Trigger)
    ensures LoopOpen(log, t) <==> exists j :: StartedAt(log, t, j)
  {
    if log != [] {
      var before := log[..|log| - 1];
      LoopOpenMeaning(before, t);
      if LoopOpen(before, t) && log[|log| - 1] != LoopCancelled(t) {
        var j :| StartedAt(before, t, j);
        assert StartedAt(log, t, j);
      }
      if log[|log| - 1] == Triggered(t, true) {
        assert StartedAt(log, t, |log| - 1);
      }
      if j :| StartedAt(log, t, j) && j < |log| - 1 {
        assert StartedAt(before, t, j);
      }
    }
  }

  lemma {:induction false} LoopOpenAppend(log: seq<Event>, events: seq<Event>, t: Trigger)
    ensures (forall e :: e in events ==> e != Triggered(t, true) && e != LoopCancelled(t)) ==>
      LoopOpen(log + events, t) == LoopOpen(log, t)
    ensures events != [] && events[|events| - 1] == Triggered(t, true) ==> LoopOpen(log + events, t)
    ensures Triggered(t, true) !in events && LoopCancelled(t) in events ==> !LoopOpen(log + events, t)
  {
    if events == [] {
      assert log + events == log;
    } else {
      var before, last := events[..|events| - 1], events[|events| - 1];
      LoopOpenAppend(log, before, t);
      assert (log + events)[..|log + events| - 1] == log + before;
      assert forall e :: e in events <==> e in before || e == last;
    }
  }

  /** Events that end with the only trigger among them, start its loop if it says so, and cancel nothing. */
  ghost predicate TriggerLast(before: set<Trigger>, after: set<Trigger>, events: seq<Event>) {
    && (forall i :: 0 <= i < |events| ==> !events[i].LoopCancelled?)
    && (forall t :: t in after <==> t in before || Triggered(t, true) in events)
    && (forall i :: 0 <= i < |events| - 1 ==> events[i].Discarded?)
  }

  lemma OpenLog(table: MotionTable, s: Matcher, token: Token, at: nat)
    ensures TriggerLast(s.loops, Open(table, s, token, at).0.loops, Open(table, s, token, at).1)
    ensures |Open(table, s, token, at).1| <= 1
  {
  }

  lemma NotedLog(before: set<Trigger>, after: set<Trigger>, reason: DiscardReason, events: seq<Event>)
    requires TriggerLast(before, after, events) && |events| <= 1
    ensures TriggerLast(before, after, [Discarded(reason)] + events)
  {
    forall t ensures Triggered(t, true) in events <==> Triggered(t, true) in [Discarded(reason)] + events {
    }
  }

  lemma AdvanceLog(table: MotionTable, s: Matcher, token: Token, at: nat)
    requires s.attempt.Some? && Survivors(table, s.held, s.attempt.value, token, at) != {}
    ensures TriggerLast(s.loops, Advance(table, s, token, at).0.loops, Advance(table, s, token, at).1)
  {
  }

  lemma PressLog(table: MotionTable, s: Matcher, token: Token, at: nat)
    ensures TriggerLast(s.loops, Press(table, s, token, at).0.loops, Press(table, s, token, at).1)
  {
    var s0 := s.(held := s.held + {token});
    var begun := Open(table, s0.(attempt := None), token, at);
    if s.attempt.None? || Expired(table, s.attempt.value, at)
      || Survivors(table, s0.held, s.attempt.value, token, at) == {}
    {
      OpenLog(table, s0.(attempt := None), token, at);
      NotedLog(s.loops, begun.0.loops, Timeout, begun.1);
      NotedLog(s.loops, begun.0.loops, UnrelatedPress, begun.1);
    } else {
      AdvanceLog(table, s0, token, at);
    }
  }

  lemma CancelledLog(order: seq<Trigger>, broken: set<Trigger>, t: Trigger)
    requires forall u :: u in broken ==> u in order
    ensures LoopCancelled(t) in Cancellations(Listed(order, broken)) <==> t in broken
  {
    ListedMeaning(order, broken);
    var triggers := Listed(order, broken);
    if t in broken {
      var i :| 0 <= i < |triggers| && triggers[i] == t;
      assert Cancellations(triggers)[i] == LoopCancelled(t);
    }
  }

  lemma ReleaseLog(table: MotionTable, s: Matcher, token: Token, t: Trigger)
    requires table.Valid() && LoopsOk(table, s.held, s.loops)
    ensures var (s', events) := Release(table, s, token);
      && Triggered(t, true) !in events
      && (LoopCancelled(t) in events <==> t in s.loops && t !in s'.loops)
      && s'.loops <= s.loops
  {
    var broken := set u | u in s.loops && Broken(table, s.held - {token}, u);
    CancelledLog(table.order, broken, t);
  }

  lemma PressMovesLoop(table: MotionTable, s: Matcher, token: Token, at: nat, log: seq<Event>, t: Trigger)
    requires LoopOpen(log, t) <==> t in s.loops
    ensures LoopOpen(log + Press(table, s, token, at).1, t) <==> t in Press(table, s, token, at).0.loops
  {
    var events := Press(table, s, token, at).1;
    PressLog(table, s, token, at);
    LoopOpenAppend(log, events, t);
    if Triggered(t, true) in events {
      assert events[|events| - 1] == Triggered(t, true);
    }
  }

  lemma CancelMovesLoop(events: seq<Event>, before: set<Trigger>, after: set<Trigger>, log: seq<Event>, t: Trigger)
    requires LoopOpen(log, t) <==> t in before
    requires Triggered(t, true) !in events && after <= before
    requires LoopCancelled(t) in events <==> t in before && t !in after
    ensures LoopOpen(log + events, t) <==> t in after
  {
    LoopOpenAppend(log, events, t);
  }

  /** How one input moves loop `t`, read off its events. */
  lemma StepLog(table: MotionTable, s: Matcher, input: Input, log: seq<Event>, t: Trigger)
    requires table.Valid() && LoopsOk(table, s.held, s.loops)
    requires LoopOpen(log, t) <==> t in s.loops
    ensures LoopOpen(log + Step(table, s, input).1, t) <==> t in Step(table, s, input).0.loops
  {
    var (s', events) := Step(table, s, input);
    match input
    case Pressed(token, at) => PressMovesLoop(table, s, token, at, log, t);
    case Released(token) =>
      ReleaseLog(table, s, token, t);
      CancelMovesLoop(events, s.loops, s'.loops, log, t);
    case CancelLoops =>
      CancelledLog(table.order, s.loops, t);
      CancelMovesLoop(events, s.loops, s'.loops, log, t);
  }

  lemma {:induction false} LogOpen(table: MotionTable, h: seq<Input>, t: Trigger)
    requires table.Valid()
    ensures LoopOpen(Log(table, h), t) <==> t in After(table, IDLE, h).loops
  {
    if h != [] {
      var before := h[..|h| - 1];
      LogOpen(table, before, t);
      MatcherInvariant(table, before);
      StepLog(table, After(table, IDLE, before), h[|h| - 1], Log(table, before), t);
    }
  }

  /**
   Over every run, `loop_is_active(t)` holds exactly when the log has a start of `t` that no
   later event cancels.
  */
  lemma ActiveLoopsAreOpen(table: MotionTable, h: seq<Input>, t: Trigger)
    requires table.Valid()
    ensures t in After(table, IDLE, h).loops <==> exists j :: StartedAt(Log(table, h), t, j)
  {
    LogOpen(table, h, t);
    LoopOpenMeaning(Log(table, h), t);
  }

  /** The cancellations of one input name distinct loops that were active before it. */
  lemma CancelsDistinct(table: MotionTable, s: Matcher, input: Input, t: Trigger, i: nat)
    requires table.Valid() && LoopsOk(table, s.held, s.loops)
    requires i < |Step(table, s, input).1| && Step(table, s, input).1[i] == LoopCancelled(t)
    ensures t in s.loops
    ensures LoopCancelled(t) !in Step(table, s, input).1[..i]
    ensures Triggered(t, true) !in Step(table, s, input).1[..i]
  {
    match input
    case Pressed(token, at) =>
      PressLog(table, s, token, at);
      assert false;
    case Released(token) =>
      ListedMeaning(table.order, set u | u in s.loops && Broken(table, s.held - {token}, u));
      ReleaseLog(table, s, token, t);
    case CancelLoops =>
      ListedMeaning(table.order, s.loops);
  }

  lemma OpenBeforeCancel(table: MotionTable, s: Matcher, input: Input, log: seq<Event>, t: Trigger, i: nat)
    requires table.Valid() && LoopsOk(table, s.held, s.loops)
    requires LoopOpen(log, t) <==> t in s.loops
    requires i < |Step(table, s, input).1| && Step(table, s, input).1[i] == LoopCancelled(t)
    ensures LoopOpen(log + Step(table, s, input).1[..i], t)
  {
    CancelsDistinct(table, s, input, t, i);
    LoopOpenAppend(log, Step(table, s, input).1[..i], t);
  }

  /** No loop is cancelled unless it was started since its previous cancellation. */
  lemma {:induction false} CancelsFollowStarts(table: MotionTable, h: seq<Input>, i: nat, t: Trigger) returns (j: nat)
    requires table.Valid()
    requires i < |Log(table, h)| && Log(table, h)[i] == LoopCancelled(t)
    ensures StartedAt(Log(table, h)[..i], t, j)
  {
    hide Step;
    hide LoopsOk;
    var before, input := h[..|h| - 1], h[|h| - 1];
    var log, s := Log(table, before), After(table, IDLE, before);
    if i < |log| {
      j := CancelsFollowStarts(table, before, i, t);
      assert Log(table, h)[..i] == log[..i];
    } else {
      MatcherInvariant(table, before);
      LogOpen(table, before, t);
      OpenBeforeCancel(table, s, input, log, t, i - |log|);
      assert Log(table, h)[..i] == log + Step(table, s, input).1[..i - |log|];
      LoopOpenMeaning(Log(table, h)[..i], t);
      j :| StartedAt(Log(table, h)[..i], t, j);
    }
  }

  // ---- exactly when a loop is active ----

  /** The loop of `t` needs the token: it guards the motion or keeps the loop. */
  predicate Needs(table: MotionTable, t: Trigger, token: Token)
    requires t in table.motions
  {
    var motion := table.motions[t];
    token in motion.requiresHeld || (motion.loopDefinition.Some? && token in motion.loopDefinition.value.whileHeld)
  }

  /** A release ends exactly the active loops that need the token. */
  lemma {:induction false} ReleaseEndsIff(table: MotionTable, h: seq<Input>, token: Token, t: Trigger)
    requires table.Valid()
    ensures t in After(table, IDLE, h + [Released(token)]).loops <==>
      t in After(table, IDLE, h).loops && t in table.motions && !Needs(table, t, token)
  {
    MatcherInvariant(table, h);
    AfterSnoc(table, IDLE, h, Released(token));
  }

  /** The input ends loop `t` if it is active: it releases a token the loop needs, or ends all loops. */
  predicate Ends(table: MotionTable, input: Input, t: Trigger)
    requires t in table.motions
  {
    match input
    case Pressed(_, _) => false
    case Released(token) => Needs(table, t, token)
    case CancelLoops => true
  }

  /** Input `j` started loop `t`, and no input since ended it. */
  ghost predicate StartedAndKept(table: MotionTable, h: seq<Input>, t: Trigger, j: int) {
    && 0 <= j < |h| && t in table.motions
    && Triggered(t, true) in EventsAt(table, IDLE, h, j)
    && forall k :: j < k < |h| ==> !Ends(table, h[k], t)
  }

  lemma StepLoops(table: MotionTable, h: seq<Input>, input: Input, t: Trigger)
    requires table.Valid()
    ensures var (s, s') := (After(table, IDLE, h), After(table, IDLE, h + [input]));
      var started := Triggered(t, true) in Step(table, s, input).1;
      && (t in s'.loops ==> t in table.motions)
      && (t in table.motions ==> (t in s'.loops <==> started || (t in s.loops && !Ends(table, input, t))))
      && (started ==> input.Pressed?)
  {
    var s := After(table, IDLE, h);
    MatcherInvariant(table, h);
    MatcherInvariant(table, h + [input]);
    AfterSnoc(table, IDLE, h, input);
    match input
    case Pressed(token, at) => PressLog(table, s, token, at);
    case Released(token) =>
      ReleaseLog(table, s, token, t);
      ReleaseEndsIff(table, h, token, t);
    case CancelLoops =>
  }

  /**
   Over every run, a loop is active exactly when some input started it and since then no token it needs
   was released and the loops were not ended.
  */
  lemma {:induction false} LoopActiveIff(table: MotionTable, h: seq<Input>, t: Trigger)
    requires table.Valid()
    ensures t in After(table, IDLE, h).loops <==> exists j :: StartedAndKept(table, h, t, j)
  {
    hide Step;
    hide Ends;
    if h != [] {
      var before, input := h[..|h| - 1], h[|h| - 1];
      assert h == before + [input];
      LoopActiveIff(table, before, t);
      StepLoops(table, before, input, t);
      assert EventsAt(table, IDLE, h, |before|) == Step(table, After(table, IDLE, before), input).1;
      if t in After(table, IDLE, h).loops {
        if Triggered(t, true) in EventsAt(table, IDLE, h, |before|) {
          assert StartedAndKept(table, h, t, |before|);
        } else {
          var j :| StartedAndKept(table, before, t, j);
          assert h[..j] == before[..j] && h[j] == before[j];
          assert StartedAndKept(table, h, t, j);
        }
      }
      if j :| StartedAndKept(table, h, t, j) && j < |before| {
        assert h[..j] == before[..j] && h[j] == before[j];
        assert StartedAndKept(table, before, t, j);
      }
    }
  }

  /**
   A release discards the open attempt exactly when it releases a token that guards one of the
   attempt's candidates; otherwise the attempt goes on as it was.
  */
  lemma {:induction false} ReleaseDiscardsIff(table: MotionTable, h: seq<Input>, token: Token)
    requires table.Valid() && After(table, IDLE, h).attempt.Some?
    ensures var a, h' := After(table, IDLE, h).attempt, h + [Released(token)];
      var guards := exists u :: u in a.value.candidates && u in table.motions && token in table.motions[u].requiresHeld;
      && After(table, IDLE, h').attempt == (if guards then None else a)
      && (guards <==> Discarded(PreconditionReleased) in EventsAt(table, IDLE, h', |h|))
      && Discards(EventsAt(table, IDLE, h', |h|)) == if guards then 1 else 0
  {
    var s := After(table, IDLE, h);
    AfterSnoc(table, IDLE, h, Released(token));
    if u :| u in s.attempt.value.candidates && u in table.motions && token in table.motions[u].requiresHeld {
      assert GuardedBy(table, u, token);
    }
    ReleaseBalance(table, s, token);
  }

  // ---- attempts ----

  function Discards(events: seq<Event>): nat {
    if events == [] then 0
    else Discards(events[..|events| - 1]) + if events[|events| - 1].Discarded? then 1 else 0
  }

  /** Triggers of two tokens or more; a one-token trigger never opens an attempt. */
  function MultiTriggers(events: seq<Event>): nat {
    if events == [] then 0
    else
      var last := events[|events| - 1];
      MultiTriggers(events[..|events| - 1]) + if last.Triggered? && |last.trigger| > 1 then 1 else 0
  }

  /** Does this input open an attempt? A continued attempt has progress 2 or more. */
  function Opens(input: Input, s': Matcher): nat {
    if input.Pressed? && s'.attempt.Some? && s'.attempt.value.progress == 1 then 1 else 0
  }

  function OpenCount(s: Matcher): nat { if s.attempt.Some? then 1 else 0 }

  function Opened(table: MotionTable, h: seq<Input>): nat {
    if h == [] then 0
    else Opened(table, h[..|h| - 1]) + Opens(h[|h| - 1], After(table, IDLE, h))
  }

  lemma {:induction false} TalliesAppend(a: seq<Event>, b: seq<Event>)
    ensures Discards(a + b) == Discards(a) + Discards(b)
    ensures MultiTriggers(a + b) == MultiTriggers(a) + MultiTriggers(b)
  {
    if b == [] {
      assert a + b == a;
    } else {
      TalliesAppend(a, b[..|b| - 1]);
      assert (a + b)[..|a + b| - 1] == a + b[..|b| - 1];
    }
  }

  lemma {:induction false} NoTallies(events: seq<Event>)
    requires forall e :: e in events ==> e.LoopCancelled?
    ensures Discards(events) == MultiTriggers(events) == 0
  {
    if events != [] {
      assert events[|events| - 1] in events;
      assert forall e :: e in events[..|events| - 1] ==> e in events;
      NoTallies(events[..|events| - 1]);
    }
  }

  lemma OpenBalance(table: MotionTable, s: Matcher, token: Token, at: nat)
    requires table.Valid() && s.attempt.None?
    ensures var (s', events) := Open(table, s, token, at);
      && Discards(events) == MultiTriggers(events) == 0
      && OpenCount(s') == Opens(Pressed(token, at), s')
  {
    FirstOfLengthMeaning(table.order, Openers(table, s.held, token), 1);
  }

  lemma AdvanceBalance(table: MotionTable, s: Matcher, token: Token, at: nat)
    requires table.Valid() && s.attempt.Some? && s.attempt.value.progress >= 1
    requires Survivors(table, s.held, s.attempt.value, token, at) != {}
    ensures var (s', events) := Advance(table, s, token, at);
      && Opens(Pressed(token, at), s') == 0
      && MultiTriggers(events) + Discards(events) + OpenCount(s') == 1
  {
    var a := s.attempt.value;
    FirstOfLengthMeaning(table.order, Survivors(table, s.held, a, token, at), a.progress + 1);
  }

  lemma NotedBalance(reason: DiscardReason, events: seq<Event>)
    ensures Discards([Discarded(reason)] + events) == 1 + Discards(events)
    ensures MultiTriggers([Discarded(reason)] + events) == MultiTriggers(events)
  {
    TalliesAppend([Discarded(reason)], events);
    assert [Discarded(reason)][..0] == [];
  }

  lemma PressBalance(table: MotionTable, s: Matcher, token: Token, at: nat)
    requires table.Valid() && MatcherInv(table, s)
    ensures var (s', events) := Press(table, s, token, at);
      OpenCount(s) + Opens(Pressed(token, at), s') == MultiTriggers(events) + Discards(events) + OpenCount(s')
  {
    var s0 := s.(held := s.held + {token});
    var begun := Open(table, s0.(attempt := None), token, at);
    if s.attempt.None? || Expired(table, s.attempt.value, at)
      || Survivors(table, s0.held, s.attempt.value, token, at) == {}
    {
      OpenBalance(table, s0.(attempt := None), token, at);
      NotedBalance(Timeout, begun.1);
      NotedBalance(UnrelatedPress, begun.1);
    } else {
      AdvanceBalance(table, s0, token, at);
    }
  }

  lemma ReleaseBalance(table: MotionTable, s: Matcher, token: Token)
    ensures var (s', events) := Release(table, s, token);
      MultiTriggers(events) == 0 && OpenCount(s) == Discards(events) + OpenCount(s')
  {
    var broken := set t | t in s.loops && Broken(table, s.held - {token}, t);
    var cancels := Cancellations(Listed(table.order, broken));
    NoTallies(cancels);
    NotedBalance(PreconditionReleased, cancels);
    assert [] + cancels == cancels;
  }

  lemma StepBalance(table: MotionTable, s: Matcher, input: Input)
    requires table.Valid() && MatcherInv(table, s)
    ensures var (s', events) := Step(table, s, input);
      OpenCount(s) + Opens(input, s') == MultiTriggers(events) + Discards(events) + OpenCount(s')
  {
    match input
    case Pressed(token, at) => PressBalance(table, s, token, at);
    case Released(token) => ReleaseBalance(table, s, token);
    case CancelLoops => NoTallies(Cancellations(Listed(table.order, s.loops)));
  }

  /** Over every run, each attempt opened was closed by one trigger or one discard, or is still open. */
  lemma {:induction false} AttemptsBalance(table: MotionTable, h: seq<Input>)
    requires table.Valid()
    ensures Opened(table, h) ==
      MultiTriggers(Log(table, h)) + Discards(Log(table, h)) + OpenCount(After(table, IDLE, h))
  {
    if h != [] {
      var before := h[..|h| - 1];
      AttemptsBalance(table, before);
      MatcherInvariant(table, before);
      StepBalance(table, After(table, IDLE, before), h[|h| - 1]);
      TalliesAppend(Log(table, before), EventsAt(table, IDLE, h, |h| - 1));
    }
  }
}

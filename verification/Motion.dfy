/**
 The motion matcher (crates/signal-auras-core/src/motion.rs): it recognises timed
 token sequences with held guards, and starts and cancels held loops.

 Event times are natural numbers of nanoseconds.
*/
module Motion {
  import opened Wrappers
  import opened MacroPlan

  datatype WheelDirection = Up | Down

  datatype Token =
    | Leader
    | Key(name: string)
    | Button(button: MouseButton)
    | Wheel(direction: WheelDirection)

  /** A trigger has at least one token. */
  type Trigger = tokens: seq<Token> | tokens != [] witness [Leader]

  datatype BindingMode = Consume | Passthrough

  datatype LoopBody = Once(body: Macro) | Repeat(everyMs: nat, tick: Macro)

  datatype LoopDefinition = LoopDefinition(
    whileHeld: Trigger,
    before: Option<Macro>,
    body: LoopBody,
    after: Option<Macro>)

  datatype MotionDefinition = MotionDefinition(
    requiresHeld: seq<Token>,
    trigger: Trigger,
    mode: BindingMode,
    macroDefinition: Option<Macro>,
    loopDefinition: Option<LoopDefinition>,
    withinMs: nat,
    interActionDelayMs: nat)
  {
    function Window(): nat { Millis(withinMs) }
  }

  /**
   The configured motions, keyed by trigger. `order` is the order in which the keyed
   collection is walked; nothing below depends on which order it is.
  */
  datatype MotionTable = MotionTable(motions: map<Trigger, MotionDefinition>, order: seq<Trigger>) {
    ghost predicate Valid() {
      && (forall t :: t in motions ==> motions[t].trigger == t)
      && (forall t :: t in order <==> t in motions)
      && (forall i, j :: 0 <= i < j < |order| ==> order[i] != order[j])
    }
  }

  datatype DiscardReason = Timeout | UnrelatedPress | PreconditionReleased

  datatype Event =
    | Triggered(trigger: Trigger, startsLoop: bool)
    | LoopCancelled(loop: Trigger)
    | Discarded(reason: DiscardReason)

  datatype Attempt = Attempt(startedAt: nat, progress: nat, candidates: set<Trigger>)

  /** The mutable part of the runtime as one value. */
  datatype Matcher = Matcher(held: set<Token>, attempt: Option<Attempt>, loops: set<Trigger>)

  const IDLE: Matcher := Matcher({}, None, {})

  // ---- what one event does ----

  predicate AllHeld(tokens: seq<Token>, held: set<Token>) {
    forall token :: token in tokens ==> token in held
  }

  predicate Expired(table: MotionTable, a: Attempt, at: nat) {
    forall t :: t in a.candidates ==>
      t !in table.motions || SatSub(at, a.startedAt) > table.motions[t].Window()
  }

  /** The candidates that survive one more press. */
  function Survivors(table: MotionTable, held: set<Token>, a: Attempt, token: Token, at: nat): set<Trigger> {
    set t | t in a.candidates
      && a.progress < |t| && t[a.progress] == token
      && t in table.motions
      && SatSub(at, a.startedAt) <= table.motions[t].Window()
      && AllHeld(table.motions[t].requiresHeld, held)
  }

  /** The motions that a press can begin. */
  function Openers(table: MotionTable, held: set<Token>, token: Token): set<Trigger> {
    set t | t in table.motions && t[0] == token && AllHeld(table.motions[t].requiresHeld, held)
  }

  /** The first trigger of length `n` in `candidates`, in the order of `order`. */
  function FirstOfLength(order: seq<Trigger>, candidates: set<Trigger>, n: nat): Option<Trigger> {
    if order == [] then None
    else if order[0] in candidates && |order[0]| == n then Some(order[0])
    else FirstOfLength(order[1..], candidates, n)
  }

  predicate StartsLoop(table: MotionTable, held: set<Token>, t: Trigger)
    requires t in table.motions
  {
    var motion := table.motions[t];
    motion.loopDefinition.Some? && AllHeld(motion.loopDefinition.value.whileHeld, held)
  }

  /** `trigger_event`: report the trigger and start its loop when the held tokens allow it. */
  function Fire(table: MotionTable, s: Matcher, t: Trigger): (Matcher, seq<Event>) {
    if t !in table.motions then (s, [])
    else
      var starts := StartsLoop(table, s.held, t);
      (if starts then s.(loops := s.loops + {t}) else s, [Triggered(t, starts)])
  }

  /** The tail of `handle_press`: no attempt is open, so the token can only begin one. */
  function Open(table: MotionTable, s: Matcher, token: Token, at: nat): (Matcher, seq<Event>) {
    var candidates := Openers(table, s.held, token);
    if candidates == {} then (s, [])
    else
      match FirstOfLength(table.order, candidates, 1)
      case Some(t) => Fire(table, s, t)
      case None => (s.(attempt := Some(Attempt(at, 1, candidates))), [])
  }

  function Advance(table: MotionTable, s: Matcher, token: Token, at: nat): (Matcher, seq<Event>)
    requires s.attempt.Some?
  {
    var a := s.attempt.value;
    var survivors := Survivors(table, s.held, a, token, at);
    if survivors == {} then
      var (s', events) := Open(table, s.(attempt := None), token, at);
      (s', [Discarded(UnrelatedPress)] + events)
    else
      match FirstOfLength(table.order, survivors, a.progress + 1)
      case Some(t) => Fire(table, s.(attempt := None), t)
      case None => (s.(attempt := Some(Attempt(a.startedAt, a.progress + 1, survivors))), [])
  }

  function Press(table: MotionTable, s: Matcher, token: Token, at: nat): (Matcher, seq<Event>) {
    var s0 := s.(held := s.held + {token});
    if s.attempt.None? then Open(table, s0, token, at)
    else if Expired(table, s.attempt.value, at) then
      var (s', events) := Open(table, s0.(attempt := None), token, at);
      (s', [Discarded(Timeout)] + events)
    else Advance(table, s0, token, at)
  }

  predicate GuardedBy(table: MotionTable, t: Trigger, token: Token) {
    t in table.motions && token in table.motions[t].requiresHeld
  }

  /** Does an active loop lose a token it needs? */
  predicate Broken(table: MotionTable, held: set<Token>, t: Trigger) {
    t in table.motions
    && var motion := table.motions[t];
       || (motion.loopDefinition.Some? && !AllHeld(motion.loopDefinition.value.whileHeld, held))
       || !AllHeld(motion.requiresHeld, held)
  }

  function Listed(order: seq<Trigger>, chosen: set<Trigger>): (r: seq<Trigger>)
  {
    if order == [] then []
    else (if order[0] in chosen then [order[0]] else []) + Listed(order[1..], chosen)
  }

  function Cancellations(triggers: seq<Trigger>): (r: seq<Event>)
    ensures |r| == |triggers|
    ensures forall i :: 0 <= i < |r| ==> r[i] == LoopCancelled(triggers[i])
  {
    seq(|triggers|, i requires 0 <= i < |triggers| => LoopCancelled(triggers[i]))
  }

  function Release(table: MotionTable, s: Matcher, token: Token): (Matcher, seq<Event>) {
    var held := s.held - {token};
    var dropped := s.attempt.Some? && exists t :: t in s.attempt.value.candidates && GuardedBy(table, t, token);
    var broken := set t | t in s.loops && Broken(table, held, t);
    (Matcher(held, if dropped then None else s.attempt, s.loops - broken),
     (if dropped then [Discarded(PreconditionReleased)] else []) + Cancellations(Listed(table.order, broken)))
  }

  /** Collect the motions by trigger; a later definition replaces an earlier one. */
  function Collected(motions: seq<MotionDefinition>): map<Trigger, MotionDefinition> {
    if motions == [] then map[]
    else
      var last := motions[|motions| - 1];
      Collected(motions[..|motions| - 1])[last.trigger := last]
  }

  /** Each of the triggers once, in some order. */
  ghost predicate Enumerates(order: seq<Trigger>, triggers: set<Trigger>) {
    && (forall t :: t in order <==> t in triggers)
    && forall i, j :: 0 <= i < j < |order| ==> order[i] != order[j]
  }

  /** `motions[i]` is the last definition of `t`. */
  ghost predicate LastFor(motions: seq<MotionDefinition>, i: int, t: Trigger) {
    && 0 <= i < |motions| && motions[i].trigger == t
    && forall j :: i < j < |motions| ==> motions[j].trigger != t
  }

  lemma {:induction false} CollectedMeaning(motions: seq<MotionDefinition>)
    ensures forall t :: t in Collected(motions) <==> exists i :: LastFor(motions, i, t)
    ensures forall i, t :: LastFor(motions, i, t) ==> t in Collected(motions) && Collected(motions)[t] == motions[i]
  {
    if motions != [] {
      var before, last := motions[..|motions| - 1], motions[|motions| - 1];
      CollectedMeaning(before);
      assert LastFor(motions, |before|, last.trigger);
      forall i, t | t != last.trigger ensures LastFor(motions, i, t) <==> LastFor(before, i, t) {
      }
      forall t | t in Collected(motions) ensures exists i :: LastFor(motions, i, t) {
        if t != last.trigger {
          var i :| LastFor(before, i, t);
          assert LastFor(motions, i, t);
        }
      }
    }
  }

  /** The runtime: the fields and methods of `MotionRuntime`. */
  class MotionRuntime {
    const table: MotionTable
    var activeAttempt: Option<Attempt>
    var held: set<Token>
    var activeLoops: set<Trigger>

    ghost predicate Valid()
      reads this
    {
      table.Valid() && (forall t :: t in activeLoops ==> t in table.motions)
    }

    function State(): Matcher
      reads this
    {
      Matcher(held, activeAttempt, activeLoops)
    }

    /** The motions keyed by trigger; `order` is the order in which the keyed collection is walked. */
    constructor (motions: seq<MotionDefinition>, order: seq<Trigger>)
      requires Enumerates(order, Collected(motions).Keys)
      ensures Valid() && State() == IDLE
      ensures table == MotionTable(Collected(motions), order)
      ensures forall t :: t in table.motions <==> exists i :: LastFor(motions, i, t)
      ensures forall i, t :: LastFor(motions, i, t) ==> t in table.motions && table.motions[t] == motions[i]
    {
      CollectedMeaning(motions);
      table := MotionTable(Collected(motions), order);
      activeAttempt := None;
      held := {};
      activeLoops := {};
    }

    method LoopIsActive(trigger: Trigger) returns (active: bool)
      ensures active <==> trigger in State().loops
    {
      active := trigger in activeLoops;
    }

    method HeldSatisfies(condition: seq<Token>) returns (satisfied: bool)
      ensures satisfied <==> AllHeld(condition, State().held)
    {
      satisfied := AllHeld(condition, held);
    }

    method CancelActiveLoops() returns (cancelled: seq<Trigger>)
      requires Valid()
      modifies this`activeLoops
      ensures Valid()
      ensures State() == old(State()).(loops := {})
      ensures cancelled == Listed(table.order, old(activeLoops))
    {
      cancelled := Listed(table.order, activeLoops);
      activeLoops := {};
    }

    method TriggerEvent(trigger: Trigger) returns (event: Option<Event>)
      requires Valid()
      modifies this`activeLoops
      ensures Valid()
      ensures State() == Fire(table, old(State()), trigger).0
      ensures (if event.Some? then [event.value] else []) == Fire(table, old(State()), trigger).1
    {
      if trigger !in table.motions {
        return None;
      }
      var motion := table.motions[trigger];
      var startsLoop := false;
      if motion.loopDefinition.Some? {
        startsLoop := AllHeld(motion.loopDefinition.value.whileHeld, held);
      }
      if startsLoop {
        activeLoops := activeLoops + {trigger};
      }
      event := Some(Triggered(trigger, startsLoop));
    }

    method ActiveAttemptExpired(at: nat) returns (expired: bool)
      ensures expired <==> activeAttempt.Some? && Expired(table, activeAttempt.value, at)
    {
      if activeAttempt.None? {
        return false;
      }
      expired := Expired(table, activeAttempt.value, at);
    }

    /** The last part of `handle_press`: begin an attempt, or fire a one-token trigger. */
    method OpenAttempt(token: Token, at: nat) returns (events: seq<Event>)
      requires Valid() && activeAttempt.None?
      modifies this`activeAttempt, this`activeLoops
      ensures Valid()
      ensures (State(), events) == Open(table, old(State()), token, at)
    {
      events := [];
      var candidates := Openers(table, held, token);
      if candidates == {} {
        return;
      }
      var single := FirstOfLength(table.order, candidates, 1);
      if single.Some? {
        var event := TriggerEvent(single.value);
        events := if event.Some? then [event.value] else [];
        return;
      }
      activeAttempt := Some(Attempt(at, 1, candidates));
    }

    method HandlePress(token: Token, at: nat) returns (events: seq<Event>)
      requires Valid()
      modifies this
      ensures Valid()
      ensures (State(), events) == Press(table, old(State()), token, at)
    {
      held := held + {token};
      events := [];
      var expired := ActiveAttemptExpired(at);
      if expired {
        activeAttempt := None;
        events := [Discarded(Timeout)];
      }
      if activeAttempt.Some? {
        var attempt := activeAttempt.value;
        var candidates := Survivors(table, held, attempt, token, at);
        if candidates == {} {
          activeAttempt := None;
          events := [Discarded(UnrelatedPress)];
        } else {
          activeAttempt := Some(Attempt(attempt.startedAt, attempt.progress + 1, candidates));
          var completed := FirstOfLength(table.order, candidates, attempt.progress + 1);
          if completed.Some? {
            activeAttempt := None;
            var event := TriggerEvent(completed.value);
            events := if event.Some? then [event.value] else [];
          }
          return;
        }
      }
      assert State() == old(State()).(held := held, attempt := None);
      var begun := OpenAttempt(token, at);
      events := events + begun;
      assert old(activeAttempt).None? ==> events == begun;
    }

    method HandleRelease(token: Token) returns (events: seq<Event>)
      requires Valid()
      modifies this
      ensures Valid()
      ensures (State(), events) == Release(table, old(State()), token)
    {
      held := held - {token};
      events := [];
      ghost var spec := Release(table, old(State()), token);
      if activeAttempt.Some? && exists t :: t in activeAttempt.value.candidates && GuardedBy(table, t, token) {
        activeAttempt := None;
        events := events + [Discarded(PreconditionReleased)];
      }
      var broken := set t | t in activeLoops && Broken(table, held, t);
      var cancelled := Listed(table.order, broken);
      activeLoops := activeLoops - broken;
      events := events + Cancellations(cancelled);
      assert broken == set t | t in old(activeLoops) && Broken(table, held, t);
      assert State() == spec.0;
      assert events == spec.1;
    }
  }
}

/**
 Runs of the motion matcher: what every reachable state keeps, and what an emitted
 trigger says about the inputs before it.
*/
module MotionRuns {
  import opened Wrappers
  import opened Motion

  /** One call on the runtime: a press, a release, or `cancel_active_loops`. */
  datatype Input =
    | Pressed(token: Token, at: nat)
    | Released(token: Token)
    | CancelLoops

  function Step(table: MotionTable, s: Matcher, input: Input): (Matcher, seq<Event>) {
    match input
    case Pressed(token, at) => Press(table, s, token, at)
    case Released(token) => Release(table, s, token)
    case CancelLoops => (s.(loops := {}), Cancellations(Listed(table.order, s.loops)))
  }

  /** The state after the inputs `h`, from `s`. */
  function After(table: MotionTable, s: Matcher, h: seq<Input>): Matcher {
    if h == [] then s else Step(table, After(table, s, h[..|h| - 1]), h[|h| - 1]).0
  }

  /** The events of input number `k`. */
  function EventsAt(table: MotionTable, s: Matcher, h: seq<Input>, k: nat): seq<Event>
    requires k < |h|
  {
    Step(table, After(table, s, h[..k]), h[k]).1
  }

  /** The tokens pressed in `h`, in order; releases do not count. */
  function PressedTokens(h: seq<Input>): seq<Token> {
    if h == [] then []
    else
      var before := PressedTokens(h[..|h| - 1]);
      match h[|h| - 1]
      case Pressed(token, _) => before + [token]
      case _ => before
  }

  predicate NoReleaseOf(h: seq<Input>, tokens: seq<Token>) {
    forall k :: 0 <= k < |h| ==> h[k].Released? ==> h[k].token !in tokens
  }

  lemma FirstOfLengthMeaning(order: seq<Trigger>, candidates: set<Trigger>, n: nat)
    ensures var r := FirstOfLength(order, candidates, n);
      && (r.Some? ==> r.value in candidates && r.value in order && |r.value| == n)
      && (r.None? ==> forall t :: t in order && t in candidates ==> |t| != n)
  {
    if order != [] {
      FirstOfLengthMeaning(order[1..], candidates, n);
      assert forall t :: t in order ==> t == order[0] || t in order[1..];
    }
  }

  lemma ListedMeaning(order: seq<Trigger>, chosen: set<Trigger>)
    ensures forall t :: t in Listed(order, chosen) <==> t in order && t in chosen
    ensures (forall i, j :: 0 <= i < j < |order| ==> order[i] != order[j]) ==>
      forall i, j :: 0 <= i < j < |Listed(order, chosen)| ==> Listed(order, chosen)[i] != Listed(order, chosen)[j]
  {
    if order != [] {
      ListedMeaning(order[1..], chosen);
      assert forall t :: t in order ==> t == order[0] || t in order[1..];
    }
  }

  // ---- the invariant of every reachable state ----

  predicate StartsWith(t: Trigger, tokens: seq<Token>) {
    |tokens| <= |t| && t[..|tokens|] == tokens
  }

  /** Every candidate is configured, begins with `tokens`, needs more, and has its guard held. */
  ghost predicate CandidatesOk(table: MotionTable, held: set<Token>, candidates: set<Trigger>, tokens: seq<Token>) {
    forall t :: t in candidates ==>
      && t in table.motions
      && StartsWith(t, tokens)
      && |tokens| < |t|
      && AllHeld(table.motions[t].requiresHeld, held)
  }

  /** Every active loop is a configured loop motion and every token it needs is held. */
  ghost predicate LoopsOk(table: MotionTable, held: set<Token>, loops: set<Trigger>) {
    forall t :: t in loops ==>
      && t in table.motions
      && table.motions[t].loopDefinition.Some?
      && AllHeld(table.motions[t].requiresHeld, held)
      && AllHeld(table.motions[t].loopDefinition.value.whileHeld, held)
  }

  /**
   The guard of `t` was held right after the press `h[b]`, and none of its tokens was
   released since.
  */
  ghost predicate GuardKept(table: MotionTable, h: seq<Input>, b: nat, t: Trigger) {
    && b < |h|
    && t in table.motions
    && AllHeld(table.motions[t].requiresHeld, After(table, IDLE, h[..b + 1]).held)
    && NoReleaseOf(h[b + 1..], table.motions[t].requiresHeld)
  }

  /** The open attempt `a` began with the press `h[b]` and matched every press since. */
  ghost predicate BeganAt(table: MotionTable, h: seq<Input>, held: set<Token>, a: Attempt, b: nat) {
    && b < |h|
    && h[b].Pressed? && h[b].at == a.startedAt
    && a.progress == |PressedTokens(h[b..])| >= 1
    && a.candidates != {}
    && CandidatesOk(table, held, a.candidates, PressedTokens(h[b..]))
    && (forall t :: t in a.candidates ==> GuardKept(table, h, b, t))
  }

  /**
   What a trigger event says about the past: for some press `h[b]`, the presses from it to
   the last input spell `t`, inside the window, with the guard of `t` kept throughout.
  */
  ghost predicate Performed(table: MotionTable, h: seq<Input>, b: nat, t: Trigger) {
    && b < |h|
    && h[b].Pressed? && h[|h| - 1].Pressed?
    && PressedTokens(h[b..]) == t
    && GuardKept(table, h, b, t)
    && SatSub(h[|h| - 1].at, h[b].at) <= table.motions[t].Window()
  }

  ghost predicate HistoryInv(table: MotionTable, h: seq<Input>, s: Matcher, b: nat) {
    && (s.attempt.Some? ==> BeganAt(table, h, s.held, s.attempt.value, b))
    && LoopsOk(table, s.held, s.loops)
  }

  /** The one trigger among the events of an input, if any, was performed. */
  ghost predicate TriggersPerformed(table: MotionTable, h: seq<Input>, events: seq<Event>, b: nat, held: set<Token>) {
    forall e :: e in events && e.Triggered? ==>
      && Performed(table, h, b, e.trigger)
      && AllHeld(table.motions[e.trigger].requiresHeld, held)
      && (e.startsLoop <==> StartsLoop(table, held, e.trigger))
  }

  lemma LastToken(h: seq<Input>, input: Input, b: nat)
    requires b <= |h|
    ensures (h + [input])[b..] == h[b..] + [input]
    ensures PressedTokens((h + [input])[b..]) ==
      PressedTokens(h[b..]) + if input.Pressed? then [input.token] else []
  {
    assert (h + [input])[b..] == h[b..] + [input];
    assert (h[b..] + [input])[..|h| - b] == h[b..];
  }

  lemma GuardKeptExtends(table: MotionTable, h: seq<Input>, input: Input, b: nat, t: Trigger)
    requires GuardKept(table, h, b, t)
    requires input.Released? ==> input.token !in table.motions[t].requiresHeld
    ensures GuardKept(table, h + [input], b, t)
  {
    assert (h + [input])[..b + 1] == h[..b + 1];
    assert (h + [input])[b + 1..] == h[b + 1..] + [input];
  }

  /** The first press of a trigger: it matches `t` so far, and the guard is held now. */
  lemma OpenerKept(table: MotionTable, h: seq<Input>, token: Token, at: nat, t: Trigger)
    requires t in table.motions && t[0] == token
    requires AllHeld(table.motions[t].requiresHeld, After(table, IDLE, h).held + {token})
    ensures var h' := h + [Pressed(token, at)];
      && GuardKept(table, h', |h|, t)
      && PressedTokens(h'[|h|..]) == [token]
      && StartsWith(t, [token])
      && After(table, IDLE, h').held == After(table, IDLE, h).held + {token}
  {
    var h' := h + [Pressed(token, at)];
    AfterSnoc(table, IDLE, h, Pressed(token, at));
    PressHeld(table, After(table, IDLE, h), token, at);
    assert h'[..|h| + 1] == h';
    assert h'[|h| + 1..] == [];
    LastToken(h, Pressed(token, at), |h|);
    assert PressedTokens(h[|h|..]) == [];
    assert t[..1] == [token];
  }

  lemma AfterSnoc(table: MotionTable, s: Matcher, h: seq<Input>, input: Input)
    ensures After(table, s, h + [input]) == Step(table, After(table, s, h), input).0
    ensures EventsAt(table, s, h + [input], |h|) == Step(table, After(table, s, h), input).1
  {
    assert (h + [input])[..|h|] == h;
  }

  lemma PressHeld(table: MotionTable, s: Matcher, token: Token, at: nat)
    ensures Press(table, s, token, at).0.held == s.held + {token}
  {
  }

  // ---- one press, seen from the history ----

  lemma FireStep(table: MotionTable, h: seq<Input>, s: Matcher, b: nat, t: Trigger)
    requires s.attempt.None? && LoopsOk(table, s.held, s.loops)
    requires Performed(table, h, b, t) && AllHeld(table.motions[t].requiresHeld, s.held)
    ensures var (s', events) := Fire(table, s, t);
      && HistoryInv(table, h, s', b)
      && TriggersPerformed(table, h, events, b, s'.held)
  {
  }

  lemma OpenStep(table: MotionTable, h: seq<Input>, s: Matcher, token: Token, at: nat)
    requires table.Valid() && s.attempt.None? && LoopsOk(table, s.held, s.loops)
    requires s.held == After(table, IDLE, h).held + {token}
    ensures var h' := h + [Pressed(token, at)]; var (s', events) := Open(table, s, token, at);
      && HistoryInv(table, h', s', |h|)
      && TriggersPerformed(table, h', events, |h|, s'.held)
  {
    var candidates := Openers(table, s.held, token);
    forall t | t in candidates ensures GuardKept(table, h + [Pressed(token, at)], |h|, t) {
      OpenerKept(table, h, token, at, t);
    }
    if candidates != {} {
      var h' := h + [Pressed(token, at)];
      var some :| some in candidates;
      OpenerKept(table, h, token, at, some);
      FirstOfLengthMeaning(table.order, candidates, 1);
      match FirstOfLength(table.order, candidates, 1)
      case Some(t) => assert t == [token];
      case None =>
        forall t | t in candidates ensures StartsWith(t, [token]) && |t| > 1 {
          OpenerKept(table, h, token, at, t);
        }
    }
  }

  lemma SurvivorKept(table: MotionTable, h: seq<Input>, s: Matcher, token: Token, at: nat, b: nat, t: Trigger)
    requires s.attempt.Some? && BeganAt(table, h, s.held, s.attempt.value, b)
    requires t in Survivors(table, s.held, s.attempt.value, token, at)
    ensures StartsWith(t, PressedTokens(h[b..]) + [token])
    ensures GuardKept(table, h + [Pressed(token, at)], b, t)
  {
    var n := s.attempt.value.progress;
    assert t[..n + 1] == t[..n] + [t[n]];
    GuardKeptExtends(table, h, Pressed(token, at), b, t);
  }

  lemma AdvanceFires(table: MotionTable, h: seq<Input>, s: Matcher, token: Token, at: nat, b: nat, t: Trigger)
    requires table.Valid() && s.attempt.Some? && BeganAt(table, h, s.held, s.attempt.value, b)
    requires t in Survivors(table, s.held, s.attempt.value, token, at) && |t| == s.attempt.value.progress + 1
    ensures Performed(table, h + [Pressed(token, at)], b, t)
    ensures AllHeld(table.motions[t].requiresHeld, s.held)
  {
    var tokens := PressedTokens(h[b..]) + [token];
    LastToken(h, Pressed(token, at), b);
    SurvivorKept(table, h, s, token, at, b, t);
    assert t == t[..|tokens|] == tokens;
  }

  lemma AdvanceContinues(table: MotionTable, h: seq<Input>, s: Matcher, token: Token, at: nat, b: nat)
    requires table.Valid() && s.attempt.Some? && BeganAt(table, h, s.held, s.attempt.value, b)
    requires var survivors := Survivors(table, s.held, s.attempt.value, token, at);
      survivors != {} && forall t :: t in survivors ==> |t| != s.attempt.value.progress + 1
    ensures var a := s.attempt.value;
      BeganAt(table, h + [Pressed(token, at)], s.held,
              Attempt(a.startedAt, a.progress + 1, Survivors(table, s.held, a, token, at)), b)
  {
    var h' := h + [Pressed(token, at)];
    LastToken(h, Pressed(token, at), b);
    var tokens := PressedTokens(h[b..]) + [token];
    forall t | t in Survivors(table, s.held, s.attempt.value, token, at)
      ensures StartsWith(t, tokens) && |tokens| < |t| && GuardKept(table, h', b, t)
    {
      SurvivorKept(table, h, s, token, at, b, t);
    }
  }

  lemma AdvanceCases(table: MotionTable, s: Matcher, token: Token, at: nat)
    requires table.Valid() && s.attempt.Some?
    requires Survivors(table, s.held, s.attempt.value, token, at) != {}
    ensures var a := s.attempt.value;
      var survivors := Survivors(table, s.held, a, token, at);
      match FirstOfLength(table.order, survivors, a.progress + 1)
      case Some(t) =>
        && t in survivors && |t| == a.progress + 1
        && Advance(table, s, token, at) == Fire(table, s.(attempt := None), t)
      case None =>
        && (forall t :: t in survivors ==> |t| != a.progress + 1)
        && Advance(table, s, token, at) == (s.(attempt := Some(Attempt(a.startedAt, a.progress + 1, survivors))), [])
  {
    var a := s.attempt.value;
    var survivors := Survivors(table, s.held, a, token, at);
    FirstOfLengthMeaning(table.order, survivors, a.progress + 1);
    forall t | t in survivors ensures t in table.order {
    }
  }

  lemma AdvanceStep(table: MotionTable, h: seq<Input>, s: Matcher, token: Token, at: nat, b: nat)
    requires table.Valid() && s.attempt.Some? && HistoryInv(table, h, s, b)
    requires Survivors(table, s.held, s.attempt.value, token, at) != {}
    ensures var h' := h + [Pressed(token, at)]; var (s', events) := Advance(table, s, token, at);
      && HistoryInv(table, h', s', b)
      && TriggersPerformed(table, h', events, b, s'.held)
  {
    AdvanceCases(table, s, token, at);
    match FirstOfLength(table.order, Survivors(table, s.held, s.attempt.value, token, at), s.attempt.value.progress + 1)
    case Some(t) =>
      AdvanceFires(table, h, s, token, at, b, t);
      FireStep(table, h + [Pressed(token, at)], s.(attempt := None), b, t);
    case None =>
      AdvanceContinues(table, h, s, token, at, b);
  }

  lemma PressStep(table: MotionTable, h: seq<Input>, token: Token, at: nat, b: nat) returns (b': nat)
    requires table.Valid() && HistoryInv(table, h, After(table, IDLE, h), b)
    ensures var h' := h + [Pressed(token, at)]; var (s', events) := Press(table, After(table, IDLE, h), token, at);
      && HistoryInv(table, h', s', b')
      && TriggersPerformed(table, h', events, b', s'.held)
  {
    var s := After(table, IDLE, h);
    var s0 := s.(held := s.held + {token});
    assert HistoryInv(table, h, s0, b);
    if s.attempt.None? || Expired(table, s.attempt.value, at)
      || Survivors(table, s0.held, s.attempt.value, token, at) == {}
    {
      OpenStep(table, h, s0.(attempt := None), token, at);
      b' := |h|;
    } else {
      AdvanceStep(table, h, s0, token, at, b);
      b' := b;
    }
  }

  lemma ReleaseStep(table: MotionTable, h: seq<Input>, token: Token, b: nat)
    requires table.Valid() && HistoryInv(table, h, After(table, IDLE, h), b)
    ensures HistoryInv(table, h + [Released(token)], Release(table, After(table, IDLE, h), token).0, b)
  {
    var s := After(table, IDLE, h);
    var s' := Release(table, s, token).0;
    if s'.attempt.Some? {
      LastToken(h, Released(token), b);
      forall t | t in s'.attempt.value.candidates
        ensures GuardKept(table, h + [Released(token)], b, t) && AllHeld(table.motions[t].requiresHeld, s'.held)
      {
        assert !GuardedBy(table, t, token);
        GuardKeptExtends(table, h, Released(token), b, t);
      }
    }
    assert forall t :: t in s'.loops ==> !Broken(table, s'.held, t);
  }

  lemma CancelStep(table: MotionTable, h: seq<Input>, b: nat)
    requires table.Valid() && HistoryInv(table, h, After(table, IDLE, h), b)
    ensures HistoryInv(table, h + [CancelLoops], Step(table, After(table, IDLE, h), CancelLoops).0, b)
  {
    var s := After(table, IDLE, h);
    if s.attempt.Some? {
      LastToken(h, CancelLoops, b);
      forall t | t in s.attempt.value.candidates ensures GuardKept(table, h + [CancelLoops], b, t) {
        GuardKeptExtends(table, h, CancelLoops, b, t);
      }
    }
  }

  /** One more input, whatever it is. */
  lemma InputStep(table: MotionTable, h: seq<Input>, input: Input, b: nat) returns (b': nat)
    requires table.Valid() && HistoryInv(table, h, After(table, IDLE, h), b)
    ensures var (s', events) := Step(table, After(table, IDLE, h), input);
      && HistoryInv(table, h + [input], s', b')
      && TriggersPerformed(table, h + [input], events, b', s'.held)
  {
    match input
    case Pressed(token, at) =>
      b' := PressStep(table, h, token, at, b);
    case Released(token) =>
      ReleaseStep(table, h, token, b);
      b' := b;
    case CancelLoops =>
      CancelStep(table, h, b);
      b' := b;
  }

  lemma {:induction false} History(table: MotionTable, h: seq<Input>) returns (b: nat)
    requires table.Valid()
    ensures HistoryInv(table, h, After(table, IDLE, h), b)
    ensures h != [] ==>
      TriggersPerformed(table, h, EventsAt(table, IDLE, h, |h| - 1), b, After(table, IDLE, h).held)
  {
    b := 0;
    if h != [] {
      var before, input := h[..|h| - 1], h[|h| - 1];
      b := History(table, before);
      b := InputStep(table, before, input, b);
      AfterSnoc(table, IDLE, before, input);
      assert h == before + [input];
    }
  }

  // ---- what the reachable states and the emitted triggers satisfy ----

  /**
   Soundness of every trigger in every run: the last presses spell the trigger, inside its
   window, its guard was held after the first of them and not released before the last,
   and it starts a loop exactly when its loop's tokens are held.
  */
  lemma {:induction false} TriggerSoundness(table: MotionTable, h: seq<Input>, k: nat, t: Trigger, startsLoop: bool) returns (b: nat)
    requires table.Valid() && k < |h|
    requires Triggered(t, startsLoop) in EventsAt(table, IDLE, h, k)
    ensures Performed(table, h[..k + 1], b, t)
    ensures startsLoop <==>
      && table.motions[t].loopDefinition.Some?
      && AllHeld(table.motions[t].loopDefinition.value.whileHeld, After(table, IDLE, h[..k + 1]).held)
  {
    b := History(table, h[..k + 1]);
    assert h[..k + 1][..k] == h[..k];
  }

  /** What the state of the runtime satisfies after any run, stated on the state alone. */
  ghost predicate MatcherInv(table: MotionTable, s: Matcher) {
    && LoopsOk(table, s.held, s.loops)
    && (s.attempt.Some? ==>
          var a := s.attempt.value;
          && a.progress >= 1
          && a.candidates != {}
          && (forall t :: t in a.candidates ==>
                t in table.motions && |t| > a.progress && AllHeld(table.motions[t].requiresHeld, s.held))
          && (forall t, u, i :: t in a.candidates && u in a.candidates && 0 <= i < a.progress ==> t[i] == u[i]))
  }

  lemma {:induction false} MatcherInvariant(table: MotionTable, h: seq<Input>)
    requires table.Valid()
    ensures MatcherInv(table, After(table, IDLE, h))
  {
    var b := History(table, h);
    var s := After(table, IDLE, h);
    if s.attempt.Some? {
      var a := s.attempt.value;
      var tokens := PressedTokens(h[b..]);
      forall t, i | t in a.candidates && 0 <= i < a.progress ensures t[i] == tokens[i] {
        assert StartsWith(t, tokens);
        assert t[i] == t[..|tokens|][i];
      }
    }
  }

  /**
   In every reachable state with an open attempt, the attempt has not expired at a time if and only
   if pressing some token at that time would carry it on.
  */
  lemma {:induction false} AttemptAliveIff(table: MotionTable, h: seq<Input>, at: nat)
    requires table.Valid() && After(table, IDLE, h).attempt.Some?
    ensures var s := After(table, IDLE, h);
      !Expired(table, s.attempt.value, at) <==>
      exists token :: Survivors(table, s.held + {token}, s.attempt.value, token, at) != {}
  {
    var s := After(table, IDLE, h);
    var a := s.attempt.value;
    MatcherInvariant(table, h);
    if !Expired(table, a, at) {
      var t :| t in a.candidates && t in table.motions && SatSub(at, a.startedAt) <= table.motions[t].Window();
      var token := t[a.progress];
      assert t in Survivors(table, s.held + {token}, a, token, at);
    }
    if token :| Survivors(table, s.held + {token}, a, token, at) != {} {
      var t :| t in Survivors(table, s.held + {token}, a, token, at);
      assert t in a.candidates;
    }
  }

  /** `h[j]` presses the token and nothing after it releases it. */
  ghost predicate PressedLast(h: seq<Input>, j: int, token: Token) {
    && 0 <= j < |h|
    && h[j].Pressed? && h[j].token == token
    && forall k :: j < k < |h| ==> h[k] != Released(token)
  }

  /** Over every run, a token is held exactly when it was pressed and not released since. */
  lemma {:induction false} HeldIffPressed(table: MotionTable, h: seq<Input>, token: Token)
    ensures token in After(table, IDLE, h).held <==> exists j :: PressedLast(h, j, token)
  {
    if h != [] {
      var before, input := h[..|h| - 1], h[|h| - 1];
      HeldIffPressed(table, before, token);
      StepHeld(table, After(table, IDLE, before), input);
      if input.Pressed? && input.token == token {
        assert PressedLast(h, |before|, token);
      }
      if j :| PressedLast(before, j, token) && input != Released(token) {
        assert PressedLast(h, j, token);
      }
      if j :| PressedLast(h, j, token) && j < |before| {
        assert PressedLast(before, j, token);
      }
    }
  }

  lemma StepHeld(table: MotionTable, s: Matcher, input: Input)
    ensures Step(table, s, input).0.held ==
      match input
      case Pressed(token, _) => s.held + {token}
      case Released(token) => s.held - {token}
      case CancelLoops => s.held
  {
  }
}

/**
 Completeness of the matcher under an accepted configuration: performing a trigger fires it,
 exactly at its last press, because no configured trigger is a proper prefix of another.
*/
module MotionCompleteness {
  import opened Wrappers
  import opened Motion
  import opened MotionRuns
  import opened Configuration

  /**
   From the state `s` the inputs perform `t`: they begin and end with a press, the presses spell
   `t` and stay inside its window, its guard is held once the first token is down, and no token
   guarded by any configured motion is released. Any other release, and any cancellation of the
   loops, may come in between.
  */
  ghost predicate Performs(table: MotionTable, s: Matcher, inputs: seq<Input>, t: Trigger) {
    && t in table.motions
    && inputs != []
    && inputs[0].Pressed? && inputs[|inputs| - 1].Pressed?
    && PressedTokens(inputs) == t
    && (forall k :: 0 <= k < |inputs| && inputs[k].Pressed? ==>
          SatSub(inputs[k].at, inputs[0].at) <= table.motions[t].Window())
    && AllHeld(table.motions[t].requiresHeld, s.held + {inputs[0].token})
    && (forall u :: u in table.motions ==> NoReleaseOf(inputs, table.motions[u].requiresHeld))
  }

  /** The open attempt is on its way to `t`, having matched `tokens` since `startedAt`. */
  ghost predicate OnTheWay(table: MotionTable, s: Matcher, t: Trigger, tokens: seq<Token>, startedAt: nat) {
    && t in table.motions
    && AllHeld(table.motions[t].requiresHeld, s.held)
    && s.attempt.Some?
    && var a := s.attempt.value;
       && a.startedAt == startedAt
       && a.progress == |tokens|
       && t in a.candidates
       && CandidatesStart(table, a.candidates, tokens)
  }

  ghost predicate CandidatesStart(table: MotionTable, candidates: set<Trigger>, tokens: seq<Token>) {
    forall u :: u in candidates ==> u in table.motions && StartsWith(u, tokens)
  }

  /** Two configured triggers, one the beginning of the other, are the same trigger. */
  lemma PrefixFreeMeaning(table: MotionTable, t: Trigger, u: Trigger, tokens: seq<Token>)
    requires PrefixFree(table.motions.Keys)
    requires t in table.motions && u in table.motions
    requires StartsWith(t, tokens) && u == tokens
    ensures u == t
  {
    assert !TriggerIsPrefix(u, t);
    assert t[..|u|] == u;
  }

  lemma FirstPress(table: MotionTable, s: Matcher, token: Token, at: nat, t: Trigger)
    requires table.Valid() && PrefixFree(table.motions.Keys)
    requires s.attempt.None? && t in table.motions && t[0] == token
    requires AllHeld(table.motions[t].requiresHeld, s.held + {token})
    ensures var (s', events) := Press(table, s, token, at);
      if |t| == 1 then events == [Triggered(t, StartsLoop(table, s.held + {token}, t))] && s'.attempt.None?
      else events == [] && OnTheWay(table, s', t, [token], at)
  {
    var s0 := s.(held := s.held + {token});
    var candidates := Openers(table, s0.held, token);
    assert t in candidates;
    assert StartsWith(t, [token]) by { assert t[..1] == [token]; }
    FirstOfLengthMeaning(table.order, candidates, 1);
    match FirstOfLength(table.order, candidates, 1)
    case Some(u) =>
      assert u == [token];
      PrefixFreeMeaning(table, t, u, [token]);
    case None =>
      forall u | u in candidates ensures StartsWith(u, [token]) {
        assert u[..1] == [token];
      }
  }

  lemma SurvivorsStart(
    table: MotionTable, s: Matcher, token: Token, at: nat, t: Trigger, tokens: seq<Token>, startedAt: nat)
    requires OnTheWay(table, s, t, tokens, startedAt)
    requires StartsWith(t, tokens + [token])
    requires SatSub(at, startedAt) <= table.motions[t].Window()
    ensures !Expired(table, s.attempt.value, at)
    ensures var survivors := Survivors(table, s.held, s.attempt.value, token, at);
      t in survivors && CandidatesStart(table, survivors, tokens + [token])
  {
    var a := s.attempt.value;
    var survivors := Survivors(table, s.held, a, token, at);
    assert t[..|tokens| + 1][|tokens|] == token;
    forall u | u in survivors ensures StartsWith(u, tokens + [token]) {
      assert u[..|tokens| + 1] == u[..|tokens|] + [u[|tokens|]];
    }
  }

  lemma NextPress(table: MotionTable, s: Matcher, token: Token, at: nat, t: Trigger, tokens: seq<Token>, startedAt: nat)
    requires table.Valid() && PrefixFree(table.motions.Keys)
    requires OnTheWay(table, s, t, tokens, startedAt)
    requires StartsWith(t, tokens + [token])
    requires SatSub(at, startedAt) <= table.motions[t].Window()
    ensures var (s', events) := Press(table, s, token, at);
      if |t| == |tokens| + 1 then events == [Triggered(t, StartsLoop(table, s.held + {token}, t))] && s'.attempt.None?
      else events == [] && OnTheWay(table, s', t, tokens + [token], startedAt)
  {
    var s0 := s.(held := s.held + {token});
    SurvivorsStart(table, s0, token, at, t, tokens, startedAt);
    var n := s.attempt.value.progress + 1;
    var survivors := Survivors(table, s0.held, s.attempt.value, token, at);
    assert Press(table, s, token, at) == Advance(table, s0, token, at);
    FirstOfLengthMeaning(table.order, survivors, n);
    match FirstOfLength(table.order, survivors, n)
    case Some(u) =>
      assert u == u[..n] == tokens + [token];
      PrefixFreeMeaning(table, t, u, tokens + [token]);
    case None =>
      assert t in table.order;
  }

  lemma OtherInput(table: MotionTable, s: Matcher, input: Input, t: Trigger, tokens: seq<Token>, startedAt: nat)
    requires OnTheWay(table, s, t, tokens, startedAt)
    requires !input.Pressed?
    requires forall u :: u in table.motions ==> NoReleaseOf([input], table.motions[u].requiresHeld)
    ensures var (s', events) := Step(table, s, input);
      OnTheWay(table, s', t, tokens, startedAt) && forall e :: e in events ==> e.LoopCancelled?
  {
    if input.Released? {
      forall u | u in s.attempt.value.candidates ensures !GuardedBy(table, u, input.token) {
        assert NoReleaseOf([input], table.motions[u].requiresHeld);
        assert [input][0].Released?;
      }
      assert NoReleaseOf([input], table.motions[t].requiresHeld);
      assert [input][0].token !in table.motions[t].requiresHeld;
    }
  }

  lemma Prefixes(inputs: seq<Input>, k: nat)
    requires k < |inputs|
    ensures inputs[..k + 1] == inputs[..k] + [inputs[k]]
    ensures PressedTokens(inputs[..k + 1]) ==
      PressedTokens(inputs[..k]) + if inputs[k].Pressed? then [inputs[k].token] else []
  {
    assert inputs[..k + 1] == inputs[..k] + [inputs[k]];
    assert inputs[..k + 1][..k] == inputs[..k];
  }

  lemma {:induction false} TokensGrow(inputs: seq<Input>, k: nat)
    requires k <= |inputs|
    ensures |PressedTokens(inputs[..k])| <= |PressedTokens(inputs)|
    ensures PressedTokens(inputs)[..|PressedTokens(inputs[..k])|] == PressedTokens(inputs[..k])
    ensures k < |inputs| && inputs[|inputs| - 1].Pressed? ==>
      |PressedTokens(inputs[..k])| < |PressedTokens(inputs)|
    decreases |inputs| - k
  {
    if k == |inputs| {
      assert inputs[..k] == inputs;
    } else {
      TokensGrow(inputs, k + 1);
      Prefixes(inputs, k);
    }
  }

  /** What input number `k` of a performance emits. */
  ghost predicate PerformanceEvents(
    table: MotionTable, s: Matcher, inputs: seq<Input>, t: Trigger, k: nat, events: seq<Event>)
    requires k < |inputs| && t in table.motions
  {
    if k == |inputs| - 1 then
      events == [Triggered(t, StartsLoop(table, After(table, s, inputs).held, t))]
    else
      forall e :: e in events ==> e.LoopCancelled?
  }

  lemma PrefixStarts(inputs: seq<Input>, t: Trigger, k: nat)
    requires inputs != [] && inputs[|inputs| - 1].Pressed? && PressedTokens(inputs) == t && k < |inputs|
    ensures StartsWith(t, PressedTokens(inputs[..k + 1]))
    ensures |PressedTokens(inputs[..k + 1])| == |t| <==> k == |inputs| - 1
  {
    TokensGrow(inputs, k + 1);
    assert k == |inputs| - 1 ==> inputs[..k + 1] == inputs;
  }

  lemma AfterPrefix(table: MotionTable, s: Matcher, inputs: seq<Input>, k: nat)
    requires k < |inputs|
    ensures After(table, s, inputs[..k + 1]) == Step(table, After(table, s, inputs[..k]), inputs[k]).0
  {
    assert inputs[..k + 1][..k] == inputs[..k];
  }

  lemma FirstInput(table: MotionTable, s: Matcher, inputs: seq<Input>, t: Trigger)
    requires table.Valid() && PrefixFree(table.motions.Keys)
    requires s.attempt.None? && Performs(table, s, inputs, t)
    ensures PerformanceEvents(table, s, inputs, t, 0, EventsAt(table, s, inputs, 0))
    ensures |inputs| > 1 ==>
      OnTheWay(table, After(table, s, inputs[..1]), t, PressedTokens(inputs[..1]), inputs[0].at)
  {
    assert inputs[..0] == [];
    Prefixes(inputs, 0);
    PrefixStarts(inputs, t, 0);
    AfterPrefix(table, s, inputs, 0);
    FirstPress(table, s, inputs[0].token, inputs[0].at, t);
    PressHeld(table, s, inputs[0].token, inputs[0].at);
    if |inputs| == 1 {
      assert inputs[..1] == inputs;
    }
  }

  lemma NextInput(table: MotionTable, s: Matcher, inputs: seq<Input>, t: Trigger, k: nat)
    requires table.Valid() && PrefixFree(table.motions.Keys)
    requires Performs(table, s, inputs, t) && 0 < k < |inputs|
    requires OnTheWay(table, After(table, s, inputs[..k]), t, PressedTokens(inputs[..k]), inputs[0].at)
    ensures PerformanceEvents(table, s, inputs, t, k, EventsAt(table, s, inputs, k))
    ensures k < |inputs| - 1 ==>
      OnTheWay(table, After(table, s, inputs[..k + 1]), t, PressedTokens(inputs[..k + 1]), inputs[0].at)
  {
    var s', tokens := After(table, s, inputs[..k]), PressedTokens(inputs[..k]);
    Prefixes(inputs, k);
    PrefixStarts(inputs, t, k);
    AfterPrefix(table, s, inputs, k);
    if inputs[k].Pressed? {
      NextPress(table, s', inputs[k].token, inputs[k].at, t, tokens, inputs[0].at);
      PressHeld(table, s', inputs[k].token, inputs[k].at);
      if k == |inputs| - 1 {
        assert inputs[..k + 1] == inputs;
      }
    } else {
      OtherInput(table, s', inputs[k], t, tokens, inputs[0].at);
    }
  }

  lemma {:induction false} PerformanceStep(table: MotionTable, s: Matcher, inputs: seq<Input>, t: Trigger, k: nat)
    requires table.Valid() && PrefixFree(table.motions.Keys)
    requires s.attempt.None? && Performs(table, s, inputs, t) && k < |inputs|
    ensures PerformanceEvents(table, s, inputs, t, k, EventsAt(table, s, inputs, k))
    ensures k < |inputs| - 1 ==>
      OnTheWay(table, After(table, s, inputs[..k + 1]), t, PressedTokens(inputs[..k + 1]), inputs[0].at)
  {
    if k == 0 {
      FirstInput(table, s, inputs, t);
    } else {
      PerformanceStep(table, s, inputs, t, k - 1);
      NextInput(table, s, inputs, t, k);
    }
  }

  lemma {:induction false} CompletenessAtRest(table: MotionTable, s: Matcher, inputs: seq<Input>, t: Trigger)
    requires table.Valid() && PrefixFree(table.motions.Keys)
    requires s.attempt.None? && Performs(table, s, inputs, t)
    ensures forall k :: 0 <= k < |inputs| - 1 ==>
      forall e :: e in EventsAt(table, s, inputs, k) ==> e.LoopCancelled?
    ensures |inputs| > 1 ==> EventsAt(table, s, inputs, 0) == []
    ensures EventsAt(table, s, inputs, |inputs| - 1) ==
      [Triggered(t, StartsLoop(table, After(table, s, inputs).held, t))]
  {
    forall k | 0 <= k < |inputs|
      ensures PerformanceEvents(table, s, inputs, t, k, EventsAt(table, s, inputs, k))
    {
      PerformanceStep(table, s, inputs, t, k);
    }
    if |inputs| > 1 {
      assert inputs[..0] == [];
      FirstIsLonger(inputs, t);
      FirstPress(table, s, inputs[0].token, inputs[0].at, t);
    }
  }

  lemma FirstIsLonger(inputs: seq<Input>, t: Trigger)
    requires |inputs| > 1 && inputs[0].Pressed? && inputs[|inputs| - 1].Pressed? && PressedTokens(inputs) == t
    ensures t[0] == inputs[0].token && |t| > 1
  {
    TokensGrow(inputs, 1);
    Prefixes(inputs, 0);
    assert PressedTokens(inputs[..0]) == [];
  }

  // ---- performing a trigger while another attempt is open ----

  /** Motion `u` has no more time for the attempt at this time. */
  predicate WindowOver(table: MotionTable, a: Attempt, u: Trigger, at: nat) {
    u in table.motions ==> SatSub(at, a.startedAt) > table.motions[u].Window()
  }

  /** The press carries the attempt on towards `u`: in time, the next token of `u`, with its guard held. */
  predicate CarriesOn(table: MotionTable, held: set<Token>, a: Attempt, u: Trigger, token: Token, at: nat) {
    && u in table.motions && !WindowOver(table, a, u, at)
    && a.progress < |u| && u[a.progress] == token
    && AllHeld(table.motions[u].requiresHeld, held + {token})
  }

  /** No attempt is open, or this press carries the open one on towards none of its candidates. */
  predicate Freed(table: MotionTable, s: Matcher, input: Input) {
    s.attempt.Some? ==>
      && input.Pressed?
      && forall u :: u in s.attempt.value.candidates ==> !CarriesOn(table, s.held, s.attempt.value, u, input.token, input.at)
  }

  /** What the ended attempt leaves: one discard, for lack of time when no candidate had any left. */
  function Leftover(table: MotionTable, s: Matcher, input: Input): seq<Event>
    requires s.attempt.Some? ==> input.Pressed?
  {
    if s.attempt.None? then []
    else if forall u :: u in s.attempt.value.candidates ==> WindowOver(table, s.attempt.value, u, input.at)
    then [Discarded(Timeout)]
    else [Discarded(UnrelatedPress)]
  }

  lemma SurvivorCarriesOn(table: MotionTable, s: Matcher, token: Token, at: nat, u: Trigger)
    requires s.attempt.Some? && u in Survivors(table, s.held + {token}, s.attempt.value, token, at)
    ensures CarriesOn(table, s.held, s.attempt.value, u, token, at)
  {
  }

  /** A press that ends the open attempt reports it and then does all that it does with none open. */
  lemma FreedPress(table: MotionTable, s: Matcher, token: Token, at: nat)
    requires Freed(table, s, Pressed(token, at))
    ensures var rest := s.(attempt := None);
      && Press(table, s, token, at).0 == Press(table, rest, token, at).0
      && Press(table, s, token, at).1 == Leftover(table, s, Pressed(token, at)) + Press(table, rest, token, at).1
  {
    var rest := s.(attempt := None);
    if s.attempt.Some? {
      var a := s.attempt.value;
      assert Expired(table, a, at) <==> forall u :: u in a.candidates ==> WindowOver(table, a, u, at);
      var survivors := Survivors(table, s.held + {token}, a, token, at);
      if u :| u in survivors {
        SurvivorCarriesOn(table, s, token, at, u);
        assert false;
      }
    } else {
      assert rest == s;
      assert [] + Press(table, s, token, at).1 == Press(table, s, token, at).1;
    }
  }

  lemma {:induction false} AfterFreed(table: MotionTable, s: Matcher, inputs: seq<Input>, k: nat)
    requires 0 < k <= |inputs| && inputs[0].Pressed? && Freed(table, s, inputs[0])
    ensures After(table, s, inputs[..k]) == After(table, s.(attempt := None), inputs[..k])
  {
    hide Press;
    hide Freed;
    AfterPrefix(table, s, inputs, k - 1);
    AfterPrefix(table, s.(attempt := None), inputs, k - 1);
    if k == 1 {
      assert inputs[..0] == [];
      FreedPress(table, s, inputs[0].token, inputs[0].at);
    } else {
      AfterFreed(table, s, inputs, k - 1);
    }
  }

  /**
   Completeness: under an accepted configuration, a performance of `t` emits the trigger of `t` at its
   last input and nowhere else, and no other trigger; on the way only loops can be cancelled. This holds
   from any state with no open attempt, and from any whose open attempt the first press does not carry
   on: then the first press reports that attempt, with the reason it ended, before anything else.
  */
  lemma {:induction false} TriggerCompleteness(table: MotionTable, s: Matcher, inputs: seq<Input>, t: Trigger)
    requires table.Valid() && PrefixFree(table.motions.Keys)
    requires Performs(table, s, inputs, t) && Freed(table, s, inputs[0])
    ensures |inputs| > 1 ==> EventsAt(table, s, inputs, 0) == Leftover(table, s, inputs[0])
    ensures forall k :: 0 < k < |inputs| - 1 ==> forall e :: e in EventsAt(table, s, inputs, k) ==> e.LoopCancelled?
    ensures EventsAt(table, s, inputs, |inputs| - 1) ==
      (if |inputs| == 1 then Leftover(table, s, inputs[0]) else [])
      + [Triggered(t, StartsLoop(table, After(table, s, inputs).held, t))]
  {
    var rest := s.(attempt := None);
    CompletenessAtRest(table, rest, inputs, t);
    hide Press;
    hide Release;
    hide Performs;
    hide Freed;
    hide Leftover;
    assert inputs[..0] == [] && inputs[..|inputs|] == inputs;
    FreedPress(table, s, inputs[0].token, inputs[0].at);
    AfterFreed(table, s, inputs, |inputs|);
    forall k | 0 < k < |inputs| ensures EventsAt(table, s, inputs, k) == EventsAt(table, rest, inputs, k) {
      AfterFreed(table, s, inputs, k);
    }
    assert Leftover(table, s, inputs[0]) + [] == Leftover(table, s, inputs[0]);
  }

  // ---- the prefix check is also necessary ----

  ghost predicate Fires(events: seq<Event>) {
    exists e :: e in events && e.Triggered?
  }

  /** The open attempt still allows `u` after its first `n` tokens, all pressed at time 0. */
  ghost predicate Allows(table: MotionTable, s: Matcher, u: Trigger, n: nat) {
    && u in table.motions
    && AllHeld(table.motions[u].requiresHeld, s.held)
    && s.attempt.Some?
    && s.attempt.value.startedAt == 0
    && s.attempt.value.progress == n
    && u in s.attempt.value.candidates
  }

  lemma AllowingPress(table: MotionTable, s: Matcher, u: Trigger, n: nat)
    requires table.Valid() && u in table.motions && n < |u|
    requires AllHeld(table.motions[u].requiresHeld, s.held)
    requires if n == 0 then s.attempt.None? else Allows(table, s, u, n)
    ensures var (s', events) := Press(table, s, u[n], 0);
      Fires(events) || (n + 1 < |u| && Allows(table, s', u, n + 1))
  {
    var s0 := s.(held := s.held + {u[n]});
    var candidates :=
      if n == 0 then Openers(table, s0.held, u[n]) else Survivors(table, s0.held, s.attempt.value, u[n], 0);
    assert u in candidates;
    FirstOfLengthMeaning(table.order, candidates, n + 1);
    var (s', events) := Press(table, s, u[n], 0);
    match FirstOfLength(table.order, candidates, n + 1)
    case Some(v) => assert events[0].Triggered?;
    case None => assert u in table.order;
  }

  lemma {:induction false} ShorterFires(table: MotionTable, s: Matcher, inputs: seq<Input>, u: Trigger, n: nat)
    returns (k: nat)
    requires table.Valid() && u in table.motions && s.attempt.None?
    requires AllHeld(table.motions[u].requiresHeld, s.held)
    requires n <= |u| <= |inputs|
    requires forall i :: 0 <= i < |u| ==> inputs[i] == Pressed(u[i], 0)
    ensures
      || (k < n && Fires(EventsAt(table, s, inputs, k)))
      || (n < |u| && (n == 0 || Allows(table, After(table, s, inputs[..n]), u, n)))
  {
    k := 0;
    if n > 0 {
      k := ShorterFires(table, s, inputs, u, n - 1);
      if !(k < n - 1 && Fires(EventsAt(table, s, inputs, k))) {
        k := n - 1;
        assert inputs[..0] == [];
        AllowingPress(table, After(table, s, inputs[..n - 1]), u, n - 1);
        AfterPrefix(table, s, inputs, n - 1);
      }
    }
  }

  lemma {:induction false} SpelledBy(inputs: seq<Input>, t: seq<Token>)
    requires |inputs| == |t|
    requires forall i :: 0 <= i < |t| ==> inputs[i] == Pressed(t[i], 0)
    ensures PressedTokens(inputs) == t
  {
    if t != [] {
      SpelledBy(inputs[..|t| - 1], t[..|t| - 1]);
    }
  }

  // ---- reaching the state in which the guards are held and nothing else is going on ----

  /** Some key is none of these tokens. */
  lemma {:induction false} UnusedKey(tokens: set<Token>) returns (key: Token)
    ensures key.Key? && key !in tokens
    ensures forall token :: token in tokens && token.Key? ==> |token.name| < |key.name|
  {
    if tokens == {} {
      key := Key("");
    } else {
      var token :| token in tokens;
      key := UnusedKey(tokens - {token});
      key := Key(seq(|key.name| + (if token.Key? then |token.name| else 0) + 1, _ => 'x'));
      assert forall other :: other in tokens ==> other == token || other in tokens - {token};
    }
  }

  /** Pressing these tokens one after the other holds them all. */
  lemma {:induction false} HoldAll(table: MotionTable, tokens: set<Token>) returns (h: seq<Input>)
    ensures After(table, IDLE, h).held == tokens
  {
    h := [];
    if tokens != {} {
      var token :| token in tokens;
      h := HoldAll(table, tokens - {token});
      AfterSnoc(table, IDLE, h, Pressed(token, 0));
      PressHeld(table, After(table, IDLE, h), token, 0);
      h := h + [Pressed(token, 0)];
    }
  }

  /** Pressing a key of no motion ends any attempt and fires nothing. */
  lemma UnusedPress(table: MotionTable, s: Matcher, key: Token)
    requires forall t :: t in table.motions ==> key !in t
    ensures Press(table, s, key, 0).0 == Matcher(s.held + {key}, None, s.loops)
  {
    var held := s.held + {key};
    assert Openers(table, held, key) == {};
    if s.attempt.Some? {
      assert Survivors(table, held, s.attempt.value, key, 0) == {};
    }
  }

  /** The state with exactly these tokens held, no attempt and no loop is reached by some run. */
  lemma {:induction false} QuietStateReachable(table: MotionTable, tokens: set<Token>) returns (h: seq<Input>)
    ensures After(table, IDLE, h) == Matcher(tokens, None, {})
  {
    var used := set t, token | t in table.motions && token in t :: token;
    var key := UnusedKey(tokens + used);
    assert forall t :: t in table.motions ==> key !in t;
    var h0 := HoldAll(table, tokens);
    var s := After(table, IDLE, h0);
    AfterSnoc(table, IDLE, h0, Pressed(key, 0));
    UnusedPress(table, s, key);
    var h1 := h0 + [Pressed(key, 0)];
    AfterSnoc(table, IDLE, h1, Released(key));
    var h2 := h1 + [Released(key)];
    assert tokens + {key} - {key} == tokens;
    assert After(table, IDLE, h2).held == tokens && After(table, IDLE, h2).attempt.None?;
    AfterSnoc(table, IDLE, h2, CancelLoops);
    h := h2 + [CancelLoops];
  }

  /**
   Without the prefix check the matcher is ambiguous: if `u` is a proper prefix of `t`, some
   performance of `t` from a reachable state fires a trigger before its last press.
  */
  lemma {:induction false} PrefixOverlapIsAmbiguous(table: MotionTable, t: Trigger, u: Trigger)
    returns (h: seq<Input>, inputs: seq<Input>, k: nat)
    requires table.Valid() && t in table.motions && u in table.motions && TriggerIsPrefix(u, t)
    ensures var s := After(table, IDLE, h);
      && s.attempt.None? && Performs(table, s, inputs, t)
      && k < |inputs| - 1 && Fires(EventsAt(table, s, inputs, k))
  {
    var guards := (set token | token in table.motions[t].requiresHeld) + (set token | token in table.motions[u].requiresHeld);
    h := QuietStateReachable(table, guards);
    var s := Matcher(guards, None, {});
    inputs := seq(|t|, i requires 0 <= i < |t| => Pressed(t[i], 0));
    SpelledBy(inputs, t);
    forall i | 0 <= i < |u| ensures inputs[i] == Pressed(u[i], 0) {
      assert t[..|u|][i] == u[i];
    }
    k := ShorterFires(table, s, inputs, u, |u|);
  }

  // ---- from the accepted configuration to the runtime ----

  /** A configuration that is accepted gives the runtime a prefix-free table of its motions. */
  lemma {:induction false} AcceptedTable(
    bindings: seq<BindingDefinition>, motions: seq<MotionDefinition>, presses: seq<PressDefinition>, order: seq<Trigger>)
    requires Verdict(bindings, motions, presses).None? && Enumerates(order, Collected(motions).Keys)
    ensures MotionTable(Collected(motions), order).Valid()
    ensures PrefixFree(Collected(motions).Keys)
    ensures forall i :: 0 <= i < |motions| ==>
      motions[i].trigger in Collected(motions) && Collected(motions)[motions[i].trigger] == motions[i]
  {
    CollectedMeaning(motions);
    var key := (m: MotionDefinition) => m.trigger;
    assert forall m: MotionDefinition :: key(m) == m.trigger;
    assert DistinctKeys(motions, (m: MotionDefinition) => m.trigger);
    forall i | 0 <= i < |motions| ensures LastFor(motions, i, motions[i].trigger) {
    }
    forall t | t in Collected(motions) ensures Collected(motions)[t].trigger == t {
      var i :| LastFor(motions, i, t);
    }
    forall t | t in Collected(motions).Keys ensures t in set m | m in motions :: m.trigger {
      var i :| LastFor(motions, i, t);
      assert motions[i] in motions;
    }
  }

  /**
   Completeness from the configuration on: for any accepted configuration, performing one of its
   motions fires it at the last press and nowhere else, unless the first press carries on an attempt
   already open.
  */
  lemma {:induction false} AcceptedConfigurationIsComplete(
    bindings: seq<BindingDefinition>, motions: seq<MotionDefinition>, presses: seq<PressDefinition>, order: seq<Trigger>,
    s: Matcher, inputs: seq<Input>, i: nat)
    requires Verdict(bindings, motions, presses).None? && Enumerates(order, Collected(motions).Keys)
    requires i < |motions|
    requires var table := MotionTable(Collected(motions), order);
      Performs(table, s, inputs, motions[i].trigger) && Freed(table, s, inputs[0])
    ensures var table := MotionTable(Collected(motions), order);
      && (|inputs| > 1 ==> EventsAt(table, s, inputs, 0) == Leftover(table, s, inputs[0]))
      && (forall k :: 0 < k < |inputs| - 1 ==> forall e :: e in EventsAt(table, s, inputs, k) ==> e.LoopCancelled?)
      && motions[i].trigger in table.motions
      && EventsAt(table, s, inputs, |inputs| - 1) ==
           (if |inputs| == 1 then Leftover(table, s, inputs[0]) else [])
           + [Triggered(motions[i].trigger, StartsLoop(table, After(table, s, inputs).held, motions[i].trigger))]
  {
    AcceptedTable(bindings, motions, presses, order);
    TriggerCompleteness(MotionTable(Collected(motions), order), s, inputs, motions[i].trigger);
  }
}

/**
 What one poll of the state trackers guarantees: conditions settle in one ordered pass, the timing
 is exact, and each due tracker is updated once.
*/
module TrackerTheorems {
  import opened Wrappers
  import opened StateTrackers

  /** The due trackers in focus, in declaration order: those a sampling pass visits. */
  function ActiveDue(trackers: seq<Tracker>, s: Poller, now: nat, inFocus: string -> bool): seq<Tracker> {
    InScope(DueTrackers(trackers, s, now), inFocus, true)
  }

  lemma {:induction false} DueAppend(a: seq<Tracker>, b: seq<Tracker>, s: Poller, now: nat)
    ensures DueTrackers(a + b, s, now) == DueTrackers(a, s, now) + DueTrackers(b, s, now)
  {
    if a == [] {
      assert a + b == b;
    } else {
      hide IsDue;
      DueAppend(a[1..], b, s, now);
      assert (a + b)[1..] == a[1..] + b && (a + b)[0] == a[0];
      var first := if IsDue(s, a[0], now) then [a[0]] else [];
      assert first + (DueTrackers(a[1..], s, now) + DueTrackers(b, s, now)) ==
        first + DueTrackers(a[1..], s, now) + DueTrackers(b, s, now);
    }
  }

  lemma {:induction false} InScopeAppend(a: seq<Tracker>, b: seq<Tracker>, inFocus: string -> bool, wanted: bool)
    ensures InScope(a + b, inFocus, wanted) == InScope(a, inFocus, wanted) + InScope(b, inFocus, wanted)
  {
    if a == [] {
      assert a + b == b;
    } else {
      InScopeAppend(a[1..], b, inFocus, wanted);
      assert (a + b)[1..] == a[1..] + b && (a + b)[0] == a[0];
      var first := if inFocus(a[0].id) == wanted then [a[0]] else [];
      assert first + (InScope(a[1..], inFocus, wanted) + InScope(b, inFocus, wanted)) ==
        first + InScope(a[1..], inFocus, wanted) + InScope(b, inFocus, wanted);
    }
  }

  lemma {:induction false} DueMembers(trackers: seq<Tracker>, s: Poller, now: nat)
    ensures forall t :: t in DueTrackers(trackers, s, now) <==> t in trackers && IsDue(s, t, now)
  {
    if trackers != [] {
      DueMembers(trackers[1..], s, now);
      assert forall t :: t in trackers <==> t == trackers[0] || t in trackers[1..];
    }
  }

  lemma {:induction false} ScopeMembers(trackers: seq<Tracker>, inFocus: string -> bool, wanted: bool)
    ensures forall t :: t in InScope(trackers, inFocus, wanted) <==> t in trackers && inFocus(t.id) == wanted
  {
    if trackers != [] {
      ScopeMembers(trackers[1..], inFocus, wanted);
      assert forall t :: t in trackers <==> t == trackers[0] || t in trackers[1..];
    }
  }

  lemma ActiveMembers(trackers: seq<Tracker>, s: Poller, now: nat, inFocus: string -> bool)
    ensures forall t :: t in ActiveDue(trackers, s, now, inFocus) <==> t in trackers && IsDue(s, t, now) && inFocus(t.id)
  {
    DueMembers(trackers, s, now);
    ScopeMembers(DueTrackers(trackers, s, now), inFocus, true);
  }

  // ---- what a pass leaves alone ----

  ghost predicate NoneHas(trackers: seq<Tracker>, id: string) {
    forall t :: t in trackers ==> t.id != id
  }

  ghost predicate SameLatest(s: Poller, s': Poller, id: string) {
    && (id in s.latest <==> id in s'.latest)
    && (id in s.latest ==> s.latest[id] == s'.latest[id])
  }

  lemma SampledLatest(s: Poller, tracker: Tracker, capture: Capture, now: nat)
    ensures var s' := Sampled(s, tracker, capture, now);
      && (forall id :: id != tracker.id ==> SameLatest(s, s', id))
      && tracker.id in s'.latest
      && (s'.latest[tracker.id] == Inactive(ConditionInactive) <==>
            tracker.condition.Some? && !Matches(tracker.condition.value, s.latest))
  {
  }

  lemma {:induction false} PassLeaves(s: Poller, trackers: seq<Tracker>, capture: Capture, now: nat, id: string)
    requires NoneHas(trackers, id)
    ensures SameLatest(s, Pass(s, trackers, capture, now), id)
    decreases |trackers|
  {
    if trackers != [] {
      hide Sampled;
      assert trackers[0] in trackers;
      assert forall t :: t in trackers[1..] ==> t in trackers;
      SampledLatest(s, trackers[0], capture, now);
      PassLeaves(Sampled(s, trackers[0], capture, now), trackers[1..], capture, now, id);
    }
  }

  lemma {:induction false} PassAppend(s: Poller, a: seq<Tracker>, b: seq<Tracker>, capture: Capture, now: nat)
    ensures Pass(s, a + b, capture, now) == Pass(Pass(s, a, capture, now), b, capture, now)
    decreases |a|
  {
    if a == [] {
      assert a + b == b;
    } else {
      hide Sampled;
      PassAppend(Sampled(s, a[0], capture, now), a[1..], b, capture, now);
      assert (a + b)[1..] == a[1..] + b;
    }
  }

  /** In a pass over `a`, then `t`, then `b`, the condition of `t` is settled for good. */
  lemma PassSettles(s: Poller, a: seq<Tracker>, t: Tracker, b: seq<Tracker>, capture: Capture, now: nat)
    requires t.condition.Some? && t.condition.value.trackerId != t.id
    requires NoneHas(b, t.id) && NoneHas(b, t.condition.value.trackerId)
    ensures var latest := Pass(s, a + [t] + b, capture, now).latest;
      t.id in latest && (latest[t.id] == Inactive(ConditionInactive) <==> !Matches(t.condition.value, latest))
  {
    hide Sampled;
    var s1 := Pass(s, a, capture, now);
    var s2 := Sampled(s1, t, capture, now);
    PassAppend(s, a + [t], b, capture, now);
    PassAppend(s, a, [t], capture, now);
    assert Pass(s1, [t], capture, now) == Pass(s2, [], capture, now) by { assert [t][1..] == []; }
    SampledLatest(s1, t, capture, now);
    assert SameLatest(s1, s2, t.condition.value.trackerId);
    PassLeaves(s2, b, capture, now, t.id);
    PassLeaves(s2, b, capture, now, t.condition.value.trackerId);
  }

  lemma ActiveSplit(trackers: seq<Tracker>, s: Poller, now: nat, inFocus: string -> bool, j: nat)
    requires j < |trackers| && IsDue(s, trackers[j], now) && inFocus(trackers[j].id)
    ensures ActiveDue(trackers, s, now, inFocus) ==
      ActiveDue(trackers[..j], s, now, inFocus) + [trackers[j]] + ActiveDue(trackers[j + 1..], s, now, inFocus)
  {
    var before, t, after := trackers[..j], trackers[j], trackers[j + 1..];
    assert trackers == before + ([t] + after);
    DueAppend(before, [t] + after, s, now);
    DueAppend([t], after, s, now);
    assert [t][1..] == [];
    assert DueTrackers([t], s, now) == [t];
    InScopeAppend(DueTrackers(before, s, now), [t] + DueTrackers(after, s, now), inFocus, true);
    InScopeAppend([t], DueTrackers(after, s, now), inFocus, true);
    assert InScope([t], inFocus, true) == [t];
  }

  lemma LaterTrackersDiffer(trackers: seq<Tracker>, s: Poller, now: nat, inFocus: string -> bool, i: nat, j: nat)
    requires UniqueIds(trackers) && i <= j < |trackers|
    ensures NoneHas(ActiveDue(trackers[j + 1..], s, now, inFocus), trackers[i].id)
  {
    ActiveMembers(trackers[j + 1..], s, now, inFocus);
    forall t | t in trackers[j + 1..] ensures t.id != trackers[i].id {
      var k :| 0 <= k < |trackers[j + 1..]| && trackers[j + 1..][k] == t;
      assert trackers[j + 1 + k] == t;
    }
  }

  /**
   One ordered pass settles the conditions: after a poll that took a sample, a due tracker in focus
   is inactive for its condition exactly when its source's state at the end of that poll does not
   match the phase it waits for.
  */
  lemma ConditionsSettle(trackers: seq<Tracker>, s: Poller, now: nat, env: Surroundings, j: nat)
    requires Accepted(trackers) && j < |trackers| && trackers[j].condition.Some?
    requires PollDue(trackers, s, now, env).1.screenSamples == 1
    requires IsDue(s, trackers[j], now) && env.inFocus(trackers[j].id)
    ensures var t, latest := trackers[j], PollDue(trackers, s, now, env).0.latest;
      && t.id in latest
      && (latest[t.id] == Inactive(ConditionInactive) <==> !Matches(t.condition.value, latest))
  {
    var t := trackers[j];
    var i :| 0 <= i < j && trackers[i].id == t.condition.value.trackerId;
    ActiveSplit(trackers, s, now, env.inFocus, j);
    LaterTrackersDiffer(trackers, s, now, env.inFocus, i, j);
    LaterTrackersDiffer(trackers, s, now, env.inFocus, j, j);
    var s1 := MarkedInactive(s, InScope(DueTrackers(trackers, s, now), env.inFocus, false), FocusInactive, now);
    PassSettles(s1, ActiveDue(trackers[..j], s, now, env.inFocus), t,
                ActiveDue(trackers[j + 1..], s, now, env.inFocus), env.capture.value, now);
  }

  // ---- timing ----

  lemma {:induction false} NextDueMeaning(trackers: seq<Tracker>, s: Poller, now: nat)
    ensures NextDueIn(trackers, s, now).None? <==> trackers == []
    ensures trackers != [] ==>
      && (forall t :: t in trackers ==> NextDueIn(trackers, s, now).value <= DueIn(s, t, now))
      && exists t :: t in trackers && NextDueIn(trackers, s, now).value == DueIn(s, t, now)
  {
    if trackers != [] {
      NextDueMeaning(trackers[1..], s, now);
      assert forall t :: t in trackers <==> t == trackers[0] || t in trackers[1..];
    }
  }

  lemma {:induction false} NoneDue(trackers: seq<Tracker>, s: Poller, now: nat)
    requires forall t :: t in trackers ==> !IsDue(s, t, now)
    ensures DueTrackers(trackers, s, now) == []
  {
    if trackers != [] {
      assert trackers[0] in trackers;
      assert forall t :: t in trackers[1..] ==> t in trackers;
      NoneDue(trackers[1..], s, now);
    }
  }

  /** The wait is zero exactly when a poll at this time would find a due tracker. */
  lemma {:induction false} DueNowIffZero(trackers: seq<Tracker>, s: Poller, now: nat)
    ensures NextDueIn(trackers, s, now) == Some(0) <==> DueTrackers(trackers, s, now) != []
  {
    NextDueMeaning(trackers, s, now);
    DueMembers(trackers, s, now);
    if t :| t in trackers && DueIn(s, t, now) == 0 {
      assert IsDue(s, t, now);
    }
    if DueTrackers(trackers, s, now) != [] {
      assert DueTrackers(trackers, s, now)[0] in DueTrackers(trackers, s, now);
    }
  }

  lemma NotDueYet(s: Poller, t: Tracker, now: nat, later: nat)
    requires now <= later < now + DueIn(s, t, now)
    ensures !IsDue(s, t, later)
  {
  }

  /** No tracker becomes due before the wait is over. */
  lemma {:induction false} NothingDueBefore(trackers: seq<Tracker>, s: Poller, now: nat, later: nat)
    requires trackers != [] && now <= later < now + NextDueIn(trackers, s, now).value
    ensures DueTrackers(trackers, s, later) == []
  {
    hide IsDue;
    hide DueIn;
    NextDueMeaning(trackers, s, now);
    forall t | t in trackers ensures !IsDue(s, t, later) {
      NotDueYet(s, t, now, later);
    }
    NoneDue(trackers, s, later);
  }

  lemma DueWhenWaited(s: Poller, t: Tracker, now: nat)
    requires t.id in s.lastPoll ==> s.lastPoll[t.id] <= now
    ensures IsDue(s, t, now + DueIn(s, t, now))
  {
  }

  /** When no poll lies in the future, some tracker is due as soon as the wait is over. */
  lemma {:induction false} SomethingDueAfter(trackers: seq<Tracker>, s: Poller, now: nat)
    requires trackers != [] && forall id :: id in s.lastPoll ==> s.lastPoll[id] <= now
    ensures DueTrackers(trackers, s, now + NextDueIn(trackers, s, now).value) != []
  {
    hide IsDue;
    hide DueIn;
    hide DueTrackers;
    NextDueMeaning(trackers, s, now);
    var v := NextDueIn(trackers, s, now).value;
    var t :| t in trackers && v == DueIn(s, t, now);
    DueWhenWaited(s, t, now);
    DueMembers(trackers, s, now + v);
  }

  /** The trackers are stamped with this poll, and no other time is touched. */
  ghost predicate Stamped(s: Poller, s': Poller, trackers: seq<Tracker>, now: nat) {
    && (forall t :: t in trackers ==> t.id in s'.lastPoll && s'.lastPoll[t.id] == now)
    && (forall id :: NoneHas(trackers, id) ==>
          (id in s.lastPoll <==> id in s'.lastPoll) && (id in s.lastPoll ==> s.lastPoll[id] == s'.lastPoll[id]))
  }

  lemma StampedCons(s: Poller, s1: Poller, s2: Poller, trackers: seq<Tracker>, now: nat)
    requires trackers != [] && s1.lastPoll == s.lastPoll[trackers[0].id := now]
    requires Stamped(s1, s2, trackers[1..], now)
    ensures Stamped(s, s2, trackers, now)
  {
    assert forall t :: t in trackers <==> t == trackers[0] || t in trackers[1..];
    forall t | t in trackers ensures t.id in s2.lastPoll && s2.lastPoll[t.id] == now {
      if t !in trackers[1..] && !NoneHas(trackers[1..], t.id) {
        var u :| u in trackers[1..] && u.id == t.id;
      }
    }
  }

  lemma {:induction false} MarkedStamps(s: Poller, trackers: seq<Tracker>, reason: Inactivity, now: nat)
    ensures Stamped(s, MarkedInactive(s, trackers, reason, now), trackers, now)
    decreases |trackers|
  {
    if trackers != [] {
      var s1 := Updated(s, trackers[0].id, Inactive(reason), now);
      MarkedStamps(s1, trackers[1..], reason, now);
      StampedCons(s, s1, MarkedInactive(s1, trackers[1..], reason, now), trackers, now);
    }
  }

  lemma SampledStamps(s: Poller, tracker: Tracker, capture: Capture, now: nat)
    ensures Sampled(s, tracker, capture, now).lastPoll == s.lastPoll[tracker.id := now]
  {
  }

  lemma {:induction false} PassStamps(s: Poller, trackers: seq<Tracker>, capture: Capture, now: nat)
    ensures Stamped(s, Pass(s, trackers, capture, now), trackers, now)
    decreases |trackers|
  {
    if trackers != [] {
      hide Sampled;
      SampledStamps(s, trackers[0], capture, now);
      var s1 := Sampled(s, trackers[0], capture, now);
      PassStamps(s1, trackers[1..], capture, now);
      StampedCons(s, s1, Pass(s1, trackers[1..], capture, now), trackers, now);
    }
  }

  lemma StampedBoth(s: Poller, s1: Poller, s2: Poller, a: seq<Tracker>, b: seq<Tracker>, all: seq<Tracker>, now: nat)
    requires Stamped(s, s1, a, now) && Stamped(s1, s2, b, now)
    requires forall t :: t in all <==> t in a || t in b
    ensures Stamped(s, s2, all, now)
  {
    forall t | t in all ensures t.id in s2.lastPoll && s2.lastPoll[t.id] == now {
      if t !in b && !NoneHas(b, t.id) {
        var u :| u in b && u.id == t.id;
      }
    }
  }

  /** On every path a poll stamps exactly the due trackers. */
  lemma {:induction false} PollStamps(trackers: seq<Tracker>, s: Poller, now: nat, env: Surroundings)
    ensures Stamped(s, PollDue(trackers, s, now, env).0, DueTrackers(trackers, s, now), now)
  {
    hide Stamped;
    var due := DueTrackers(trackers, s, now);
    var active, inactive := InScope(due, env.inFocus, true), InScope(due, env.inFocus, false);
    ScopeMembers(due, env.inFocus, true);
    ScopeMembers(due, env.inFocus, false);
    MarkedStamps(s, [], FocusInactive, now);
    if due == [] {
    } else if env.blocked.Some? {
      MarkedStamps(s, due, env.blocked.value, now);
    } else {
      var s1 := MarkedInactive(s, inactive, FocusInactive, now);
      MarkedStamps(s, inactive, FocusInactive, now);
      MarkedStamps(s1, active, NoReadableSample, now);
      if env.capture.Some? {
        PassStamps(s1, active, env.capture.value, now);
      }
      StampedBoth(s, s1, PollDue(trackers, s, now, env).0, inactive, active, due, now);
    }
  }

  /** After any poll, on every path, the next due time is strictly in the future. */
  lemma NextDueAfterPoll(trackers: seq<Tracker>, s: Poller, now: nat, env: Surroundings)
    requires Accepted(trackers) && trackers != []
    ensures NextDueIn(trackers, PollDue(trackers, s, now, env).0, now).value > 0
  {
    var s' := PollDue(trackers, s, now, env).0;
    PollStamps(trackers, s, now, env);
    DueMembers(trackers, s, now);
    NextDueMeaning(trackers, s', now);
    forall t | t in trackers ensures DueIn(s', t, now) > 0 {
      if !IsDue(s, t, now) {
        forall u | u in DueTrackers(trackers, s, now) ensures u.id != t.id {
          assert IsDue(s, u, now);
          DistinctIds(trackers, t, u);
        }
        assert NoneHas(DueTrackers(trackers, s, now), t.id);
      }
    }
  }

  lemma DistinctIds(trackers: seq<Tracker>, t: Tracker, u: Tracker)
    requires UniqueIds(trackers) && t in trackers && u in trackers && t != u
    ensures t.id != u.id
  {
  }

  // ---- one update for each due tracker ----

  lemma IdListCons(t: Tracker, rest: seq<Tracker>)
    ensures IdList([t] + rest) == [t.id] + IdList(rest)
  {
  }

  lemma {:induction false} ScopeSplitsIds(trackers: seq<Tracker>, inFocus: string -> bool)
    ensures multiset(IdList(InScope(trackers, inFocus, false))) + multiset(IdList(InScope(trackers, inFocus, true)))
            == multiset(IdList(trackers))
  {
    if trackers != [] {
      hide IdList;
      var t, rest := trackers[0], trackers[1..];
      ScopeSplitsIds(rest, inFocus);
      assert trackers == [t] + rest;
      IdListCons(t, rest);
      IdListCons(t, InScope(rest, inFocus, inFocus(t.id)));
      assert [] + InScope(rest, inFocus, !inFocus(t.id)) == InScope(rest, inFocus, !inFocus(t.id));
    }
  }

  lemma UniqueTail(trackers: seq<Tracker>)
    requires UniqueIds(trackers) && trackers != []
    ensures UniqueIds(trackers[1..])
    ensures forall t :: t in trackers[1..] ==> t.id != trackers[0].id
  {
    forall i, j | 0 <= i < j < |trackers[1..]| ensures trackers[1..][i].id != trackers[1..][j].id {
      assert trackers[1..][i] == trackers[i + 1] && trackers[1..][j] == trackers[j + 1];
    }
    forall t | t in trackers[1..] ensures t.id != trackers[0].id {
      var k :| 0 <= k < |trackers[1..]| && trackers[1..][k] == t;
      assert trackers[k + 1] == t;
    }
  }

  lemma {:induction false} DueKeepsUnique(trackers: seq<Tracker>, s: Poller, now: nat)
    requires UniqueIds(trackers)
    ensures UniqueIds(DueTrackers(trackers, s, now))
  {
    if trackers != [] {
      UniqueTail(trackers);
      DueKeepsUnique(trackers[1..], s, now);
      DueMembers(trackers[1..], s, now);
    }
  }

  lemma {:induction false} UniqueIdCounts(trackers: seq<Tracker>, id: string)
    requires UniqueIds(trackers)
    ensures multiset(IdList(trackers))[id] <= 1
    ensures multiset(IdList(trackers))[id] == 1 <==> !NoneHas(trackers, id)
  {
    if trackers != [] {
      hide IdList;
      hide UniqueIds;
      UniqueTail(trackers);
      UniqueIdCounts(trackers[1..], id);
      assert trackers == [trackers[0]] + trackers[1..];
      IdListCons(trackers[0], trackers[1..]);
    }
  }

  /**
   On every path a poll counts the due trackers, and it reports a sample exactly when the screen may be
   read, some due tracker is in focus and the capture succeeds.
  */
  lemma PollCounts(trackers: seq<Tracker>, s: Poller, now: nat, env: Surroundings)
    ensures var due, outcome := DueTrackers(trackers, s, now), PollDue(trackers, s, now, env).1;
      && outcome.dueTrackers == |due|
      && outcome.screenSamples ==
           if env.blocked.None? && env.capture.Some? && (exists t :: t in due && env.inFocus(t.id)) then 1 else 0
  {
    var due := DueTrackers(trackers, s, now);
    var active := InScope(due, env.inFocus, true);
    ScopeMembers(due, env.inFocus, true);
    if active != [] {
      assert active[0] in active;
    }
  }

  /** On every path the reported ids are the due ids, rearranged. */
  lemma UpdatedIsDue(trackers: seq<Tracker>, s: Poller, now: nat, env: Surroundings)
    ensures multiset(PollDue(trackers, s, now, env).1.updated) == multiset(IdList(DueTrackers(trackers, s, now)))
  {
    hide IdList;
    hide DueTrackers;
    hide MarkedInactive;
    hide Pass;
    var due := DueTrackers(trackers, s, now);
    ScopeSplitsIds(due, env.inFocus);
    NoIds();
  }

  lemma NoIds()
    ensures IdList([]) == []
  {
  }

  /** Each due tracker is reported exactly once and no other is reported. */
  lemma {:induction false} UpdatedOnceEach(trackers: seq<Tracker>, s: Poller, now: nat, env: Surroundings, id: string)
    requires UniqueIds(trackers)
    ensures var due, updated := DueTrackers(trackers, s, now), PollDue(trackers, s, now, env).1.updated;
      multiset(updated)[id] == if NoneHas(due, id) then 0 else 1
  {
    hide PollDue;
    UpdatedIsDue(trackers, s, now, env);
    DueKeepsUnique(trackers, s, now);
    UniqueIdCounts(DueTrackers(trackers, s, now), id);
  }
}

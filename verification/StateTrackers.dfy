/**
 State tracker definitions and the poller (crates/signal-auras-core/src/screen_state.rs:580-650,
 1500-1706).

 Given to each poll from outside: whether the screen may be read, which scopes are in focus, whether
 a sample could be captured, and what each detector sees in it.
*/
module StateTrackers {
  import opened Wrappers
  import opened CooldownHistory

  datatype Condition = Condition(trackerId: string, phase: Phase)

  datatype Detector = Radial(prediction: Option<Prediction>) | ProgressBar

  datatype Tracker = Tracker(id: string, pollMs: nat, detector: Detector, condition: Option<Condition>)

  datatype Inactivity = ScreenReadDenied | ScreenReadUnsupported | FocusInactive | ConditionInactive | NoReadableSample

  datatype TrackerState =
    | RadialCooldown(
        phase: Phase, ready: bool, fraction: nat, remainingMs: Option<nat>, totalMs: Option<nat>,
        predictedRemainingMs: Option<nat>, predictedDurationMs: Option<nat>)
    | ProgressBarState(visible: bool, percent: nat)
    | Inactive(reason: Inactivity)

  datatype DefinitionError = DuplicateId | DependsOnItself | MissingSource | SourceNotDeclaredFirst

  // ---- accepted definitions ----

  ghost predicate UniqueIds(trackers: seq<Tracker>) {
    forall i, j :: 0 <= i < j < |trackers| ==> trackers[i].id != trackers[j].id
  }

  /** Some tracker among the first `n` has this id. */
  ghost predicate Declared(trackers: seq<Tracker>, n: nat, id: string)
    requires n <= |trackers|
  {
    exists i :: 0 <= i < n && trackers[i].id == id
  }

  /** Every condition names a tracker declared before its own. */
  ghost predicate SourcesFirst(trackers: seq<Tracker>) {
    forall j :: 0 <= j < |trackers| && trackers[j].condition.Some? ==>
      Declared(trackers, j, trackers[j].condition.value.trackerId)
  }

  /** The set is accepted; every tracker has a positive period, as its definition demands. */
  ghost predicate Accepted(trackers: seq<Tracker>) {
    && UniqueIds(trackers)
    && SourcesFirst(trackers)
    && forall i :: 0 <= i < |trackers| ==> trackers[i].pollMs > 0
  }

  /** `ids` is exactly the ids of the first `n` trackers. */
  ghost predicate IdsOf(trackers: seq<Tracker>, n: nat, ids: set<string>)
    requires n <= |trackers|
  {
    forall id :: id in ids <==> Declared(trackers, n, id)
  }

  lemma IdsOfNext(trackers: seq<Tracker>, n: nat, ids: set<string>)
    requires n < |trackers| && IdsOf(trackers, n, ids)
    ensures IdsOf(trackers, n + 1, ids + {trackers[n].id})
  {
    forall id ensures id in ids + {trackers[n].id} <==> Declared(trackers, n + 1, id) {
      if Declared(trackers, n, id) {
        var i :| 0 <= i < n && trackers[i].id == id;
        assert trackers[i].id == id && i < n + 1;
      }
      if id == trackers[n].id {
        assert n < n + 1;
      }
    }
  }

  method CollectIds(trackers: seq<Tracker>) returns (seen: Option<set<string>>)
    ensures seen.Some? <==> UniqueIds(trackers)
    ensures seen.Some? ==> IdsOf(trackers, |trackers|, seen.value)
  {
    var ids: set<string> := {};
    for i := 0 to |trackers|
      invariant forall j, k :: 0 <= j < k < i ==> trackers[j].id != trackers[k].id
      invariant IdsOf(trackers, i, ids)
    {
      if trackers[i].id in ids {
        var j :| 0 <= j < i && trackers[j].id == trackers[i].id;
        return None;
      }
      assert forall j :: 0 <= j < i ==> Declared(trackers, i, trackers[j].id);
      IdsOfNext(trackers, i, ids);
      ids := ids + {trackers[i].id};
    }
    seen := Some(ids);
  }

  method CheckSources(trackers: seq<Tracker>, seen: set<string>) returns (error: Option<DefinitionError>)
    requires UniqueIds(trackers) && IdsOf(trackers, |trackers|, seen)
    ensures error.None? <==> SourcesFirst(trackers)
    ensures error != Some(DuplicateId)
  {
    var declaredBefore: set<string> := {};
    for i := 0 to |trackers|
      invariant IdsOf(trackers, i, declaredBefore)
      invariant forall j :: 0 <= j < i && trackers[j].condition.Some? ==>
        Declared(trackers, j, trackers[j].condition.value.trackerId)
    {
      if trackers[i].condition.Some? {
        var source := trackers[i].condition.value.trackerId;
        if source == trackers[i].id {
          return Some(DependsOnItself);
        }
        if source !in seen {
          return Some(MissingSource);
        }
        if source !in declaredBefore {
          return Some(SourceNotDeclaredFirst);
        }
      }
      IdsOfNext(trackers, i, declaredBefore);
      declaredBefore := declaredBefore + {trackers[i].id};
    }
    error := None;
  }

  /** `StateTrackerDefinitionSet::new`: accepted exactly when ids are unique and sources come first. */
  method NewDefinitionSet(trackers: seq<Tracker>) returns (error: Option<DefinitionError>)
    ensures error.None? <==> UniqueIds(trackers) && SourcesFirst(trackers)
    ensures error == Some(DuplicateId) <==> !UniqueIds(trackers)
  {
    var seen := CollectIds(trackers);
    if seen.None? {
      return Some(DuplicateId);
    }
    error := CheckSources(trackers, seen.value);
  }

  // ---- polling ----

  /** What one captured sample shows to each tracker. */
  datatype Capture = Capture(at: nat, confidence: nat, radial: string -> Option<Sighting>, percent: string -> Option<nat>)

  /** The phase and fraction a radial detector reads; it reads nothing from an unreadable sample. */
  datatype Sighting = Sighting(phase: Phase, fraction: nat)

  /** What a poll is told: a reason why the screen may not be read, the scopes in focus, the sample. */
  datatype Surroundings = Surroundings(
    blocked: Option<Inactivity>, inFocus: string -> bool, capture: Option<Capture>)

  datatype Poller = Poller(lastPoll: map<string, nat>, latest: map<string, TrackerState>, history: map<string, History>)

  datatype PollOutcome = PollOutcome(dueTrackers: nat, screenSamples: nat, updated: seq<string>)

  predicate IsDue(s: Poller, tracker: Tracker, now: nat) {
    tracker.id !in s.lastPoll || SatSub(now, s.lastPoll[tracker.id]) >= tracker.pollMs
  }

  function DueTrackers(trackers: seq<Tracker>, s: Poller, now: nat): seq<Tracker> {
    if trackers == [] then []
    else (if IsDue(s, trackers[0], now) then [trackers[0]] else []) + DueTrackers(trackers[1..], s, now)
  }

  function InScope(trackers: seq<Tracker>, inFocus: string -> bool, wanted: bool): seq<Tracker> {
    if trackers == [] then []
    else (if inFocus(trackers[0].id) == wanted then [trackers[0]] else []) + InScope(trackers[1..], inFocus, wanted)
  }

  function IdList(trackers: seq<Tracker>): (r: seq<string>)
    ensures |r| == |trackers|
    ensures forall i :: 0 <= i < |trackers| ==> r[i] == trackers[i].id
  {
    seq(|trackers|, i requires 0 <= i < |trackers| => trackers[i].id)
  }

  function Updated(s: Poller, id: string, state: TrackerState, now: nat): Poller {
    s.(latest := s.latest[id := state], lastPoll := s.lastPoll[id := now])
  }

  function MarkedInactive(s: Poller, trackers: seq<Tracker>, reason: Inactivity, now: nat): Poller
    decreases |trackers|
  {
    if trackers == [] then s
    else MarkedInactive(Updated(s, trackers[0].id, Inactive(reason), now), trackers[1..], reason, now)
  }

  predicate Matches(c: Condition, latest: map<string, TrackerState>) {
    && c.trackerId in latest
    && latest[c.trackerId].RadialCooldown?
    && latest[c.trackerId].phase == c.phase
  }

  function HistoryOf(s: Poller, id: string): History {
    if id in s.history then s.history[id] else NO_HISTORY
  }

  /** `detect_radial_cooldown_with_roi`: what is seen, recorded and reported. */
  function DetectRadial(h: History, prediction: Option<Prediction>, capture: Capture, id: string): (History, TrackerState) {
    match capture.radial(id)
    case None => (h, Inactive(NoReadableSample))
    case Some(seen) =>
      var fraction := if seen.fraction > 100 then 100 else seen.fraction;
      var sample := Sample(capture.at, seen.phase, fraction);
      var total := TotalAfter(h, sample);
      var predicted := Predicted(h, sample, prediction);
      var ready := seen.phase == IsReady;
      (Recorded(h, sample),
       RadialCooldown(
         seen.phase, ready, if ready then 0 else fraction,
         if ready then Some(0)
         else if seen.phase == Unknown || total.None? then None
         else Some(SatMul(total.value, fraction) / 100),
         total, predicted,
         if predicted.Some? && prediction.Some? then Some(prediction.value.durationMs) else None))
  }

  function DetectBar(capture: Capture, id: string): TrackerState {
    match capture.percent(id)
    case None => ProgressBarState(false, 0)
    case Some(percent) => ProgressBarState(capture.confidence >= 50, if percent > 100 then 100 else percent)
  }

  /** What the pass does for one due tracker in scope. */
  function Sampled(s: Poller, tracker: Tracker, capture: Capture, now: nat): Poller {
    if tracker.condition.Some? && !Matches(tracker.condition.value, s.latest) then
      Updated(s, tracker.id, Inactive(ConditionInactive), now)
    else
      match tracker.detector
      case Radial(prediction) =>
        var (history, state) := DetectRadial(HistoryOf(s, tracker.id), prediction, capture, tracker.id);
        Updated(s.(history := s.history[tracker.id := history]), tracker.id, state, now)
      case ProgressBar => Updated(s, tracker.id, DetectBar(capture, tracker.id), now)
  }

  /** One pass over the due trackers in scope, in declaration order. */
  function Pass(s: Poller, trackers: seq<Tracker>, capture: Capture, now: nat): Poller
    decreases |trackers|
  {
    if trackers == [] then s else Pass(Sampled(s, trackers[0], capture, now), trackers[1..], capture, now)
  }

  function PollDue(trackers: seq<Tracker>, s: Poller, now: nat, env: Surroundings): (Poller, PollOutcome) {
    var due := DueTrackers(trackers, s, now);
    if due == [] then (s, PollOutcome(0, 0, []))
    else if env.blocked.Some? then
      (MarkedInactive(s, due, env.blocked.value, now), PollOutcome(|due|, 0, IdList(due)))
    else
      var active, inactive := InScope(due, env.inFocus, true), InScope(due, env.inFocus, false);
      var s1 := MarkedInactive(s, inactive, FocusInactive, now);
      if active == [] then (s1, PollOutcome(|due|, 0, IdList(inactive)))
      else
        match env.capture
        case None =>
          (MarkedInactive(s1, active, NoReadableSample, now),
           PollOutcome(|due|, 0, IdList(inactive) + IdList(active)))
        case Some(capture) =>
          (Pass(s1, active, capture, now), PollOutcome(|due|, 1, IdList(inactive) + IdList(active)))
  }

  /** How long until a tracker is due; `None` when there are no trackers. */
  function NextDueIn(trackers: seq<Tracker>, s: Poller, now: nat): Option<nat> {
    if trackers == [] then None
    else
      var first := DueIn(s, trackers[0], now);
      match NextDueIn(trackers[1..], s, now)
      case None => Some(first)
      case Some(rest) => Some(if first <= rest then first else rest)
  }

  function DueIn(s: Poller, tracker: Tracker, now: nat): nat {
    if tracker.id !in s.lastPoll then 0
    else SatSub(tracker.pollMs, SatSub(now, s.lastPoll[tracker.id]))
  }

  lemma {:induction false} DueTrackersFrom(trackers: seq<Tracker>, s: Poller, now: nat, i: nat)
    requires i < |trackers|
    ensures DueTrackers(trackers[..i + 1], s, now) ==
      DueTrackers(trackers[..i], s, now) + if IsDue(s, trackers[i], now) then [trackers[i]] else []
  {
    if i == 0 {
      assert trackers[..1] == [trackers[0]];
    } else {
      DueTrackersFrom(trackers[1..], s, now, i - 1);
      assert trackers[..i + 1][1..] == trackers[1..][..i] && trackers[..i][1..] == trackers[1..][..i - 1];
      assert trackers[1..][i - 1] == trackers[i];
    }
  }

  lemma {:induction false} InScopeFrom(trackers: seq<Tracker>, inFocus: string -> bool, wanted: bool, i: nat)
    requires i < |trackers|
    ensures InScope(trackers[..i + 1], inFocus, wanted) ==
      InScope(trackers[..i], inFocus, wanted) + if inFocus(trackers[i].id) == wanted then [trackers[i]] else []
  {
    if i == 0 {
      assert trackers[..1] == [trackers[0]];
    } else {
      InScopeFrom(trackers[1..], inFocus, wanted, i - 1);
      assert trackers[..i + 1][1..] == trackers[1..][..i] && trackers[..i][1..] == trackers[1..][..i - 1];
      assert trackers[1..][i - 1] == trackers[i];
    }
  }

  /** The poller as the object the source updates in place. */
  class StateTrackerPoller {
    const trackers: seq<Tracker>
    var lastPollMs: map<string, nat>
    var latest: map<string, TrackerState>
    var cooldownHistory: map<string, History>

    function State(): Poller
      reads this
    {
      Poller(lastPollMs, latest, cooldownHistory)
    }

    constructor (trackers: seq<Tracker>)
      ensures this.trackers == trackers && State() == Poller(map[], map[], map[])
    {
      this.trackers := trackers;
      lastPollMs, latest, cooldownHistory := map[], map[], map[];
    }

    method SetState(id: string, state: TrackerState, now: nat)
      modifies this`latest, this`lastPollMs
      ensures State() == Updated(old(State()), id, state, now)
    {
      latest := latest[id := state];
      lastPollMs := lastPollMs[id := now];
    }

    method MarkInactive(due: seq<Tracker>, reason: Inactivity, now: nat)
      modifies this`latest, this`lastPollMs
      ensures State() == MarkedInactive(old(State()), due, reason, now)
    {
      for i := 0 to |due|
        invariant MarkedInactive(State(), due[i..], reason, now) == MarkedInactive(old(State()), due, reason, now)
      {
        SetState(due[i].id, Inactive(reason), now);
        assert due[i..][1..] == due[i + 1..];
      }
    }

    method CollectDue(now: nat) returns (due: seq<Tracker>)
      ensures due == DueTrackers(trackers, State(), now)
    {
      due := [];
      for i := 0 to |trackers|
        invariant due == DueTrackers(trackers[..i], State(), now)
      {
        DueTrackersFrom(trackers, State(), now, i);
        if trackers[i].id !in lastPollMs || SatSub(now, lastPollMs[trackers[i].id]) >= trackers[i].pollMs {
          due := due + [trackers[i]];
        }
      }
      assert trackers[..|trackers|] == trackers;
    }

    method SplitByScope(due: seq<Tracker>, inFocus: string -> bool) returns (active: seq<Tracker>, inactive: seq<Tracker>)
      ensures active == InScope(due, inFocus, true) && inactive == InScope(due, inFocus, false)
    {
      active, inactive := [], [];
      for i := 0 to |due|
        invariant active == InScope(due[..i], inFocus, true)
        invariant inactive == InScope(due[..i], inFocus, false)
      {
        InScopeFrom(due, inFocus, true, i);
        InScopeFrom(due, inFocus, false, i);
        if inFocus(due[i].id) {
          active := active + [due[i]];
        } else {
          inactive := inactive + [due[i]];
        }
      }
      assert due[..|due|] == due;
    }

    /** The body of the sampling pass for one tracker. */
    method SampleTracker(tracker: Tracker, capture: Capture, now: nat)
      modifies this
      ensures State() == Sampled(old(State()), tracker, capture, now)
    {
      if tracker.condition.Some? && !Matches(tracker.condition.value, latest) {
        SetState(tracker.id, Inactive(ConditionInactive), now);
        return;
      }
      match tracker.detector {
        case Radial(prediction) =>
          var history := if tracker.id in cooldownHistory then cooldownHistory[tracker.id] else NO_HISTORY;
          var (recorded, state) := DetectRadial(history, prediction, capture, tracker.id);
          cooldownHistory := cooldownHistory[tracker.id := recorded];
          SetState(tracker.id, state, now);
        case ProgressBar =>
          SetState(tracker.id, DetectBar(capture, tracker.id), now);
      }
    }

    method SampleAll(active: seq<Tracker>, capture: Capture, now: nat)
      modifies this
      ensures State() == Pass(old(State()), active, capture, now)
    {
      for i := 0 to |active|
        invariant Pass(State(), active[i..], capture, now) == Pass(old(State()), active, capture, now)
      {
        SampleTracker(active[i], capture, now);
        assert active[i..][1..] == active[i + 1..];
      }
    }

    /** `poll_due`; at most one sample is captured, and only when some due tracker is in scope. */
    method Poll(now: nat, env: Surroundings) returns (outcome: PollOutcome)
      modifies this
      ensures (State(), outcome) == PollDue(trackers, old(State()), now, env)
    {
      var due := CollectDue(now);
      if due == [] {
        return PollOutcome(0, 0, []);
      }
      if env.blocked.Some? {
        MarkInactive(due, env.blocked.value, now);
        return PollOutcome(|due|, 0, IdList(due));
      }
      var active, inactive := SplitByScope(due, env.inFocus);
      MarkInactive(inactive, FocusInactive, now);
      var updated := IdList(inactive);
      if active == [] {
        return PollOutcome(|due|, 0, updated);
      }
      if env.capture.None? {
        MarkInactive(active, NoReadableSample, now);
        return PollOutcome(|due|, 0, updated + IdList(active));
      }
      SampleAll(active, env.capture.value, now);
      outcome := PollOutcome(|due|, 1, updated + IdList(active));
    }
  }
}

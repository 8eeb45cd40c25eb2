/**
 The cooldown histories a poller keeps, over any sequence of polls: each is the history of the samples
 that its tracker reported, and what the poller predicts follows the active run of those samples.
*/
module TrackerHistories {
  import opened Wrappers
  import opened CooldownHistory
  import opened StateTrackers
  import opened TrackerTheorems

  /** One poll: when, and what it is told. */
  datatype Poll = Poll(now: nat, env: Surroundings)

  const NEW_POLLER: Poller := Poller(map[], map[], map[])

  function AfterPolls(trackers: seq<Tracker>, polls: seq<Poll>): Poller {
    if polls == [] then NEW_POLLER
    else
      var last := polls[|polls| - 1];
      PollDue(trackers, AfterPolls(trackers, polls[..|polls| - 1]), last.now, last.env).0
  }

  function SampleOf(capture: Capture, seen: Sighting): Sample {
    Sample(capture.at, seen.phase, if seen.fraction > 100 then 100 else seen.fraction)
  }

  /** The sample the tracker reported in a poll: it was due, and the poll left it in a cooldown state. */
  function SampleTaken(trackers: seq<Tracker>, s: Poller, poll: Poll, t: Tracker): Option<Sample> {
    var s' := PollDue(trackers, s, poll.now, poll.env).0;
    if IsDue(s, t, poll.now) && t.id in s'.latest && s'.latest[t.id].RadialCooldown? && poll.env.capture.Some?
    then
      match poll.env.capture.value.radial(t.id)
      case None => None
      case Some(seen) => Some(SampleOf(poll.env.capture.value, seen))
    else None
  }

  /** The samples the tracker has reported, in order. */
  function SamplesOf(trackers: seq<Tracker>, polls: seq<Poll>, t: Tracker): seq<Sample> {
    if polls == [] then []
    else
      var before, last := polls[..|polls| - 1], polls[|polls| - 1];
      SamplesOf(trackers, before, t) +
        match SampleTaken(trackers, AfterPolls(trackers, before), last, t)
        case None => []
        case Some(sample) => [sample]
  }

  // ---- one poll ----

  lemma {:induction false} MarkedHistory(s: Poller, trackers: seq<Tracker>, reason: Inactivity, now: nat)
    ensures MarkedInactive(s, trackers, reason, now).history == s.history
    ensures forall t :: t in trackers ==>
      var latest := MarkedInactive(s, trackers, reason, now).latest; t.id in latest && latest[t.id] == Inactive(reason)
    ensures forall id :: NoneHas(trackers, id) ==> SameLatest(s, MarkedInactive(s, trackers, reason, now), id)
    decreases |trackers|
  {
    if trackers != [] {
      var s1, rest := Updated(s, trackers[0].id, Inactive(reason), now), trackers[1..];
      MarkedHistory(s1, rest, reason, now);
      var latest := MarkedInactive(s1, rest, reason, now).latest;
      forall t | t in trackers ensures t.id in latest && latest[t.id] == Inactive(reason) {
        if t !in rest {
          if NoneHas(rest, t.id) {
            assert SameLatest(s1, MarkedInactive(s1, rest, reason, now), t.id);
          } else {
            var u :| u in rest && u.id == t.id;
          }
        }
      }
      forall id | NoneHas(trackers, id) ensures SameLatest(s, MarkedInactive(s1, rest, reason, now), id) {
        assert trackers[0] in trackers && forall t :: t in rest ==> t in trackers;
        assert NoneHas(rest, id);
      }
    }
  }

  /** The one tracker the pass samples: it records a sample exactly when it then reports a cooldown. */
  ghost predicate SampledOne(s: Poller, s': Poller, t: Tracker, capture: Capture) {
    && t.id in s'.latest
    && (if s'.latest[t.id].RadialCooldown? then
          && t.detector.Radial? && capture.radial(t.id).Some?
          && var sample := SampleOf(capture, capture.radial(t.id).value);
             && HistoryOf(s', t.id) == Recorded(HistoryOf(s, t.id), sample)
             && s'.latest[t.id].phase == sample.phase
             && s'.latest[t.id].totalMs == TotalAfter(HistoryOf(s, t.id), sample)
             && s'.latest[t.id].predictedRemainingMs == Predicted(HistoryOf(s, t.id), sample, t.detector.prediction)
        else HistoryOf(s', t.id) == HistoryOf(s, t.id))
  }

  lemma SampledHistory(s: Poller, t: Tracker, capture: Capture, now: nat)
    ensures SampledOne(s, Sampled(s, t, capture, now), t, capture)
    ensures forall id :: id != t.id ==> HistoryOf(Sampled(s, t, capture, now), id) == HistoryOf(s, id)
  {
    hide Recorded;
    hide TotalAfter;
    hide Predicted;
  }

  lemma {:induction false} PassHistory(s: Poller, trackers: seq<Tracker>, capture: Capture, now: nat, id: string)
    requires NoneHas(trackers, id)
    ensures HistoryOf(Pass(s, trackers, capture, now), id) == HistoryOf(s, id)
    decreases |trackers|
  {
    if trackers != [] {
      hide Sampled;
      assert trackers[0] in trackers && forall t :: t in trackers[1..] ==> t in trackers;
      SampledHistory(s, trackers[0], capture, now);
      PassHistory(Sampled(s, trackers[0], capture, now), trackers[1..], capture, now, id);
    }
  }

  lemma PassSamples(s: Poller, a: seq<Tracker>, t: Tracker, b: seq<Tracker>, capture: Capture, now: nat)
    requires NoneHas(a, t.id) && NoneHas(b, t.id)
    ensures SampledOne(s, Pass(s, a + [t] + b, capture, now), t, capture)
  {
    hide Sampled;
    hide Recorded;
    hide TotalAfter;
    hide Predicted;
    var s1 := Pass(s, a, capture, now);
    var s2 := Sampled(s1, t, capture, now);
    PassAppend(s, a + [t], b, capture, now);
    PassAppend(s, a, [t], capture, now);
    assert Pass(s1, [t], capture, now) == Pass(s2, [], capture, now) by { assert [t][1..] == []; }
    PassHistory(s, a, capture, now, t.id);
    SampledHistory(s1, t, capture, now);
    PassHistory(s2, b, capture, now, t.id);
    PassLeaves(s2, b, capture, now, t.id);
  }

  /** What a poll does to the history of a tracker, and what it then reports. */
  ghost predicate PolledOne(trackers: seq<Tracker>, s: Poller, poll: Poll, t: Tracker) {
    var s' := PollDue(trackers, s, poll.now, poll.env).0;
    match SampleTaken(trackers, s, poll, t)
    case None => HistoryOf(s', t.id) == HistoryOf(s, t.id)
    case Some(sample) =>
      && HistoryOf(s', t.id) == Recorded(HistoryOf(s, t.id), sample)
      && t.detector.Radial? && t.id in s'.latest && s'.latest[t.id].RadialCooldown?
      && s'.latest[t.id].phase == sample.phase
      && s'.latest[t.id].totalMs == TotalAfter(HistoryOf(s, t.id), sample)
      && s'.latest[t.id].predictedRemainingMs == Predicted(HistoryOf(s, t.id), sample, t.detector.prediction)
  }

  /** A tracker the poll does not sample keeps its history, and reports no cooldown if it was due. */
  lemma NotSampled(trackers: seq<Tracker>, s: Poller, poll: Poll, t: Tracker)
    requires UniqueIds(trackers) && t in trackers
    requires var due := DueTrackers(trackers, s, poll.now);
      poll.env.blocked.Some? || poll.env.capture.None? || t !in InScope(due, poll.env.inFocus, true)
    ensures PolledOne(trackers, s, poll, t)
  {
    hide Recorded;
    hide TotalAfter;
    hide Predicted;
    hide DueTrackers;
    hide MarkedInactive;
    hide InScope;
    var (now, env) := (poll.now, poll.env);
    var due := DueTrackers(trackers, s, now);
    var active, inactive := InScope(due, env.inFocus, true), InScope(due, env.inFocus, false);
    DueMembers(trackers, s, now);
    ScopeMembers(due, env.inFocus, true);
    ScopeMembers(due, env.inFocus, false);
    if due == [] {
    } else if env.blocked.Some? {
      MarkedHistory(s, due, env.blocked.value, now);
    } else {
      var s1 := MarkedInactive(s, inactive, FocusInactive, now);
      MarkedHistory(s, inactive, FocusInactive, now);
      MarkedHistory(s1, active, NoReadableSample, now);
      if t !in active {
        OthersDiffer(trackers, active, t);
        if env.capture.Some? {
          PassHistory(s1, active, env.capture.value, now, t.id);
          PassLeaves(s1, active, env.capture.value, now, t.id);
        }
      }
    }
  }

  lemma OthersDiffer(trackers: seq<Tracker>, some: seq<Tracker>, t: Tracker)
    requires UniqueIds(trackers) && t in trackers && t !in some
    requires forall u :: u in some ==> u in trackers
    ensures NoneHas(some, t.id)
  {
    forall u | u in some ensures u.id != t.id {
      DistinctIds(trackers, t, u);
    }
  }

  lemma PollHistory(trackers: seq<Tracker>, s: Poller, poll: Poll, j: nat)
    requires UniqueIds(trackers) && j < |trackers|
    ensures PolledOne(trackers, s, poll, trackers[j])
  {
    var t, env, now := trackers[j], poll.env, poll.now;
    var due := DueTrackers(trackers, s, now);
    DueMembers(trackers, s, now);
    ScopeMembers(due, env.inFocus, true);
    if env.blocked.Some? || env.capture.None? || t !in InScope(due, env.inFocus, true) {
      NotSampled(trackers, s, poll, t);
    } else {
      hide Pass;
      hide MarkedInactive;
      hide Recorded;
      hide TotalAfter;
      hide Predicted;
      hide DueTrackers;
      hide InScope;
      var a, b := ActiveDue(trackers[..j], s, now, env.inFocus), ActiveDue(trackers[j + 1..], s, now, env.inFocus);
      ActiveSplit(trackers, s, now, env.inFocus, j);
      EarlierTrackersDiffer(trackers, s, now, env.inFocus, j);
      LaterTrackersDiffer(trackers, s, now, env.inFocus, j, j);
      var inactive := InScope(due, env.inFocus, false);
      MarkedHistory(s, inactive, FocusInactive, now);
      var s1 := MarkedInactive(s, inactive, FocusInactive, now);
      PassSamples(s1, a, t, b, env.capture.value, now);
    }
  }

  lemma EarlierTrackersDiffer(trackers: seq<Tracker>, s: Poller, now: nat, inFocus: string -> bool, j: nat)
    requires UniqueIds(trackers) && j < |trackers|
    ensures NoneHas(ActiveDue(trackers[..j], s, now, inFocus), trackers[j].id)
  {
    ActiveMembers(trackers[..j], s, now, inFocus);
    forall t | t in trackers[..j] ensures t.id != trackers[j].id {
      var k :| 0 <= k < j && trackers[..j][k] == t;
      assert trackers[k] == t;
    }
  }

  // ---- what one poll reports ----

  /** What is left of a cooldown of this total, in the same unit, rounded down and below saturation. */
  ghost predicate LeftOf(remaining: nat, total: nat, fraction: nat) {
    var scaled := if total * fraction <= U64_MAX then total * fraction else U64_MAX;
    remaining * 100 <= scaled < (remaining + 1) * 100
  }

  /** What a radial detector reports of a sighting. */
  ghost predicate ReportsSighting(prediction: Option<Prediction>, seen: Sighting, state: TrackerState) {
    && state.RadialCooldown? && state.phase == seen.phase
    && (state.ready <==> seen.phase == IsReady)
    && var fraction := if seen.fraction > 100 then 100 else seen.fraction;
       && state.fraction == (if seen.phase == IsReady then 0 else fraction)
       && (seen.phase == IsReady ==> state.remainingMs == Some(0))
       && (seen.phase == Unknown || (seen.phase != IsReady && state.totalMs.None?) ==> state.remainingMs.None?)
       && (seen.phase !in {IsReady, Unknown} && state.totalMs.Some? ==>
             state.remainingMs.Some? && LeftOf(state.remainingMs.value, state.totalMs.value, fraction))
       && state.predictedDurationMs ==
          if state.predictedRemainingMs.Some? && prediction.Some? then Some(prediction.value.durationMs) else None
  }

  /** What a tracker that is sampled reports. */
  ghost predicate Reports(t: Tracker, capture: Capture, state: TrackerState) {
    match t.detector
    case Radial(prediction) =>
      (match capture.radial(t.id)
       case None => state == Inactive(NoReadableSample)
       case Some(seen) => ReportsSighting(prediction, seen, state))
    case ProgressBar =>
      match capture.percent(t.id)
      case None => state == ProgressBarState(false, 0)
      case Some(percent) =>
        state.ProgressBarState? && (state.visible <==> capture.confidence >= 50)
        && state.percent == if percent <= 100 then percent else 100
  }

  lemma LeftRounds(total: nat, fraction: nat)
    ensures LeftOf(SatMul(total, fraction) / 100, total, fraction)
  {
    DivisionRounds(SatMul(total, fraction), 100);
  }

  lemma RadialReports(h: History, prediction: Option<Prediction>, capture: Capture, id: string)
    ensures var state := DetectRadial(h, prediction, capture, id).1;
      match capture.radial(id)
      case None => state == Inactive(NoReadableSample)
      case Some(seen) => ReportsSighting(prediction, seen, state)
  {
    hide Recorded;
    hide TotalAfter;
    hide Predicted;
    hide LeftOf;
    hide SatMul;
    if capture.radial(id).Some? {
      var seen := capture.radial(id).value;
      var fraction := if seen.fraction > 100 then 100 else seen.fraction;
      var total := TotalAfter(h, Sample(capture.at, seen.phase, fraction));
      if total.Some? {
        LeftRounds(total.value, fraction);
      }
    }
  }

  lemma SampledReports(s: Poller, t: Tracker, capture: Capture, now: nat)
    ensures var latest := Sampled(s, t, capture, now).latest;
      && t.id in latest
      && if t.condition.Some? && !Matches(t.condition.value, s.latest) then latest[t.id] == Inactive(ConditionInactive)
         else Reports(t, capture, latest[t.id])
  {
    hide DetectRadial;
    hide ReportsSighting;
    if t.detector.Radial? {
      RadialReports(HistoryOf(s, t.id), t.detector.prediction, capture, t.id);
    }
  }

  lemma PassReports(s: Poller, a: seq<Tracker>, t: Tracker, b: seq<Tracker>, capture: Capture, now: nat)
    requires NoneHas(b, t.id) && (t.condition.Some? ==> t.condition.value.trackerId != t.id && NoneHas(b, t.condition.value.trackerId))
    ensures var latest := Pass(s, a + [t] + b, capture, now).latest;
      && t.id in latest
      && if t.condition.Some? && !Matches(t.condition.value, latest) then latest[t.id] == Inactive(ConditionInactive)
         else Reports(t, capture, latest[t.id])
  {
    hide Sampled;
    hide Reports;
    var s1 := Pass(s, a, capture, now);
    var s2 := Sampled(s1, t, capture, now);
    PassAppend(s, a + [t], b, capture, now);
    PassAppend(s, a, [t], capture, now);
    assert Pass(s1, [t], capture, now) == Pass(s2, [], capture, now) by { assert [t][1..] == []; }
    SampledReports(s1, t, capture, now);
    PassLeaves(s2, b, capture, now, t.id);
    SampledLatest(s1, t, capture, now);
    if t.condition.Some? {
      assert SameLatest(s1, s2, t.condition.value.trackerId);
      PassLeaves(s2, b, capture, now, t.condition.value.trackerId);
    }
  }

  /** Some tracker shows this phase of a cooldown. */
  ghost predicate Shows(latest: map<string, TrackerState>, id: string, phase: Phase) {
    id in latest && latest[id].RadialCooldown? && latest[id].phase == phase
  }

  /**
   What a tracker reports after a poll: what it did before when it was not due; otherwise why it is
   inactive, the first that applies of the reasons in the order of the poll, or what its detector reads.
  */
  ghost predicate PolledReport(t: Tracker, s: Poller, s': Poller, poll: Poll) {
    var (env, latest) := (poll.env, s'.latest);
    if !IsDue(s, t, poll.now) then SameLatest(s, s', t.id)
    else
      && t.id in latest
      && if env.blocked.Some? then latest[t.id] == Inactive(env.blocked.value)
         else if !env.inFocus(t.id) then latest[t.id] == Inactive(FocusInactive)
         else if env.capture.None? then latest[t.id] == Inactive(NoReadableSample)
         else if t.condition.Some? && !Shows(latest, t.condition.value.trackerId, t.condition.value.phase) then
           latest[t.id] == Inactive(ConditionInactive)
         else Reports(t, env.capture.value, latest[t.id])
  }

  lemma UnsampledReports(trackers: seq<Tracker>, s: Poller, poll: Poll, t: Tracker)
    requires UniqueIds(trackers) && t in trackers
    requires var due := DueTrackers(trackers, s, poll.now);
      poll.env.blocked.Some? || poll.env.capture.None? || t !in InScope(due, poll.env.inFocus, true)
    ensures PolledReport(t, s, PollDue(trackers, s, poll.now, poll.env).0, poll)
  {
    hide DueTrackers;
    hide MarkedInactive;
    hide InScope;
    hide IsDue;
    var (now, env) := (poll.now, poll.env);
    var due := DueTrackers(trackers, s, now);
    var active, inactive := InScope(due, env.inFocus, true), InScope(due, env.inFocus, false);
    DueMembers(trackers, s, now);
    ScopeMembers(due, env.inFocus, true);
    ScopeMembers(due, env.inFocus, false);
    if t !in due {
      OthersDiffer(trackers, due, t);
      OthersDiffer(trackers, active, t);
      OthersDiffer(trackers, inactive, t);
    }
    if due == [] {
    } else if env.blocked.Some? {
      MarkedHistory(s, due, env.blocked.value, now);
    } else {
      var s1 := MarkedInactive(s, inactive, FocusInactive, now);
      MarkedHistory(s, inactive, FocusInactive, now);
      MarkedHistory(s1, active, NoReadableSample, now);
      if t !in active {
        OthersDiffer(trackers, active, t);
        if env.capture.Some? {
          PassLeaves(s1, active, env.capture.value, now, t.id);
        }
      }
    }
  }

  lemma {:induction false} PollReports(trackers: seq<Tracker>, s: Poller, poll: Poll, j: nat)
    requires Accepted(trackers) && j < |trackers|
    ensures PolledReport(trackers[j], s, PollDue(trackers, s, poll.now, poll.env).0, poll)
  {
    hide DueTrackers;
    hide InScope;
    var t, env, now := trackers[j], poll.env, poll.now;
    var due := DueTrackers(trackers, s, now);
    DueMembers(trackers, s, now);
    ScopeMembers(due, env.inFocus, true);
    if env.blocked.Some? || env.capture.None? || t !in InScope(due, env.inFocus, true) {
      UnsampledReports(trackers, s, poll, t);
    } else {
      hide Pass;
      hide MarkedInactive;
      hide Reports;
      hide IsDue;
      var a, b := ActiveDue(trackers[..j], s, now, env.inFocus), ActiveDue(trackers[j + 1..], s, now, env.inFocus);
      ActiveSplit(trackers, s, now, env.inFocus, j);
      LaterTrackersDiffer(trackers, s, now, env.inFocus, j, j);
      if t.condition.Some? {
        var i :| 0 <= i < j && trackers[i].id == t.condition.value.trackerId;
        LaterTrackersDiffer(trackers, s, now, env.inFocus, i, j);
      }
      var s1 := MarkedInactive(s, InScope(due, env.inFocus, false), FocusInactive, now);
      PassReports(s1, a, t, b, env.capture.value, now);
    }
  }

  // ---- over any sequence of polls ----

  /** The history the poller keeps for a tracker is that of the samples the tracker has reported. */
  lemma {:induction false} HistoryIsOfSamples(trackers: seq<Tracker>, polls: seq<Poll>, j: nat)
    requires UniqueIds(trackers) && j < |trackers|
    ensures HistoryOf(AfterPolls(trackers, polls), trackers[j].id) ==
      AfterSamples(SamplesOf(trackers, polls, trackers[j]))
  {
    hide PollDue;
    hide Recorded;
    hide SampleTaken;
    if polls != [] {
      var before, last, t := polls[..|polls| - 1], polls[|polls| - 1], trackers[j];
      var s, samples := AfterPolls(trackers, before), SamplesOf(trackers, before, t);
      HistoryIsOfSamples(trackers, before, j);
      PollHistory(trackers, s, last, j);
      match SampleTaken(trackers, s, last, t) {
        case None => assert samples + [] == samples;
        case Some(sample) => assert (samples + [sample])[..|samples|] == samples;
      }
    }
  }

  /** The poller's start of the active run is the time of the first sample of the current run reported. */
  lemma {:induction false} ActiveStartOfTracker(trackers: seq<Tracker>, polls: seq<Poll>, j: nat) returns (k: nat)
    requires UniqueIds(trackers) && j < |trackers|
    ensures var samples := SamplesOf(trackers, polls, trackers[j]);
      var started := HistoryOf(AfterPolls(trackers, polls), trackers[j].id).activeStartedAt;
      && (started.Some? <==> samples != [] && samples[|samples| - 1].phase == IsActive)
      && (started.Some? ==> CurrentActiveRun(samples, k) && started == Some(samples[k].at))
  {
    hide AfterPolls;
    hide SamplesOf;
    HistoryIsOfSamples(trackers, polls, j);
    k := StartOfActiveRun(SamplesOf(trackers, polls, trackers[j]));
  }

  /** The last poll of the sequence took a sample for the tracker. */
  ghost predicate JustSampled(trackers: seq<Tracker>, polls: seq<Poll>, t: Tracker) {
    polls != [] && SampleTaken(trackers, AfterPolls(trackers, polls[..|polls| - 1]), polls[|polls| - 1], t).Some?
  }

  /** What the poller reports for a tracker just sampled is the prediction, and the estimate, for the samples reported so far. */
  lemma {:induction false} ReportIsPrediction(trackers: seq<Tracker>, polls: seq<Poll>, j: nat)
    requires UniqueIds(trackers) && j < |trackers| && JustSampled(trackers, polls, trackers[j])
    ensures var t, latest, samples := trackers[j], AfterPolls(trackers, polls).latest, SamplesOf(trackers, polls, trackers[j]);
      && t.detector.Radial? && t.id in latest && latest[t.id].RadialCooldown? && samples != []
      && latest[t.id].phase == samples[|samples| - 1].phase
      && latest[t.id].predictedRemainingMs == PredictionAt(samples, t.detector.prediction)
      && latest[t.id].totalMs == TotalAt(samples)
  {
    hide PollDue;
    hide Recorded;
    hide Predicted;
    hide SampleTaken;
    var before, last, t := polls[..|polls| - 1], polls[|polls| - 1], trackers[j];
    var s := AfterPolls(trackers, before);
    HistoryIsOfSamples(trackers, before, j);
    PollHistory(trackers, s, last, j);
    var sample := SampleTaken(trackers, s, last, t).value;
    assert SamplesOf(trackers, polls, t)[..|SamplesOf(trackers, before, t)|] == SamplesOf(trackers, before, t);
  }

  /**
   What the poller predicts, over any sequence of polls: when it has just sampled a tracker that is
   active, the duration less the time since its current run of active reports began, given exactly when
   that time is in the stable window; otherwise nothing.
  */
  lemma {:induction false} ReportFollowsRun(trackers: seq<Tracker>, polls: seq<Poll>, j: nat, p: Prediction, k: nat)
    requires UniqueIds(trackers) && j < |trackers| && JustSampled(trackers, polls, trackers[j])
    requires trackers[j].detector == Radial(Some(p))
    ensures var t, latest, samples := trackers[j], AfterPolls(trackers, polls).latest, SamplesOf(trackers, polls, trackers[j]);
      && t.id in latest && latest[t.id].RadialCooldown?
      && (latest[t.id].phase != IsActive ==> latest[t.id].predictedRemainingMs == None)
      && (CurrentActiveRun(samples, k) ==>
            var now, started := samples[|samples| - 1].at, samples[k].at;
            latest[t.id].predictedRemainingMs ==
              if started <= now && p.stableAfterMs <= now - started <= p.durationMs
              then Some(p.durationMs - (now - started)) else None)
  {
    hide AfterPolls;
    hide SamplesOf;
    hide JustSampled;
    ReportIsPrediction(trackers, polls, j);
    var samples := SamplesOf(trackers, polls, trackers[j]);
    if CurrentActiveRun(samples, k) {
      PredictionFollowsRun(samples, p, k);
    }
    if samples[|samples| - 1].phase != IsActive {
      NoPredictionOutsideRun(samples, Some(p));
    }
  }
}

/**
 The history of one radial cooldown tracker (crates/signal-auras-core/src/screen_state.rs:840-960):
 the observation window, the current run of active samples, and the prediction made from it.

 What a sample shows, a phase and a fraction of at most 100, is given.
*/
module CooldownHistory {
  import opened Wrappers

  datatype Phase = IsReady | Activated | IsActive | Recovering | Unknown

  datatype Prediction = Prediction(durationMs: nat, stableAfterMs: nat)

  /** One readable sample. */
  datatype Sample = Sample(at: nat, phase: Phase, fraction: nat)

  datatype Observation = Observation(at: nat, fraction: nat)

  datatype History = History(
    observations: seq<Observation>,
    lastTotalMs: Option<nat>,
    lastPhase: Option<Phase>,
    activeStartedAt: Option<nat>)

  const NO_HISTORY: History := History([], None, None, None)

  const WINDOW: nat := 16
  const U64_MAX: nat := 0xFFFF_FFFF_FFFF_FFFF

  function SatMul(a: nat, b: nat): nat {
    if a * b > U64_MAX then U64_MAX else a * b
  }

  function Pushed(observations: seq<Observation>, o: Observation): seq<Observation> {
    var more := observations + [o];
    if |more| > WINDOW then more[1..] else more
  }

  function PhaseObserved(h: History, at: nat, phase: Phase): History {
    h.(lastPhase := Some(phase),
       activeStartedAt :=
         if phase != IsActive then None
         else if h.lastPhase == Some(IsActive) then h.activeStartedAt
         else Some(at))
  }

  /** The first observation whose fraction is above `fraction`. */
  function FirstAbove(observations: seq<Observation>, fraction: nat): Option<Observation> {
    if observations == [] then None
    else if observations[0].fraction > fraction then Some(observations[0])
    else FirstAbove(observations[1..], fraction)
  }

  /** The estimate of the whole cooldown, and the history that remembers it. */
  function Estimated(h: History): (History, Option<nat>) {
    if h.observations == [] then (h, None)
    else
      var latest := h.observations[|h.observations| - 1];
      match FirstAbove(h.observations, latest.fraction)
      case None => (h, None)
      case Some(earliest) =>
        if latest.at < earliest.at then (h, None)
        else
          var elapsed, progressed := latest.at - earliest.at, SatSub(earliest.fraction, latest.fraction);
          if elapsed == 0 || progressed == 0 then (h, h.lastTotalMs)
          else
            var estimate := SatMul(elapsed, 100) / progressed;
            (h.(lastTotalMs := Some(estimate)), Some(estimate))
  }

  function PredictedRemaining(h: History, now: nat, prediction: Option<Prediction>): Option<nat> {
    match (prediction, h.activeStartedAt)
    case (Some(p), Some(started)) =>
      if now < started || now - started < p.stableAfterMs || now - started > p.durationMs then None
      else Some(p.durationMs - (now - started))
    case _ => None
  }

  /** The history once a readable sample has been recorded. */
  function Recorded(h: History, sample: Sample): History {
    var h1 := PhaseObserved(h, sample.at, sample.phase);
    Estimated(h1.(observations := Pushed(h1.observations, Observation(sample.at, sample.fraction)))).0
  }

  /** The total estimate reported for a sample. */
  function TotalAfter(h: History, sample: Sample): Option<nat> {
    var h1 := PhaseObserved(h, sample.at, sample.phase);
    Estimated(h1.(observations := Pushed(h1.observations, Observation(sample.at, sample.fraction)))).1
  }

  /** What a tracker reports for a sample: nothing but while its phase is active. */
  function Predicted(h: History, sample: Sample, prediction: Option<Prediction>): Option<nat> {
    if sample.phase == IsActive then PredictedRemaining(Recorded(h, sample), sample.at, prediction) else None
  }

  class RadialCooldownHistory {
    var observations: seq<Observation>
    var lastTotalEstimateMs: Option<nat>
    var lastPhase: Option<Phase>
    var activeStartedAtMs: Option<nat>

    function State(): History
      reads this
    {
      History(observations, lastTotalEstimateMs, lastPhase, activeStartedAtMs)
    }

    constructor ()
      ensures State() == NO_HISTORY
    {
      observations, lastTotalEstimateMs, lastPhase, activeStartedAtMs := [], None, None, None;
    }

    method Push(at: nat, fraction: nat)
      modifies this`observations
      ensures observations == Pushed(old(observations), Observation(at, fraction))
    {
      observations := observations + [Observation(at, fraction)];
      if |observations| > WINDOW {
        observations := observations[1..];
      }
    }

    method ObservePhase(at: nat, phase: Phase)
      modifies this`lastPhase, this`activeStartedAtMs
      ensures State() == PhaseObserved(old(State()), at, phase)
    {
      if phase == IsActive {
        if lastPhase != Some(IsActive) {
          activeStartedAtMs := Some(at);
        }
      } else {
        activeStartedAtMs := None;
      }
      lastPhase := Some(phase);
    }

    method EstimateTotal() returns (total: Option<nat>)
      modifies this`lastTotalEstimateMs
      ensures (State(), total) == Estimated(old(State()))
    {
      if observations == [] {
        return None;
      }
      var latest := observations[|observations| - 1];
      var earliest := FirstAbove(observations, latest.fraction);
      if earliest.None? || latest.at < earliest.value.at {
        return None;
      }
      var elapsed := latest.at - earliest.value.at;
      var progressed := SatSub(earliest.value.fraction, latest.fraction);
      if elapsed == 0 || progressed == 0 {
        return lastTotalEstimateMs;
      }
      var estimate := SatMul(elapsed, 100) / progressed;
      lastTotalEstimateMs := Some(estimate);
      total := Some(estimate);
    }

    /** Record a readable sample; answer the total estimate and the prediction. */
    method Record(sample: Sample, prediction: Option<Prediction>) returns (total: Option<nat>, predicted: Option<nat>)
      modifies this
      ensures State() == Recorded(old(State()), sample)
      ensures total == TotalAfter(old(State()), sample)
      ensures predicted == Predicted(old(State()), sample, prediction)
    {
      ObservePhase(sample.at, sample.phase);
      Push(sample.at, sample.fraction);
      total := EstimateTotal();
      predicted := if sample.phase == IsActive then PredictedRemaining(State(), sample.at, prediction) else None;
    }
  }

  // ---- over any sequence of samples ----

  function AfterSamples(samples: seq<Sample>): History {
    if samples == [] then NO_HISTORY else Recorded(AfterSamples(samples[..|samples| - 1]), samples[|samples| - 1])
  }

  /** The samples from number `k` on are the current maximal run of active samples. */
  ghost predicate CurrentActiveRun(samples: seq<Sample>, k: nat) {
    && k < |samples|
    && (forall i :: k <= i < |samples| ==> samples[i].phase == IsActive)
    && (k > 0 ==> samples[k - 1].phase != IsActive)
  }

  lemma RecordedParts(h: History, sample: Sample)
    ensures var h' := Recorded(h, sample);
      && h'.lastPhase == Some(sample.phase)
      && h'.activeStartedAt == PhaseObserved(h, sample.at, sample.phase).activeStartedAt
      && h'.observations == Pushed(h.observations, Observation(sample.at, sample.fraction))
  {
  }

  /**
   `active_started_at_ms` is the time of the first sample of the current maximal active run, and
   there is none exactly when the last sample is not active.
  */
  lemma {:induction false} StartOfActiveRun(samples: seq<Sample>) returns (k: nat)
    ensures AfterSamples(samples).lastPhase ==
      if samples == [] then None else Some(samples[|samples| - 1].phase)
    ensures AfterSamples(samples).activeStartedAt.Some? <==>
      samples != [] && samples[|samples| - 1].phase == IsActive
    ensures AfterSamples(samples).activeStartedAt.Some? ==>
      CurrentActiveRun(samples, k) && AfterSamples(samples).activeStartedAt == Some(samples[k].at)
  {
    k := 0;
    if samples != [] {
      var before, last := samples[..|samples| - 1], samples[|samples| - 1];
      k := StartOfActiveRun(before);
      RecordedParts(AfterSamples(before), last);
      if last.phase == IsActive && AfterSamples(before).lastPhase != Some(IsActive) {
        k := |before|;
        assert k > 0 ==> samples[k - 1] == before[|before| - 1];
      }
    }
  }

  /** What the samples leave to be observed, in order. */
  function Observed(samples: seq<Sample>): (r: seq<Observation>)
    ensures |r| == |samples|
    ensures forall i :: 0 <= i < |samples| ==> r[i] == Observation(samples[i].at, samples[i].fraction)
  {
    seq(|samples|, i requires 0 <= i < |samples| => Observation(samples[i].at, samples[i].fraction))
  }

  /** The last sixteen observations, or all of them. */
  function LastOf(all: seq<Observation>): (r: seq<Observation>)
    ensures |r| <= WINDOW && |r| == |all| - SatSub(|all|, WINDOW)
  {
    all[SatSub(|all|, WINDOW)..]
  }

  lemma PushedWindow(all: seq<Observation>, o: Observation)
    ensures Pushed(LastOf(all), o) == LastOf(all + [o])
  {
  }

  lemma ObservedSnoc(samples: seq<Sample>, last: Sample)
    ensures Observed(samples + [last]) == Observed(samples) + [Observation(last.at, last.fraction)]
  {
  }

  /** The observation window is exactly the last sixteen samples. */
  lemma {:induction false} WindowIsLastSamples(samples: seq<Sample>)
    ensures AfterSamples(samples).observations == LastOf(Observed(samples))
  {
    if samples != [] {
      hide Recorded;
      hide Pushed;
      hide Observed;
      hide LastOf;
      var before, last := samples[..|samples| - 1], samples[|samples| - 1];
      WindowIsLastSamples(before);
      RecordedParts(AfterSamples(before), last);
      PushedWindow(Observed(before), Observation(last.at, last.fraction));
      ObservedSnoc(before, last);
      assert samples == before + [last];
    }
  }

  // ---- the estimate of the whole cooldown ----

  /** What is reported at the last of the samples as the whole cooldown. */
  function TotalAt(samples: seq<Sample>): Option<nat>
    requires samples != []
  {
    TotalAfter(AfterSamples(samples[..|samples| - 1]), samples[|samples| - 1])
  }

  /** Sample `k` is the first of the last sixteen that shows more of the cooldown left than the last one. */
  ghost predicate FirstFuller(samples: seq<Sample>, k: int) {
    && SatSub(|samples|, WINDOW) <= k < |samples|
    && samples[k].fraction > samples[|samples| - 1].fraction
    && forall i :: SatSub(|samples|, WINDOW) <= i < k ==> samples[i].fraction <= samples[|samples| - 1].fraction
  }

  lemma {:induction false} FirstAboveMeaning(observations: seq<Observation>, fraction: nat) returns (k: nat)
    ensures match FirstAbove(observations, fraction)
      case None => forall i :: 0 <= i < |observations| ==> observations[i].fraction <= fraction
      case Some(o) =>
        && k < |observations| && o == observations[k] && o.fraction > fraction
        && forall i :: 0 <= i < k ==> observations[i].fraction <= fraction
  {
    k := 0;
    if observations != [] && observations[0].fraction <= fraction {
      k := FirstAboveMeaning(observations[1..], fraction);
      k := k + 1;
    }
  }

  lemma LastSixteen(samples: seq<Sample>)
    ensures var first := SatSub(|samples|, WINDOW);
      var observations := AfterSamples(samples).observations;
      && |observations| == |samples| - first
      && forall i :: 0 <= i < |observations| ==>
           observations[i] == Observation(samples[first + i].at, samples[first + i].fraction)
  {
    WindowIsLastSamples(samples);
  }

  lemma FullerInWindow(samples: seq<Sample>) returns (k: int)
    requires samples != []
    ensures match FirstAbove(AfterSamples(samples).observations, samples[|samples| - 1].fraction)
      case None => forall k' :: !FirstFuller(samples, k')
      case Some(o) =>
        && FirstFuller(samples, k) && o == Observation(samples[k].at, samples[k].fraction)
        && forall k' :: FirstFuller(samples, k') ==> k' == k
  {
    hide AfterSamples;
    hide FirstAbove;
    LastSixteen(samples);
    var first, observations := SatSub(|samples|, WINDOW), AfterSamples(samples).observations;
    var i := FirstAboveMeaning(observations, samples[|samples| - 1].fraction);
    k := first + i;
    if FirstAbove(observations, samples[|samples| - 1].fraction).Some? {
      forall j | first <= j < k ensures samples[j].fraction <= samples[|samples| - 1].fraction {
        assert observations[j - first].fraction == samples[j].fraction;
      }
      assert FirstFuller(samples, k);
      FirstIsUnique(samples, k);
    } else {
      forall j | first <= j < |samples| ensures samples[j].fraction <= samples[|samples| - 1].fraction {
        assert observations[j - first].fraction == samples[j].fraction;
      }
    }
  }

  /** `total` is what `elapsed` comes to when scaled from `progressed` percent to the whole, rounded down. */
  ghost predicate ScaledUp(total: nat, elapsed: nat, progressed: nat) {
    var scaled := if elapsed * 100 <= U64_MAX then elapsed * 100 else U64_MAX;
    total * progressed <= scaled < (total + 1) * progressed
  }

  lemma DivisionRounds(n: nat, d: nat)
    requires d > 0
    ensures (n / d) * d <= n < (n / d + 1) * d
  {
  }

  /** The history before the estimate is made: the last sample's phase and observation are in it. */
  function Entered(samples: seq<Sample>): History
    requires samples != []
  {
    var last := samples[|samples| - 1];
    var h := PhaseObserved(AfterSamples(samples[..|samples| - 1]), last.at, last.phase);
    h.(observations := Pushed(h.observations, Observation(last.at, last.fraction)))
  }

  lemma EnteredMeaning(samples: seq<Sample>)
    requires samples != []
    ensures Entered(samples).observations == AfterSamples(samples).observations
    ensures Entered(samples).lastTotalMs == AfterSamples(samples[..|samples| - 1]).lastTotalMs
    ensures AfterSamples(samples) == Estimated(Entered(samples)).0
    ensures TotalAt(samples) == Estimated(Entered(samples)).1
    ensures var observations, last := Entered(samples).observations, samples[|samples| - 1];
      observations != [] && observations[|observations| - 1] == Observation(last.at, last.fraction)
  {
  }

  /**
   The whole cooldown is unknown while no sample of the window shows more of it left than the last one, or
   when time has run backwards since the first that does. When no time has passed since, it is the last
   total known. Otherwise it is the time since, scaled up from the part of the cooldown that went by.
  */
  lemma {:induction false} EstimateScales(samples: seq<Sample>)
    requires samples != []
    ensures var last := samples[|samples| - 1];
      && ((forall k :: !FirstFuller(samples, k)) ==> TotalAt(samples).None?)
      && (forall k :: FirstFuller(samples, k) ==>
            if last.at < samples[k].at then TotalAt(samples).None?
            else if last.at == samples[k].at then
              TotalAt(samples) == AfterSamples(samples[..|samples| - 1]).lastTotalMs
            else
              && TotalAt(samples).Some?
              && ScaledUp(TotalAt(samples).value, last.at - samples[k].at, samples[k].fraction - last.fraction))
  {
    hide AfterSamples;
    hide Entered;
    hide TotalAt;
    hide FirstAbove;
    hide SatMul;
    EnteredMeaning(samples);
    var last := samples[|samples| - 1];
    var k := FullerInWindow(samples);
    if FirstAbove(Entered(samples).observations, last.fraction).Some? && last.at > samples[k].at {
      EstimateRounds(last.at - samples[k].at, samples[k].fraction - last.fraction);
    }
  }

  lemma FirstIsUnique(samples: seq<Sample>, k: int)
    requires FirstFuller(samples, k)
    ensures forall k' :: FirstFuller(samples, k') ==> k' == k
  {
  }

  lemma EstimateRounds(elapsed: nat, progressed: nat)
    requires progressed > 0
    ensures ScaledUp(SatMul(elapsed, 100) / progressed, elapsed, progressed)
  {
    DivisionRounds(SatMul(elapsed, 100), progressed);
  }

  /** The samples up to the last make an estimate of their own. */
  ghost predicate Measures(samples: seq<Sample>) {
    samples != [] && exists k :: FirstFuller(samples, k) && samples[k].at < samples[|samples| - 1].at
  }

  /** The last total known is the one reported when one was last measured; there is none when none ever was. */
  lemma {:induction false} LastTotalIsLastMeasured(samples: seq<Sample>) returns (n: nat)
    ensures n <= |samples| && forall m :: n < m <= |samples| ==> !Measures(samples[..m])
    ensures AfterSamples(samples).lastTotalMs.None? <==> n == 0
    ensures n > 0 ==> Measures(samples[..n]) && AfterSamples(samples).lastTotalMs == TotalAt(samples[..n])
  {
    n := 0;
    if samples != [] {
      var before := samples[..|samples| - 1];
      MeasuringUpdates(samples);
      assert samples[..|samples|] == samples;
      n := LastTotalIsLastMeasured(before);
      assert forall m :: 0 <= m <= |before| ==> before[..m] == samples[..m];
      if Measures(samples) {
        n := |samples|;
      }
    }
  }

  lemma MeasuringUpdates(samples: seq<Sample>)
    requires samples != []
    ensures Measures(samples) ==> TotalAt(samples).Some? && AfterSamples(samples).lastTotalMs == TotalAt(samples)
    ensures !Measures(samples) ==>
      AfterSamples(samples).lastTotalMs == AfterSamples(samples[..|samples| - 1]).lastTotalMs
  {
    hide AfterSamples;
    hide Entered;
    hide TotalAt;
    hide FirstAbove;
    hide SatMul;
    EnteredMeaning(samples);
    var k := FullerInWindow(samples);
  }

  /** What the tracker predicts at the last of the samples. */
  function PredictionAt(samples: seq<Sample>, prediction: Option<Prediction>): Option<nat>
    requires samples != []
  {
    Predicted(AfterSamples(samples[..|samples| - 1]), samples[|samples| - 1], prediction)
  }

  /**
   A prediction is given exactly when the last sample is active and the time since its run began is
   within the stable window, and then it is the duration less that time.
  */
  lemma PredictionFollowsRun(samples: seq<Sample>, p: Prediction, k: nat)
    requires CurrentActiveRun(samples, k)
    ensures var now, started := samples[|samples| - 1].at, samples[k].at;
      PredictionAt(samples, Some(p)) ==
        if started <= now && p.stableAfterMs <= now - started <= p.durationMs
        then Some(p.durationMs - (now - started)) else None
  {
    var k' := StartOfActiveRun(samples);
    RunIsUnique(samples, k, k');
  }

  lemma RunIsUnique(samples: seq<Sample>, k: nat, k': nat)
    requires CurrentActiveRun(samples, k) && CurrentActiveRun(samples, k')
    ensures k == k'
  {
  }

  lemma NoPredictionOutsideRun(samples: seq<Sample>, prediction: Option<Prediction>)
    requires samples != [] && (prediction.None? || samples[|samples| - 1].phase != IsActive)
    ensures PredictionAt(samples, prediction).None?
  {
  }

  /** Within one active run of non-decreasing times, predictions fall by exactly the time that passed. */
  lemma PredictionNeverRises(samples: seq<Sample>, p: Prediction, k: nat, i: nat)
    requires CurrentActiveRun(samples, k) && k <= i < |samples|
    requires samples[i].at <= samples[|samples| - 1].at
    requires PredictionAt(samples[..i + 1], Some(p)).Some? && PredictionAt(samples, Some(p)).Some?
    ensures PredictionAt(samples, Some(p)).value ==
      PredictionAt(samples[..i + 1], Some(p)).value - (samples[|samples| - 1].at - samples[i].at)
  {
    assert CurrentActiveRun(samples[..i + 1], k);
    PredictionFollowsRun(samples, p, k);
    PredictionFollowsRun(samples[..i + 1], p, k);
  }
}

/**
 Accepted configurations (crates/signal-auras-core/src/config.rs): the keyed collections
 have no duplicate triggers, and no motion trigger is a proper prefix of another.
*/
module Configuration {
  import opened Wrappers
  import opened MacroPlan
  import opened Motion

  datatype Hotkey = Hotkey(name: string)

  datatype BindingDefinition = BindingDefinition(trigger: Hotkey, mode: BindingMode, macroDefinition: Macro)

  datatype PressDefinition = PressDefinition(
    requiresHeld: seq<Token>,
    trigger: Token,
    mode: BindingMode,
    macroDefinition: Macro,
    interActionDelayMs: nat)

  datatype Rejection = EmptyConfiguration | DuplicateBinding | DuplicateMotion | PrefixOverlap | DuplicatePress

  datatype Configuration = Configuration(
    bindings: map<Hotkey, BindingDefinition>,
    motions: map<Trigger, MotionDefinition>,
    presses: map<Token, PressDefinition>)

  predicate TriggerIsPrefix(left: Trigger, right: Trigger) {
    |left| < |right| && right[..|left|] == left
  }

  predicate PrefixFree(triggers: set<Trigger>) {
    forall t, u :: t in triggers && u in triggers ==> !TriggerIsPrefix(t, u)
  }

  /** The keys of `items` under `key` are pairwise distinct. */
  ghost predicate DistinctKeys<K, V>(items: seq<V>, key: V -> K) {
    forall i, j :: 0 <= i < j < |items| ==> key(items[i]) != key(items[j])
  }

  /** `m` holds exactly the items, each under its key. */
  ghost predicate Indexes<K, V>(m: map<K, V>, items: seq<V>, key: V -> K) {
    && (forall i :: 0 <= i < |items| ==> key(items[i]) in m && m[key(items[i])] == items[i])
    && (forall k :: k in m ==> m[k] in items && key(m[k]) == k)
  }

  /** Insert the items one by one; stop at the first key that is already present. */
  method InsertAll<K(==), V>(items: seq<V>, key: V -> K) returns (m: Option<map<K, V>>)
    ensures m.Some? <==> DistinctKeys(items, key)
    ensures m.Some? ==> Indexes(m.value, items, key)
  {
    var normalized: map<K, V> := map[];
    for i := 0 to |items|
      invariant DistinctKeys(items[..i], key)
      invariant Indexes(normalized, items[..i], key)
    {
      if key(items[i]) in normalized {
        assert normalized[key(items[i])] in items[..i];
        return None;
      }
      normalized := normalized[key(items[i]) := items[i]];
    }
    assert items[..|items|] == items;
    m := Some(normalized);
  }

  method RejectPrefixOverlapping(triggers: seq<Trigger>) returns (accepted: bool)
    requires forall i, j :: 0 <= i < j < |triggers| ==> triggers[i] != triggers[j]
    ensures accepted <==> PrefixFree(set t | t in triggers)
  {
    for index := 0 to |triggers|
      invariant forall i, j :: 0 <= i < index && i < j < |triggers| ==>
        !TriggerIsPrefix(triggers[i], triggers[j]) && !TriggerIsPrefix(triggers[j], triggers[i])
    {
      for other := index + 1 to |triggers|
        invariant forall j :: index < j < other ==>
          !TriggerIsPrefix(triggers[index], triggers[j]) && !TriggerIsPrefix(triggers[j], triggers[index])
      {
        if TriggerIsPrefix(triggers[index], triggers[other]) || TriggerIsPrefix(triggers[other], triggers[index]) {
          return false;
        }
      }
    }
    accepted := true;
  }

  /** What a configuration must satisfy to be accepted, in the order it is checked. */
  ghost function Verdict(
    bindings: seq<BindingDefinition>, motions: seq<MotionDefinition>, presses: seq<PressDefinition>): Option<Rejection>
  {
    if bindings == [] && motions == [] && presses == [] then Some(EmptyConfiguration)
    else if !DistinctKeys(bindings, (b: BindingDefinition) => b.trigger) then Some(DuplicateBinding)
    else if !DistinctKeys(motions, (m: MotionDefinition) => m.trigger) then Some(DuplicateMotion)
    else if !PrefixFree(set m | m in motions :: m.trigger) then Some(PrefixOverlap)
    else if !DistinctKeys(presses, (p: PressDefinition) => p.trigger) then Some(DuplicatePress)
    else None
  }

  method WithBindingsAndMotions(
    bindings: seq<BindingDefinition>, motions: seq<MotionDefinition>, presses: seq<PressDefinition>)
    returns (r: Result<Configuration, Rejection>)
    ensures r.Success? <==> Verdict(bindings, motions, presses).None?
    ensures r.Failure? ==> Verdict(bindings, motions, presses) == Some(r.error)
    ensures r.Success? ==>
      && Indexes(r.value.bindings, bindings, (b: BindingDefinition) => b.trigger)
      && Indexes(r.value.motions, motions, (m: MotionDefinition) => m.trigger)
      && Indexes(r.value.presses, presses, (p: PressDefinition) => p.trigger)
      && PrefixFree(r.value.motions.Keys)
  {
    if bindings == [] && motions == [] && presses == [] {
      return Failure(EmptyConfiguration);
    }
    var normalizedBindings := InsertAll(bindings, (b: BindingDefinition) => b.trigger);
    if normalizedBindings.None? {
      return Failure(DuplicateBinding);
    }
    var normalizedMotions := InsertAll(motions, (m: MotionDefinition) => m.trigger);
    if normalizedMotions.None? {
      return Failure(DuplicateMotion);
    }
    var triggers := seq(|motions|, i requires 0 <= i < |motions| => motions[i].trigger);
    var accepted := RejectPrefixOverlapping(triggers);
    assert (set t | t in triggers) == set m | m in motions :: m.trigger by {
      forall m | m in motions ensures m.trigger in triggers {
        var i :| 0 <= i < |motions| && motions[i] == m;
        assert triggers[i] == m.trigger;
      }
    }
    if !accepted {
      return Failure(PrefixOverlap);
    }
    var normalizedPresses := InsertAll(presses, (p: PressDefinition) => p.trigger);
    if normalizedPresses.None? {
      return Failure(DuplicatePress);
    }
    assert normalizedMotions.value.Keys <= set m | m in motions :: m.trigger;
    r := Success(Configuration(normalizedBindings.value, normalizedMotions.value, normalizedPresses.value));
  }
}

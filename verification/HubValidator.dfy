/** The fail-fast validator of plugin manifests, and its agreement with the accumulating one. */
module HubValidator {
  import opened Prelude
  import opened Attributes
  import opened Processors
  import opened Wires
  import opened PipelineTyping
  import opened StrictValidator

  datatype PortTable = PortTable(consumer: seq<Port>, supplier: seq<Port>)

  /** The two dictionaries the hub keeps about processors. */
  datatype Tables = Tables(ports: map<string, PortTable>, attributes: map<string, seq<Attribute>>) {
    function AttributesOf(processor: string): seq<Attribute> {
      if processor in attributes then attributes[processor] else []
    }

    function AsRegistry(): Registry {
      map p | p in ports :: Processor(ports[p].consumer, ports[p].supplier, AttributesOf(p), [], [])
    }
  }

  // ----- what the hub accepts -----

  /** As for the server, except that two inferred supplies count as different by step and port. */
  ghost predicate HubFanIn(port: Port, available: seq<Supply>) {
    if port.multiple then
      exists i, j :: Candidate(available, i, port.dtype) && Candidate(available, j, port.dtype)
                     && (available[i].ref, available[i].port) != (available[j].ref, available[j].port)
    else InferredFanIn(port, available)
  }

  ghost predicate HubPortTyped(step: Step, port: Port, available: seq<Supply>) {
    if port.role in step.wires then WiredTyped(step.processor, port, step.wires[port.role], Index(available))
    else
      port.required ==>
        && HubFanIn(port, available)
        && (WantsVerified(step.processor, port.role) ==>
              exists j :: Candidate(available, j, port.dtype) && available[j].verified)
  }

  ghost predicate HubPortsTyped(step: Step, consumer: seq<Port>, n: nat, available: seq<Supply>)
    requires n <= |consumer|
  {
    forall k :: 0 <= k < n ==> HubPortTyped(step, consumer[k], available)
  }

  ghost predicate HubStepTyped(step: Step, tables: Tables, known: set<string>, available: seq<Supply>)
    requires step.processor in tables.ports
  {
    var consumer := tables.ports[step.processor].consumer;
    && AttributesTyped(tables.AttributesOf(step.processor), step.attributes, known)
    && step.wires.Keys <= Roles(consumer)
    && HubPortsTyped(step, consumer, |consumer|, available)
  }

  ghost predicate HubTypedAt(steps: seq<Step>, i: nat, inputs: seq<string>, tables: Tables, known: set<string>)
    requires i < |steps|
  {
    steps[i].processor in tables.ports ==>
      HubStepTyped(steps[i], tables, known, AvailableBefore(steps, i, inputs, tables.AsRegistry()))
  }

  ghost predicate HubAcceptsUpTo(steps: seq<Step>, n: nat, inputs: seq<string>, tables: Tables, known: set<string>)
    requires n <= |steps|
  {
    forall i :: 0 <= i < n ==> HubTypedAt(steps, i, inputs, tables, known)
  }

  ghost predicate HubAccepts(steps: seq<Step>, inputs: seq<string>, tables: Tables, known: set<string>) {
    HubAcceptsUpTo(steps, |steps|, inputs, tables, known)
  }

  // ----- the two validators agree -----

  /** Step references carry no dot; manifest models see to that. */
  ghost predicate DotFreeRefs(steps: seq<Step>) {
    forall i :: 0 <= i < |steps| ==> '.' !in steps[i].ref
  }

  /** What manifest models and the enclosing graph check settle before the hub validates wiring:
      no repeated initial input, unique references other than `inputs`, known processors. */
  ghost predicate ManifestShape(steps: seq<Step>, inputs: seq<string>, registry: Registry) {
    && NoDup(inputs)
    && (forall i :: 0 <= i < |steps| ==> FreshRef(steps, i))
    && (forall i :: 0 <= i < |steps| ==> steps[i].processor in registry)
  }

  /** The registry and the tables describe the same processors. */
  ghost predicate SameProcessor(registry: Registry, tables: Tables, p: string)
    requires p in registry && p in tables.ports
  {
    && ConsumerPorts(registry[p]) == tables.ports[p].consumer
    && registry[p].supplier == tables.ports[p].supplier
    && ProcessorAttributes(registry[p]) == tables.AttributesOf(p)
  }

  ghost predicate SameProcessors(registry: Registry, tables: Tables) {
    registry.Keys == tables.ports.Keys && forall p :: p in registry ==> SameProcessor(registry, tables, p)
  }

  lemma {:induction false} SameAvailable(steps: seq<Step>, n: nat, inputs: seq<string>, registry: Registry, tables: Tables)
    requires n <= |steps| && SameProcessors(registry, tables)
    ensures AvailableBefore(steps, n, inputs, registry) == AvailableBefore(steps, n, inputs, tables.AsRegistry())
  {
    hide ConsumerPorts, ProcessorAttributes;
    if n > 0 {
      SameAvailable(steps, n - 1, inputs, registry, tables);
      var p := steps[n - 1].processor;
      if p in registry {
        assert SameProcessor(registry, tables, p);
      }
    }
  }

  lemma AvailableDotFree(steps: seq<Step>, n: nat, inputs: seq<string>, registry: Registry)
    requires n <= |steps| && DotFreeRefs(steps)
    ensures DotFree(AvailableBefore(steps, n, inputs, registry))
  {
    var available := AvailableBefore(steps, n, inputs, registry);
    forall i | 0 <= i < |available|
      ensures '.' !in available[i].ref
    {
      var s := available[i];
      assert s in available;
      AvailableOrigins(steps, n, inputs, registry, s);
      if s !in InputSupplies(inputs) {
        var j :| 0 <= j < n && SuppliedBy(steps, j, registry, s);
        assert s.ref == steps[j].ref;
      }
    }
  }

  lemma SameFanIn(port: Port, available: seq<Supply>)
    requires DotFree(available)
    ensures HubFanIn(port, available) <==> InferredFanIn(port, available)
  {
    if port.multiple {
      forall i, j | Candidate(available, i, port.dtype) && Candidate(available, j, port.dtype)
        ensures (available[i].ref, available[i].port) != (available[j].ref, available[j].port)
           <==> available[i].WireRef() != available[j].WireRef()
      {
        if available[i].WireRef() == available[j].WireRef() {
          WireNamesInjective(available[i].ref, available[i].port, available[j].ref, available[j].port);
        }
      }
    }
  }

  lemma SamePortTyped(step: Step, port: Port, available: seq<Supply>)
    requires DotFree(available)
    ensures HubPortTyped(step, port, available) <==> PortTyped(step, port, available)
  {
    SameFanIn(port, available);
  }

  lemma SameStepTyped(step: Step, registry: Registry, tables: Tables, known: set<string>, available: seq<Supply>)
    requires SameProcessors(registry, tables) && step.processor in registry && DotFree(available)
    ensures HubStepTyped(step, tables, known, available)
       <==> KnownStepTyped(step, registry[step.processor], known, available)
  {
    hide HubPortTyped, PortTyped, ConsumerPorts, AttributesTyped;
    assert SameProcessor(registry, tables, step.processor);
    var consumer := tables.ports[step.processor].consumer;
    forall k | 0 <= k < |consumer|
      ensures HubPortTyped(step, consumer[k], available) <==> PortTyped(step, consumer[k], available)
    {
      SamePortTyped(step, consumer[k], available);
    }
    assert HubPortsTyped(step, consumer, |consumer|, available) <==> AllPortsTyped(step, consumer, |consumer|, available);
  }

  /** The accumulating validator reports nothing exactly when the fail-fast one does not raise and
      the shape it relies on is there; so on pipelines of that shape the two agree. */
  lemma ValidatorsAgree(steps: seq<Step>, inputs: seq<string>, registry: Registry, tables: Tables, known: set<string>)
    requires SameProcessors(registry, tables) && DotFreeRefs(steps)
    ensures StrictErrors(steps, |steps|, inputs, registry, known) == []
       <==> HubAccepts(steps, inputs, tables, known) && ManifestShape(steps, inputs, registry)
  {
    hide HubStepTyped, KnownStepTyped, StrictErrors, AvailableBefore, FreshRef;
    StrictErrorsSound(steps, inputs, registry, known);
    forall i | 0 <= i < |steps|
      ensures TypedAt(steps, i, inputs, registry, known)
         <==> HubTypedAt(steps, i, inputs, tables, known) && FreshRef(steps, i) && steps[i].processor in registry
    {
      SameAvailable(steps, i, inputs, registry, tables);
      AvailableDotFree(steps, i, inputs, registry);
      if steps[i].processor in registry {
        SameStepTyped(steps[i], registry, tables, known, AvailableBefore(steps, i, inputs, registry));
      }
    }
  }

  // ----- the validator itself -----

  /** `ok` is false where the source raises. */
  method CheckHubWiredPort(processor: string, port: Port, w: Wire, byWire: map<string, Supply>) returns (ok: bool)
    ensures ok <==> WiredTyped(processor, port, w, byWire)
  {
    hide Resolve, WellFormedRef;
    if w.Many? && !port.multiple {
      return false;
    }
    var values := WireValues(w, port.multiple);
    if values == [] && port.required {
      return false;
    }
    var wireKeys: seq<string> := [];
    for k := 0 to |values|
      invariant AllValuesTyped(processor, port, values, k, byWire)
      invariant |wireKeys| == k && forall l :: 0 <= l < k ==> values[l] == Ref(wireKeys[l])
    {
      var supply, key := FindSupply(values[k], byWire);
      if supply.None? {
        assert !ValueTyped(processor, port, values[k], byWire);
        return false;
      }
      if supply.value.dtype != port.dtype {
        assert !ValueTyped(processor, port, values[k], byWire);
        return false;
      }
      if RequiresVerified(processor, port.role) && !supply.value.verified {
        assert !ValueTyped(processor, port, values[k], byWire);
        return false;
      }
      wireKeys := wireKeys + [key];
    }
    var distinct := Elements(wireKeys);
    DistinctCount(wireKeys);
    assert NoDup(wireKeys) <==> NoDup(values);
    if port.multiple && |distinct| != |wireKeys| {
      return false;
    }
    if port.multiple && port.required && |distinct| < 2 {
      return false;
    }
    return true;
  }

  /** Parses one wire value and looks it up under the name rebuilt from its parts. */
  method FindSupply(v: WireValue, byWire: map<string, Supply>) returns (supply: Option<Supply>, key: string)
    ensures supply == Resolve(v, byWire)
    ensures supply.Some? ==> v == Ref(key)
  {
    var parsed := ParseWireRef(v);
    KeyRebuilds(v);
    if parsed.None? {
      return None, "";
    }
    key := parsed.value.0 + "." + parsed.value.1;
    supply := if key in byWire then Some(byWire[key]) else None;
  }

  method CheckHubInferredPort(processor: string, port: Port, available: seq<Supply>) returns (ok: bool)
    ensures ok <==> HubFanIn(port, available)
                    && (WantsVerified(processor, port.role) ==>
                          exists j :: Candidate(available, j, port.dtype) && available[j].verified)
  {
    var candidates := Candidates(available, port.dtype);
    CandidatesChar(available, port.dtype);
    CandidateIndices(available, port.dtype);
    if candidates == [] {
      return false;
    }
    var pairs := set s | s in candidates :: (s.ref, s.port);
    assert (candidates[0].ref, candidates[0].port) in pairs;
    TwoOrMore(pairs);
    TwoPairs(available, port.dtype, pairs);
    if port.multiple && |pairs| == 1 {
      return false;
    }
    if |candidates| > 1 && !port.multiple {
      return false;
    }
    if RequiresVerified(processor, port.role) && !exists s | s in candidates :: s.verified {
      return false;
    }
    return true;
  }

  lemma TwoPairs(available: seq<Supply>, dtype: string, pairs: set<(string, string)>)
    requires pairs == set s | s in Candidates(available, dtype) :: (s.ref, s.port)
    ensures |pairs| >= 2
       <==> exists i, j :: Candidate(available, i, dtype) && Candidate(available, j, dtype)
                           && (available[i].ref, available[i].port) != (available[j].ref, available[j].port)
  {
    var candidates := Candidates(available, dtype);
    CandidatesChar(available, dtype);
    TwoOrMore(pairs);
    if |pairs| >= 2 {
      var a, b :| a in pairs && b in pairs && a != b;
      var s :| s in candidates && (s.ref, s.port) == a;
      var t :| t in candidates && (t.ref, t.port) == b;
      var i :| 0 <= i < |available| && available[i] == s;
      var j :| 0 <= j < |available| && available[j] == t;
      assert Candidate(available, i, dtype) && Candidate(available, j, dtype);
    }
    if i, j :| Candidate(available, i, dtype) && Candidate(available, j, dtype)
               && (available[i].ref, available[i].port) != (available[j].ref, available[j].port) {
      assert available[i] in candidates && available[j] in candidates;
      assert (available[i].ref, available[i].port) in pairs && (available[j].ref, available[j].port) in pairs;
    }
  }

  method CheckHubStep(step: Step, tables: Tables, known: set<string>, available: seq<Supply>, byWire: map<string, Supply>)
    returns (ok: bool)
    requires step.processor in tables.ports && byWire == Index(available)
    ensures ok <==> HubStepTyped(step, tables, known, available)
  {
    hide AttributesTyped, WiredTyped, Index, HubFanIn;
    ok := ValidateStepAttributes(tables.AttributesOf(step.processor), step.attributes, known);
    if !ok {
      return;
    }
    var consumer := tables.ports[step.processor].consumer;
    SubsetByDifference(step.wires.Keys, Roles(consumer));
    if step.wires.Keys - Roles(consumer) != {} {
      return false;
    }
    for k := 0 to |consumer|
      invariant HubPortsTyped(step, consumer, k, available)
    {
      var port := consumer[k];
      if port.role in step.wires {
        ok := CheckHubWiredPort(step.processor, port, step.wires[port.role], byWire);
      } else if port.required {
        ok := CheckHubInferredPort(step.processor, port, available);
      } else {
        ok := true;
      }
      if !ok {
        assert !HubPortTyped(step, consumer[k], available);
        return;
      }
    }
    return true;
  }

  method ValidatePipelineGraph(steps: seq<Step>, inputs: seq<string>, tables: Tables, known: set<string>)
    returns (ok: bool)
    ensures ok <==> HubAccepts(steps, inputs, tables, known)
  {
    hide HubStepTyped, Index;
    ghost var registry := tables.AsRegistry();
    var available, byWire := IndexInputs(inputs);
    for i := 0 to |steps|
      invariant HubAcceptsUpTo(steps, i, inputs, tables, known)
      invariant available == AvailableBefore(steps, i, inputs, registry) && byWire == Index(available)
    {
      var step := steps[i];
      if step.processor in tables.ports {
        ok := CheckHubStep(step, tables, known, available, byWire);
        if !ok {
          assert !HubTypedAt(steps, i, inputs, tables, known);
          return;
        }
        available, byWire := AddSupplies(step, tables.ports[step.processor].supplier, available, byWire);
      }
    }
    return true;
  }
}

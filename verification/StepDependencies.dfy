/** Compiling an accepted step list into a task graph: which steps each step waits for. */
module StepDependencies {
  import opened Prelude
  import opened Attributes
  import opened Processors
  import opened Wires
  import opened PipelineTyping
  import opened StrictValidator

  // ----- what the compiler computes -----

  /** A dependency is added unless it is the synthetic source or already there. */
  function AddDep(deps: seq<string>, ref: string): (r: seq<string>)
    requires NoDup(deps)
    ensures NoDup(r)
    ensures forall x :: x in r <==> x in deps || (x == ref && ref != INPUTS)
    ensures deps <= r
  {
    if ref != INPUTS && ref !in deps then deps + [ref] else deps
  }

  function ValuesDeps(deps: seq<string>, values: seq<WireValue>, n: nat, byWire: map<string, Supply>): (r: seq<string>)
    requires n <= |values| && NoDup(deps)
    ensures NoDup(r)
  {
    if n == 0 then deps
    else
      var before := ValuesDeps(deps, values, n - 1, byWire);
      var supply := Resolve(values[n - 1], byWire);
      if supply.Some? then AddDep(before, supply.value.ref) else before
  }

  /** Scanning the supplies from `k` on; a port with single fan-in takes the first that suits. */
  function InferredDeps(deps: seq<string>, processor: string, port: Port, available: seq<Supply>, k: nat): (r: seq<string>)
    requires k <= |available| && NoDup(deps)
    ensures NoDup(r)
    decreases |available| - k
  {
    if k == |available| then deps
    else if Suits(processor, port, available[k]) then
      var deps' := AddDep(deps, available[k].ref);
      if port.multiple then InferredDeps(deps', processor, port, available, k + 1) else deps'
    else InferredDeps(deps, processor, port, available, k + 1)
  }

  function PortDeps(deps: seq<string>, step: Step, port: Port, available: seq<Supply>): (r: seq<string>)
    requires NoDup(deps)
    ensures NoDup(r)
  {
    if port.role in step.wires then
      var values := WireValues(step.wires[port.role], port.multiple);
      ValuesDeps(deps, values, |values|, Index(available))
    else if !port.required then deps
    else InferredDeps(deps, step.processor, port, available, 0)
  }

  function PortsDeps(step: Step, consumer: seq<Port>, n: nat, available: seq<Supply>): (r: seq<string>)
    requires n <= |consumer|
    ensures NoDup(r)
  {
    if n == 0 then [] else PortDeps(PortsDeps(step, consumer, n - 1, available), step, consumer[n - 1], available)
  }

  function StepDeps(step: Step, registry: Registry, available: seq<Supply>): (r: seq<string>)
    ensures NoDup(r)
  {
    if step.processor !in registry then []
    else
      var consumer := ConsumerPorts(registry[step.processor]);
      PortsDeps(step, consumer, |consumer|, available)
  }

  /** The dictionary from references to dependencies after `n` steps. */
  function DepsUpTo(steps: seq<Step>, n: nat, inputs: seq<string>, registry: Registry): map<string, seq<string>>
    requires n <= |steps|
  {
    if n == 0 then map[]
    else DepsUpTo(steps, n - 1, inputs, registry)
           [steps[n - 1].ref := StepDeps(steps[n - 1], registry, AvailableBefore(steps, n - 1, inputs, registry))]
  }

  method InferredStepDependencies(steps: seq<Step>, inputs: seq<string>, registry: Registry)
    returns (out: map<string, seq<string>>)
    ensures out == DepsUpTo(steps, |steps|, inputs, registry)
  {
    hide Index, ConsumerPorts, PortsDeps;
    var available, byWire := IndexInputs(inputs);
    out := map[];
    for i := 0 to |steps|
      invariant out == DepsUpTo(steps, i, inputs, registry)
      invariant available == AvailableBefore(steps, i, inputs, registry) && byWire == Index(available)
    {
      var step := steps[i];
      if step.processor !in registry {
        out := out[step.ref := []];
      } else {
        var deps := CompileStep(step, ConsumerPorts(registry[step.processor]), available, byWire);
        out := out[step.ref := deps];
        available, byWire := AddSupplies(step, registry[step.processor].supplier, available, byWire);
      }
    }
  }

  method CompileStep(step: Step, consumer: seq<Port>, available: seq<Supply>, byWire: map<string, Supply>)
    returns (deps: seq<string>)
    requires byWire == Index(available)
    ensures deps == PortsDeps(step, consumer, |consumer|, available)
  {
    hide Index, Resolve, Suits, AddDep;
    deps := [];
    for i := 0 to |consumer|
      invariant deps == PortsDeps(step, consumer, i, available)
    {
      var port := consumer[i];
      ghost var before := deps;
      if port.role in step.wires {
        var values := WireValues(step.wires[port.role], port.multiple);
        for k := 0 to |values|
          invariant NoDup(deps) && deps == ValuesDeps(before, values, k, byWire)
        {
          var parsed := ParseWireRef(values[k]);
          KeyRebuilds(values[k]);
          ResolveKey(values[k], byWire);
          if parsed.Some? {
            var key := parsed.value.0 + "." + parsed.value.1;
            if key in byWire {
              deps := AddDep(deps, byWire[key].ref);
            }
          }
        }
      } else if port.required {
        var k := 0;
        while k < |available|
          invariant k <= |available| && NoDup(deps)
          invariant InferredDeps(deps, step.processor, port, available, k)
                    == InferredDeps(before, step.processor, port, available, 0)
        {
          if Suits(step.processor, port, available[k]) {
            deps := AddDep(deps, available[k].ref);
            if !port.multiple {
              break;
            }
          }
          k := k + 1;
        }
        assert deps == InferredDeps(before, step.processor, port, available, 0);
      }
    }
  }

  lemma ResolveKey(v: WireValue, byWire: map<string, Supply>)
    ensures var parsed := ParseWireRef(v);
            Resolve(v, byWire) == if parsed.Some? && parsed.value.0 + "." + parsed.value.1 in byWire
                                  then Some(byWire[parsed.value.0 + "." + parsed.value.1]) else None
  {
    KeyRebuilds(v);
  }

  // ----- what the dependencies mean -----

  /** The supply `s` feeds `port`: a wire of the port resolves to it, or the port is required, left
      to inference, and `s` suits it. */
  ghost predicate Feeds(step: Step, port: Port, available: seq<Supply>, s: Supply) {
    if port.role in step.wires then
      var values := WireValues(step.wires[port.role], port.multiple);
      exists k :: 0 <= k < |values| && Resolve(values[k], Index(available)) == Some(s)
    else port.required && s in available && Suits(step.processor, port, s)
  }

  ghost predicate FedBy(step: Step, port: Port, available: seq<Supply>, ref: string) {
    ref != INPUTS && exists s :: Feeds(step, port, available, s) && s.ref == ref
  }

  lemma {:induction false} ValuesDepsChar(deps: seq<string>, values: seq<WireValue>, n: nat, byWire: map<string, Supply>, x: string)
    requires n <= |values| && NoDup(deps)
    ensures x in ValuesDeps(deps, values, n, byWire)
       <==> x in deps || (x != INPUTS && exists k :: 0 <= k < n && Resolve(values[k], byWire).Some?
                                                     && Resolve(values[k], byWire).value.ref == x)
  {
    hide Resolve;
    if n > 0 {
      ValuesDepsChar(deps, values, n - 1, byWire, x);
    }
  }

  /** Once `available[k]` is known to be the only candidate, stopping at it loses nothing. */
  lemma {:induction false} InferredDepsChar(deps: seq<string>, processor: string, port: Port, available: seq<Supply>, k: nat, x: string)
    requires k <= |available| && NoDup(deps)
    requires !port.multiple ==>
               forall i, j :: Candidate(available, i, port.dtype) && Candidate(available, j, port.dtype) ==> i == j
    ensures x in InferredDeps(deps, processor, port, available, k)
       <==> x in deps || (x != INPUTS && exists j :: k <= j < |available| && Suits(processor, port, available[j])
                                                     && available[j].ref == x)
    decreases |available| - k
  {
    if k < |available| {
      if Suits(processor, port, available[k]) {
        assert Candidate(available, k, port.dtype);
        var deps' := AddDep(deps, available[k].ref);
        if port.multiple {
          InferredDepsChar(deps', processor, port, available, k + 1, x);
        } else {
          forall j | k <= j < |available| && Suits(processor, port, available[j]) ensures j == k {
            assert Candidate(available, j, port.dtype);
          }
        }
      } else {
        InferredDepsChar(deps, processor, port, available, k + 1, x);
      }
    }
  }

  lemma PortDepsChar(deps: seq<string>, step: Step, port: Port, available: seq<Supply>, x: string)
    requires NoDup(deps) && PortTyped(step, port, available)
    ensures x in PortDeps(deps, step, port, available) <==> x in deps || FedBy(step, port, available, x)
  {
    hide Resolve, Index, Suits, WiredTyped;
    if port.role in step.wires {
      var values := WireValues(step.wires[port.role], port.multiple);
      var byWire := Index(available);
      ValuesDepsChar(deps, values, |values|, byWire, x);
      if FedBy(step, port, available, x) {
        var s :| Feeds(step, port, available, s) && s.ref == x;
        var k :| 0 <= k < |values| && Resolve(values[k], byWire) == Some(s);
      }
      if k :| 0 <= k < |values| && Resolve(values[k], byWire).Some? && Resolve(values[k], byWire).value.ref == x {
        assert Feeds(step, port, available, Resolve(values[k], byWire).value);
      }
    } else if port.required {
      InferredDepsChar(deps, step.processor, port, available, 0, x);
      if FedBy(step, port, available, x) {
        var s :| Feeds(step, port, available, s) && s.ref == x;
        var j :| 0 <= j < |available| && available[j] == s;
      }
      if j :| 0 <= j < |available| && Suits(step.processor, port, available[j]) && available[j].ref == x {
        assert Feeds(step, port, available, available[j]);
      }
    }
  }

  lemma {:induction false} PortsDepsChar(step: Step, consumer: seq<Port>, n: nat, available: seq<Supply>, x: string)
    requires n <= |consumer| && AllPortsTyped(step, consumer, n, available)
    ensures x in PortsDeps(step, consumer, n, available) <==> exists k :: 0 <= k < n && FedBy(step, consumer[k], available, x)
  {
    hide PortTyped, FedBy, PortDeps;
    if n > 0 {
      PortsDepsChar(step, consumer, n - 1, available, x);
      PortDepsChar(PortsDeps(step, consumer, n - 1, available), step, consumer[n - 1], available, x);
    }
  }

  /** Only supplies of the judgement feed a typed port. */
  lemma FeederIsAvailable(step: Step, port: Port, available: seq<Supply>, s: Supply)
    requires Feeds(step, port, available, s)
    ensures s in available
  {
    if port.role in step.wires {
      var values := WireValues(step.wires[port.role], port.multiple);
      var k :| 0 <= k < |values| && Resolve(values[k], Index(available)) == Some(s);
      ResolvesToLatest(values[k], available, s);
      var j :| Latest(available, j, values[k].text) && available[j] == s;
      assert available[j] in available;
    }
  }

  lemma {:induction false} DepsAt(steps: seq<Step>, n: nat, i: nat, inputs: seq<string>, registry: Registry)
    requires i < n <= |steps| && forall j :: 0 <= j < n ==> FreshRef(steps, j)
    ensures steps[i].ref in DepsUpTo(steps, n, inputs, registry)
    ensures DepsUpTo(steps, n, inputs, registry)[steps[i].ref]
            == StepDeps(steps[i], registry, AvailableBefore(steps, i, inputs, registry))
  {
    hide StepDeps, AvailableBefore;
    if i < n - 1 {
      DepsAt(steps, n - 1, i, inputs, registry);
      assert FreshRef(steps, n - 1);
    }
  }

  /** Some port of step `i` is fed from the step called `ref`. */
  ghost predicate StepFedBy(steps: seq<Step>, i: nat, inputs: seq<string>, registry: Registry, ref: string)
    requires i < |steps| && steps[i].processor in registry
  {
    var consumer := ConsumerPorts(registry[steps[i].processor]);
    exists k :: 0 <= k < |consumer| && FedBy(steps[i], consumer[k], AvailableBefore(steps, i, inputs, registry), ref)
  }

  /** On an accepted list the dependencies of a step are, each once, exactly the steps that feed its
      ports, and every one of them comes strictly earlier: the list is a topological order. */
  lemma DependenciesExact(steps: seq<Step>, inputs: seq<string>, registry: Registry, known: set<string>, i: nat)
    requires i < |steps| && StrictErrors(steps, |steps|, inputs, registry, known) == []
    ensures steps[i].ref in DepsUpTo(steps, |steps|, inputs, registry) && steps[i].processor in registry
    ensures var deps := DepsUpTo(steps, |steps|, inputs, registry)[steps[i].ref];
            && NoDup(deps)
            && (forall x :: x in deps <==> StepFedBy(steps, i, inputs, registry, x))
            && (forall x :: x in deps ==> exists j :: 0 <= j < i && steps[j].ref == x)
  {
    hide StrictErrors, AvailableBefore, ConsumerPorts, AttributesTyped, FedBy, PortsDeps, PortTyped;
    StrictErrorsSound(steps, inputs, registry, known);
    forall j | 0 <= j < |steps| ensures FreshRef(steps, j) {
      assert TypedAt(steps, j, inputs, registry, known);
    }
    assert TypedAt(steps, i, inputs, registry, known);
    DepsAt(steps, |steps|, i, inputs, registry);
    var available, consumer := AvailableBefore(steps, i, inputs, registry), ConsumerPorts(registry[steps[i].processor]);
    var deps := DepsUpTo(steps, |steps|, inputs, registry)[steps[i].ref];
    assert deps == PortsDeps(steps[i], consumer, |consumer|, available);
    forall x ensures x in deps <==> StepFedBy(steps, i, inputs, registry, x) {
      PortsDepsChar(steps[i], consumer, |consumer|, available, x);
    }
    forall x | x in deps ensures exists j :: 0 <= j < i && steps[j].ref == x {
      assert StepFedBy(steps, i, inputs, registry, x);
      FeederIsEarlier(steps, i, inputs, registry, x);
    }
  }

  lemma FeederIsEarlier(steps: seq<Step>, i: nat, inputs: seq<string>, registry: Registry, x: string)
    requires i < |steps| && steps[i].processor in registry && StepFedBy(steps, i, inputs, registry, x)
    ensures exists j :: 0 <= j < i && steps[j].ref == x
  {
    hide AvailableBefore, Feeds, ConsumerPorts;
    var consumer, available := ConsumerPorts(registry[steps[i].processor]), AvailableBefore(steps, i, inputs, registry);
    var k :| 0 <= k < |consumer| && FedBy(steps[i], consumer[k], available, x);
    var s :| Feeds(steps[i], consumer[k], available, s) && s.ref == x;
    FeederIsAvailable(steps[i], consumer[k], available, s);
    AvailableOrigins(steps, i, inputs, registry, s);
    assert s !in InputSupplies(inputs);
    var j :| 0 <= j < i && SuppliedBy(steps, j, registry, s);
    assert steps[j].ref == x;
  }
}

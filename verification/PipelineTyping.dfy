/** The typing judgement for pipelines, stated without reference to any validator: which
    supplies each port of each step is fed by, and what makes that acceptable. */
module PipelineTyping {
  import opened Prelude
  import opened Attributes
  import opened Processors
  import opened Wires

  /** Mapping and triangulation want matches that a `verify` step supplied; nothing else does. */
  predicate WantsVerified(processor: string, role: string) {
    role == "matches" && (processor == "map" || processor == "triangulate")
  }

  /** `s` may feed `port` of a step that runs `processor`. */
  predicate Suits(processor: string, port: Port, s: Supply) {
    s.dtype == port.dtype && (WantsVerified(processor, port.role) ==> s.verified)
  }

  // ----- a wired port -----

  /** The supply that a wire value stands for. */
  function Resolve(v: WireValue, byWire: map<string, Supply>): Option<Supply> {
    if v.Ref? && WellFormedRef(v.text) && v.text in byWire then Some(byWire[v.text]) else None
  }

  /** A value resolves to the latest supply that carries its text as wire name, and to nothing else. */
  lemma ResolvesToLatest(v: WireValue, available: seq<Supply>, s: Supply)
    ensures Resolve(v, Index(available)) == Some(s) <==> v.Ref? && WellFormedRef(v.text) && Named(available, v.text, s)
  {
    if v.Ref? {
      IndexNames(available, v.text, s);
    }
  }

  predicate ValueTyped(processor: string, port: Port, v: WireValue, byWire: map<string, Supply>) {
    var s := Resolve(v, byWire);
    s.Some? && Suits(processor, port, s.value)
  }

  ghost predicate AllValuesTyped(processor: string, port: Port, values: seq<WireValue>, n: nat, byWire: map<string, Supply>)
    requires n <= |values|
  {
    forall k :: 0 <= k < n ==> ValueTyped(processor, port, values[k], byWire)
  }

  /** Every value names a suitable supply; fan-in is one, or several different names, and at
      least two of them when the port insists on being fed. */
  ghost predicate WiredTyped(processor: string, port: Port, w: Wire, byWire: map<string, Supply>) {
    var values := WireValues(w, port.multiple);
    && (port.multiple || w.One?)
    && AllValuesTyped(processor, port, values, |values|, byWire)
    && (port.multiple ==> NoDup(values))
    && (port.multiple && port.required ==> |values| >= 2)
  }

  // ----- a port left to inference -----

  ghost predicate Candidate(available: seq<Supply>, j: int, dtype: string) {
    0 <= j < |available| && available[j].dtype == dtype
  }

  /** Fan-in of an inferred port: exactly one supply of the datatype, or two under different names. */
  ghost predicate InferredFanIn(port: Port, available: seq<Supply>) {
    if port.multiple then
      exists i, j :: Candidate(available, i, port.dtype) && Candidate(available, j, port.dtype)
                     && available[i].WireRef() != available[j].WireRef()
    else
      && (exists j :: Candidate(available, j, port.dtype))
      && (forall i, j :: Candidate(available, i, port.dtype) && Candidate(available, j, port.dtype) ==> i == j)
  }

  ghost predicate InferredTyped(processor: string, port: Port, available: seq<Supply>) {
    && InferredFanIn(port, available)
    && (WantsVerified(processor, port.role) ==>
          exists j :: Candidate(available, j, port.dtype) && available[j].verified)
  }

  // ----- ports, steps, pipelines -----

  ghost predicate PortTyped(step: Step, port: Port, available: seq<Supply>) {
    if port.role in step.wires then WiredTyped(step.processor, port, step.wires[port.role], Index(available))
    else port.required ==> InferredTyped(step.processor, port, available)
  }

  ghost predicate AllPortsTyped(step: Step, consumer: seq<Port>, n: nat, available: seq<Supply>)
    requires n <= |consumer|
  {
    forall k :: 0 <= k < n ==> PortTyped(step, consumer[k], available)
  }

  ghost predicate StepTyped(step: Step, consumer: seq<Port>, attributes: seq<Attribute>, known: set<string>,
                            available: seq<Supply>)
  {
    && AttributesTyped(attributes, step.attributes, known)
    && step.wires.Keys <= Roles(consumer)
    && AllPortsTyped(step, consumer, |consumer|, available)
  }

  ghost predicate KnownStepTyped(step: Step, p: Processor, known: set<string>, available: seq<Supply>) {
    StepTyped(step, ConsumerPorts(p), p.attributes + p.specialAttributes, known, available)
  }

  /** What the initial inputs and the first `n` steps supply. */
  function AvailableBefore(steps: seq<Step>, n: nat, inputs: seq<string>, registry: Registry): seq<Supply>
    requires n <= |steps|
  {
    if n == 0 then InputSupplies(inputs)
    else
      var step := steps[n - 1];
      AvailableBefore(steps, n - 1, inputs, registry)
      + (if step.processor in registry then StepSupplies(step, registry[step.processor].supplier) else [])
  }

  ghost predicate FreshRef(steps: seq<Step>, i: nat)
    requires i < |steps|
  {
    steps[i].ref != INPUTS && forall j :: 0 <= j < i ==> steps[j].ref != steps[i].ref
  }

  ghost predicate TypedAt(steps: seq<Step>, i: nat, inputs: seq<string>, registry: Registry, known: set<string>)
    requires i < |steps|
  {
    && FreshRef(steps, i)
    && steps[i].processor in registry
    && KnownStepTyped(steps[i], registry[steps[i].processor], known, AvailableBefore(steps, i, inputs, registry))
  }

  /** The first `n` steps type-check from `inputs`. */
  ghost predicate TypedUpTo(steps: seq<Step>, n: nat, inputs: seq<string>, registry: Registry, known: set<string>)
    requires n <= |steps|
  {
    NoDup(inputs) && forall i :: 0 <= i < n ==> TypedAt(steps, i, inputs, registry, known)
  }

  ghost predicate WellTyped(steps: seq<Step>, inputs: seq<string>, registry: Registry, known: set<string>) {
    TypedUpTo(steps, |steps|, inputs, registry, known)
  }

  /** Only the steps before `n` matter for what is available there. */
  lemma {:induction false} AvailablePrefix(steps: seq<Step>, steps': seq<Step>, n: nat, inputs: seq<string>, registry: Registry)
    requires n <= |steps| && n <= |steps'| && steps[..n] == steps'[..n]
    ensures AvailableBefore(steps, n, inputs, registry) == AvailableBefore(steps', n, inputs, registry)
  {
    if n > 0 {
      assert steps[..n][n - 1] == steps'[..n][n - 1];
      assert steps[..n - 1] == steps[..n][..n - 1] && steps'[..n - 1] == steps'[..n][..n - 1];
      AvailablePrefix(steps, steps', n - 1, inputs, registry);
    }
  }

  /** Every supply comes from the initial inputs or from a supplier port of an earlier step. */
  ghost predicate SuppliedBy(steps: seq<Step>, j: int, registry: Registry, s: Supply) {
    && 0 <= j < |steps| && steps[j].processor in registry
    && exists k :: 0 <= k < |registry[steps[j].processor].supplier|
                   && IsSupplyOf(steps[j], registry[steps[j].processor].supplier[k], s)
  }

  /** The supply of a port carries the step's reference and the port's name and datatype; it is verified matches when
      it is the match graph that a `verify` step supplies under `matches`. */
  ghost predicate IsSupplyOf(step: Step, port: Port, s: Supply) {
    && s.ref == step.ref && s.port == port.role && s.dtype == port.dtype
    && (s.verified <==> port.role == "matches" && port.dtype == "match_graph" && step.processor == "verify")
  }

  lemma {:induction false} AvailableOrigins(steps: seq<Step>, n: nat, inputs: seq<string>, registry: Registry, s: Supply)
    requires n <= |steps|
    ensures s in AvailableBefore(steps, n, inputs, registry)
       <==> s in InputSupplies(inputs) || exists j :: 0 <= j < n && SuppliedBy(steps, j, registry, s)
  {
    if n > 0 {
      AvailableOrigins(steps, n - 1, inputs, registry, s);
      var step := steps[n - 1];
      if step.processor in registry {
        var supplier := registry[step.processor].supplier;
        var more := StepSupplies(step, supplier);
        if s in more {
          var k :| 0 <= k < |more| && more[k] == s;
          assert IsSupplyOf(step, supplier[k], s);
          assert SuppliedBy(steps, n - 1, registry, s);
        }
        if SuppliedBy(steps, n - 1, registry, s) {
          var k :| 0 <= k < |supplier| && IsSupplyOf(step, supplier[k], s);
          assert more[k] == s;
        }
      }
    }
  }

  // ----- wire names are unique in a well-shaped pipeline -----

  ghost predicate DotFree(available: seq<Supply>) {
    forall j :: 0 <= j < |available| ==> '.' !in available[j].ref
  }

  ghost predicate UniqueNames(available: seq<Supply>) {
    forall i, j :: 0 <= i < j < |available| ==> available[i].WireRef() != available[j].WireRef()
  }

  /** Fresh dot-free references, distinct supplier roles and distinct inputs give every supply a
      wire name of its own. */
  lemma {:induction false} NamesUnique(steps: seq<Step>, n: nat, inputs: seq<string>, registry: Registry)
    requires n <= |steps| && NoDup(inputs)
    requires forall i :: 0 <= i < n ==> FreshRef(steps, i) && '.' !in steps[i].ref
    requires forall p :: p in registry ==> DistinctRoles(registry[p].supplier)
    ensures UniqueNames(AvailableBefore(steps, n, inputs, registry)) && DotFree(AvailableBefore(steps, n, inputs, registry))
  {
    var available := AvailableBefore(steps, n, inputs, registry);
    if n == 0 {
      forall i, j | 0 <= i < j < |available| ensures available[i].WireRef() != available[j].WireRef() {
        if available[i].WireRef() == available[j].WireRef() {
          WireNamesInjective(INPUTS, inputs[i], INPUTS, inputs[j]);
        }
      }
    } else {
      NamesUnique(steps, n - 1, inputs, registry);
      var step, before := steps[n - 1], AvailableBefore(steps, n - 1, inputs, registry);
      if step.processor in registry {
        var more := StepSupplies(step, registry[step.processor].supplier);
        forall i, j | 0 <= i < |before| && 0 <= j < |more| ensures before[i].WireRef() != more[j].WireRef() {
          OlderRef(steps, n, inputs, registry, before[i]);
          if before[i].WireRef() == more[j].WireRef() {
            WireNamesInjective(before[i].ref, before[i].port, more[j].ref, more[j].port);
          }
        }
        forall i, j | 0 <= i < j < |more| ensures more[i].WireRef() != more[j].WireRef() {
          if more[i].WireRef() == more[j].WireRef() {
            WireNamesInjective(more[i].ref, more[i].port, more[j].ref, more[j].port);
          }
        }
        NamesAppend(before, more);
      }
    }
  }

  /** What was supplied before step `n - 1` carries another reference than that step. */
  lemma OlderRef(steps: seq<Step>, n: nat, inputs: seq<string>, registry: Registry, s: Supply)
    requires 0 < n <= |steps| && FreshRef(steps, n - 1)
    requires s in AvailableBefore(steps, n - 1, inputs, registry)
    ensures s.ref != steps[n - 1].ref
  {
    AvailableOrigins(steps, n - 1, inputs, registry, s);
    if s !in InputSupplies(inputs) {
      var j :| 0 <= j < n - 1 && SuppliedBy(steps, j, registry, s);
      assert s.ref == steps[j].ref;
    }
  }

  lemma NamesAppend(a: seq<Supply>, b: seq<Supply>)
    requires UniqueNames(a) && UniqueNames(b)
    requires forall i, j :: 0 <= i < |a| && 0 <= j < |b| ==> a[i].WireRef() != b[j].WireRef()
    ensures UniqueNames(a + b)
  {
    var c := a + b;
    forall i, j | 0 <= i < j < |c| ensures c[i].WireRef() != c[j].WireRef() {
      assert c[i] == if i < |a| then a[i] else b[i - |a|];
      assert c[j] == if j < |a| then a[j] else b[j - |a|];
    }
  }
}

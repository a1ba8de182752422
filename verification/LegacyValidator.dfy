/** The historical flat validator for lists of operation ids: it counts datatypes and knows no
    wires. It accepts exactly the lists that can be wired into a well-typed pipeline. */
module LegacyValidator {
  import opened Prelude
  import opened Attributes
  import opened Processors
  import opened Wires
  import opened PipelineTyping
  import opened StrictValidator

  // ----- the flat check -----

  /** How often each datatype is available before operation `n`. */
  function Counts(ops: seq<string>, n: nat, inputs: seq<string>, registry: Registry): multiset<string>
    requires n <= |ops|
  {
    if n == 0 then multiset(inputs)
    else
      Counts(ops, n - 1, inputs, registry)
      + (if ops[n - 1] in registry then multiset(Produces(registry[ops[n - 1]])) else multiset{})
  }

  /** The number of match graphs that `verify` supplied before operation `n`. */
  function VerifiedGraphs(ops: seq<string>, n: nat, registry: Registry): nat
    requires n <= |ops|
  {
    if n == 0 then 0
    else
      VerifiedGraphs(ops, n - 1, registry)
      + (if ops[n - 1] == "verify" && "verify" in registry
         then multiset(Produces(registry["verify"]))["match_graph"] else 0)
  }

  predicate Missing(p: Processor, available: multiset<string>) {
    exists k | 0 <= k < |p.consumer| :: available[p.consumer[k].dtype] == 0
  }

  function FlatPortErrors(op: string, port: Port, available: multiset<string>, verified: nat): seq<Reason> {
    (if port.multiple && port.required && available[port.dtype] == 1 then [InvalidFanIn] else [])
    + (if RequiresVerified(op, port.role) && available[port.dtype] > 0 && verified == 0 then [UnverifiedMatchGraph] else [])
  }

  function FlatPortsErrors(op: string, consumer: seq<Port>, n: nat, available: multiset<string>, verified: nat): seq<Reason>
    requires n <= |consumer|
  {
    if n == 0 then []
    else FlatPortsErrors(op, consumer, n - 1, available, verified) + FlatPortErrors(op, consumer[n - 1], available, verified)
  }

  function FlatStepErrors(op: string, registry: Registry, available: multiset<string>, verified: nat): seq<Reason> {
    if op !in registry then [UnknownProcessor]
    else
      var p := registry[op];
      (if Missing(p, available) then [MissingRequiredPort] else [])
      + FlatPortsErrors(op, p.consumer, |p.consumer|, available, verified)
  }

  function LegacyErrors(ops: seq<string>, n: nat, inputs: seq<string>, registry: Registry): seq<ChainError>
    requires n <= |ops|
  {
    if n == 0 then []
    else LegacyErrors(ops, n - 1, inputs, registry)
         + Tag(AtStep(n - 1), FlatStepErrors(ops[n - 1], registry, Counts(ops, n - 1, inputs, registry),
                                             VerifiedGraphs(ops, n - 1, registry)))
  }

  method LegacyValidatePipeline(ops: seq<string>, inputs: seq<string>, registry: Registry) returns (errors: seq<ChainError>)
    ensures errors == LegacyErrors(ops, |ops|, inputs, registry)
  {
    hide FlatPortErrors, Missing, RequiresVerified;
    var available := multiset(inputs);
    var verified := 0;
    errors := [];
    for i := 0 to |ops|
      invariant available == Counts(ops, i, inputs, registry)
      invariant verified == VerifiedGraphs(ops, i, registry)
      invariant errors == LegacyErrors(ops, i, inputs, registry)
    {
      var op := ops[i];
      if op !in registry {
        errors := errors + [ChainError(AtStep(i), UnknownProcessor)];
      } else {
        var found := CheckFlatStep(op, registry, available, verified);
        errors := errors + Tag(AtStep(i), found);
        available := available + multiset(Produces(registry[op]));
        if op == "verify" {
          verified := verified + multiset(Produces(registry[op]))["match_graph"];
        }
      }
    }
  }

  method CheckFlatStep(op: string, registry: Registry, available: multiset<string>, verified: nat)
    returns (errors: seq<Reason>)
    requires op in registry
    ensures errors == FlatStepErrors(op, registry, available, verified)
  {
    var p := registry[op];
    var first := if Missing(p, available) then [MissingRequiredPort] else [];
    var rest: seq<Reason> := [];
    for k := 0 to |p.consumer|
      invariant rest == FlatPortsErrors(op, p.consumer, k, available, verified)
    {
      var port, found := p.consumer[k], [];
      if port.multiple && port.required && available[port.dtype] == 1 {
        found := [InvalidFanIn];
      }
      if RequiresVerified(op, port.role) && available[port.dtype] > 0 && verified == 0 {
        found := found + [UnverifiedMatchGraph];
      }
      assert found == FlatPortErrors(op, port, available, verified);
      rest := rest + found;
    }
    errors := first + rest;
  }

  // ----- what an empty list of errors means -----

  predicate FlatPortOk(op: string, port: Port, available: multiset<string>, verified: nat) {
    && available[port.dtype] > 0
    && (port.multiple && port.required ==> available[port.dtype] >= 2)
    && (WantsVerified(op, port.role) ==> verified > 0)
  }

  ghost predicate FlatOk(op: string, registry: Registry, available: multiset<string>, verified: nat) {
    && op in registry
    && forall k :: 0 <= k < |registry[op].consumer| ==> FlatPortOk(op, registry[op].consumer[k], available, verified)
  }

  lemma {:induction false} FlatPortsErrorsSound(op: string, consumer: seq<Port>, n: nat, available: multiset<string>, verified: nat)
    requires n <= |consumer|
    ensures FlatPortsErrors(op, consumer, n, available, verified) == []
       <==> forall k :: 0 <= k < n ==> FlatPortErrors(op, consumer[k], available, verified) == []
  {
    hide FlatPortErrors;
    if n > 0 {
      FlatPortsErrorsSound(op, consumer, n - 1, available, verified);
    }
  }

  lemma FlatStepErrorsSound(op: string, registry: Registry, available: multiset<string>, verified: nat)
    ensures FlatStepErrors(op, registry, available, verified) == [] <==> FlatOk(op, registry, available, verified)
  {
    if op in registry {
      var p := registry[op];
      FlatPortsErrorsSound(op, p.consumer, |p.consumer|, available, verified);
      if FlatOk(op, registry, available, verified) {
        forall k | 0 <= k < |p.consumer| ensures FlatPortErrors(op, p.consumer[k], available, verified) == [] {
          assert FlatPortOk(op, p.consumer[k], available, verified);
        }
        assert !Missing(p, available);
      } else {
        var k :| 0 <= k < |p.consumer| && !FlatPortOk(op, p.consumer[k], available, verified);
        assert available[p.consumer[k].dtype] == 0 || FlatPortErrors(op, p.consumer[k], available, verified) != [];
      }
    }
  }

  /** The reasons of one port: a wrong fan-in if it wants two and exactly one is counted, unverified if it wants that and
      nothing verified is counted although its datatype is. */
  ghost predicate FlatPortReason(op: string, port: Port, available: multiset<string>, verified: nat, r: Reason) {
    || (r == InvalidFanIn && port.multiple && port.required && available[port.dtype] == 1)
    || (r == UnverifiedMatchGraph && WantsVerified(op, port.role) && verified == 0 && port.dtype in available)
  }

  lemma {:induction false} FlatPortsReasons(op: string, consumer: seq<Port>, n: nat, available: multiset<string>, verified: nat,
                                            r: Reason)
    requires n <= |consumer|
    ensures r in FlatPortsErrors(op, consumer, n, available, verified) <==>
              exists k :: 0 <= k < n && FlatPortReason(op, consumer[k], available, verified, r)
  {
    if n > 0 {
      FlatPortsReasons(op, consumer, n - 1, available, verified, r);
      assert r in FlatPortErrors(op, consumer[n - 1], available, verified) <==>
             FlatPortReason(op, consumer[n - 1], available, verified, r);
    }
  }

  /** Unknown operations have that reason alone; a known one misses an input if one of its datatypes is not counted, and
      has the reasons of its ports. */
  lemma FlatReasons(op: string, registry: Registry, available: multiset<string>, verified: nat, r: Reason)
    ensures r in FlatStepErrors(op, registry, available, verified) <==>
              if op !in registry then r == UnknownProcessor
              else || (r == MissingRequiredPort && exists q :: q in registry[op].consumer && q.dtype !in available)
                   || (exists k :: 0 <= k < |registry[op].consumer|
                                   && FlatPortReason(op, registry[op].consumer[k], available, verified, r))
  {
    if op in registry {
      var p := registry[op];
      FlatPortsReasons(op, p.consumer, |p.consumer|, available, verified, r);
      hide FlatPortReason, FlatPortsErrors;
      if Missing(p, available) {
        var k :| 0 <= k < |p.consumer| && available[p.consumer[k].dtype] == 0;
        assert p.consumer[k] in p.consumer && p.consumer[k].dtype !in available;
      }
      if q :| q in p.consumer && q.dtype !in available {
        var k :| 0 <= k < |p.consumer| && p.consumer[k] == q;
        assert available[p.consumer[k].dtype] == 0;
      }
    }
  }

  ghost predicate FlatOkAt(ops: seq<string>, i: nat, inputs: seq<string>, registry: Registry)
    requires i < |ops|
  {
    FlatOk(ops[i], registry, Counts(ops, i, inputs, registry), VerifiedGraphs(ops, i, registry))
  }

  lemma {:induction false} LegacyErrorsSound(ops: seq<string>, n: nat, inputs: seq<string>, registry: Registry)
    requires n <= |ops|
    ensures LegacyErrors(ops, n, inputs, registry) == [] <==> forall i :: 0 <= i < n ==> FlatOkAt(ops, i, inputs, registry)
  {
    hide FlatOk, FlatStepErrors;
    if n > 0 {
      LegacyErrorsSound(ops, n - 1, inputs, registry);
      var counts, verified := Counts(ops, n - 1, inputs, registry), VerifiedGraphs(ops, n - 1, registry);
      FlatStepErrorsSound(ops[n - 1], registry, counts, verified);
      var tagged := Tag(AtStep(n - 1), FlatStepErrors(ops[n - 1], registry, counts, verified));
      assert LegacyErrors(ops, n, inputs, registry) == LegacyErrors(ops, n - 1, inputs, registry) + tagged;
      assert tagged == [] <==> FlatOkAt(ops, n - 1, inputs, registry);
    }
  }

  // ----- the registries the equivalence is for -----

  /** What the processor tables guarantee about one processor: every consumer port is required
      and has a datatype, extensions only add optional ports under other roles, no attribute is required, supplier
      roles are distinct names without dots. */
  ghost predicate PlainProcessor(p: Processor) {
    && (forall q :: q in p.consumer ==> q.required && q.dtype != "")
    && (forall q :: q in p.specialInputs ==> !q.required)
    && Roles(p.consumer) !! Roles(p.specialInputs)
    && DistinctRoles(p.consumer) && DistinctRoles(p.specialInputs) && DistinctRoles(p.supplier)
    && (forall a :: a in ProcessorAttributes(p) ==> !a.required)
    && (forall q :: q in p.supplier ==> q.role != "" && '.' !in q.role)
  }

  /** ... and about match graphs: mapping and triangulation take one, and `verify` supplies them
      under the role `matches`. */
  ghost predicate MatchGraphConventions(id: string, p: Processor) {
    && (forall q :: q in p.consumer && WantsVerified(id, q.role) ==> q.dtype == "match_graph" && !q.multiple)
    && (id == "verify" ==> forall q :: q in p.supplier && q.dtype == "match_graph" ==> q.role == "matches")
  }

  ghost predicate PlainRegistry(registry: Registry) {
    forall id :: id in registry ==> PlainProcessor(registry[id]) && MatchGraphConventions(id, registry[id])
  }

  // ----- counters and supplies -----

  ghost predicate Elaborates(steps: seq<Step>, ops: seq<string>) {
    |steps| == |ops| && forall i :: 0 <= i < |ops| ==> steps[i].processor == ops[i]
  }

  function Dtypes(available: seq<Supply>): (ds: seq<string>)
    ensures |ds| == |available| && forall k :: 0 <= k < |ds| ==> ds[k] == available[k].dtype
  {
    seq(|available|, k requires 0 <= k < |available| => available[k].dtype)
  }

  /** The counter is the supply list seen through its datatypes. */
  lemma {:induction false} CountsAreSupplies(steps: seq<Step>, ops: seq<string>, n: nat, inputs: seq<string>, registry: Registry)
    requires Elaborates(steps, ops) && n <= |ops|
    ensures multiset(Dtypes(AvailableBefore(steps, n, inputs, registry))) == Counts(ops, n, inputs, registry)
  {
    var available := AvailableBefore(steps, n, inputs, registry);
    if n == 0 {
      assert Dtypes(available) == inputs;
    } else {
      CountsAreSupplies(steps, ops, n - 1, inputs, registry);
      var before := AvailableBefore(steps, n - 1, inputs, registry);
      assert steps[n - 1].processor == ops[n - 1];
      if ops[n - 1] in registry {
        assert Dtypes(available) == Dtypes(before) + Produces(registry[ops[n - 1]]);
      } else {
        assert available == before;
      }
    }
  }

  lemma CountedSupplies(available: seq<Supply>, dtype: string)
    ensures multiset(Dtypes(available))[dtype] >= 1 <==> exists j :: Candidate(available, j, dtype)
    ensures multiset(Dtypes(available))[dtype] >= 2
       <==> exists i, j :: i < j && Candidate(available, i, dtype) && Candidate(available, j, dtype)
  {
    var ds := Dtypes(available);
    CountOneTwo(ds, dtype);
    if i :| 0 <= i < |ds| && ds[i] == dtype {
      assert Candidate(available, i, dtype);
    }
    if i, j :| 0 <= i < j < |ds| && ds[i] == dtype && ds[j] == dtype {
      assert Candidate(available, i, dtype) && Candidate(available, j, dtype);
    }
    if j :| Candidate(available, j, dtype) {
      assert ds[j] == dtype;
    }
    if i, j :| i < j && Candidate(available, i, dtype) && Candidate(available, j, dtype) {
      assert ds[i] == dtype && ds[j] == dtype;
    }
  }

  /** A step supplies something verified exactly when it is a `verify` that produces a match graph. */
  lemma VerifiedStep(step: Step, registry: Registry)
    requires PlainRegistry(registry) && step.processor in registry
    ensures var supplier := registry[step.processor].supplier;
            (exists s :: s in StepSupplies(step, supplier) && s.verified)
            <==> step.processor == "verify" && multiset(DtypesOf(supplier))["match_graph"] >= 1
  {
    hide PlainProcessor;
    var supplier := registry[step.processor].supplier;
    var more := StepSupplies(step, supplier);
    CountOneTwo(DtypesOf(supplier), "match_graph");
    if s :| s in more && s.verified {
      var k :| 0 <= k < |more| && more[k] == s;
      assert DtypesOf(supplier)[k] == "match_graph";
    }
    if step.processor == "verify" && multiset(DtypesOf(supplier))["match_graph"] >= 1 {
      var k :| 0 <= k < |supplier| && DtypesOf(supplier)[k] == "match_graph";
      assert supplier[k] in supplier && MatchGraphConventions("verify", registry["verify"]);
      assert more[k] in more && more[k].verified;
    }
  }

  /** Some supply before step `n` is verified exactly when the flat counter is positive. */
  lemma {:induction false} VerifiedSupplies(steps: seq<Step>, ops: seq<string>, n: nat, inputs: seq<string>, registry: Registry)
    requires Elaborates(steps, ops) && n <= |ops| && PlainRegistry(registry)
    ensures VerifiedGraphs(ops, n, registry) > 0
       <==> exists s :: s in AvailableBefore(steps, n, inputs, registry) && s.verified
  {
    hide PlainRegistry, StepSupplies;
    if n > 0 {
      VerifiedSupplies(steps, ops, n - 1, inputs, registry);
      var before := AvailableBefore(steps, n - 1, inputs, registry);
      var step := steps[n - 1];
      if step.processor in registry {
        VerifiedStep(step, registry);
      }
    }
  }

  // ----- a well-typed pipeline satisfies the flat check -----

  /** A typed required port has a candidate, a verified one if it wants that, and two if it is multiple. */
  lemma TypedPortHasCandidates(step: Step, port: Port, available: seq<Supply>)
    requires PortTyped(step, port, available) && port.required
    ensures exists j :: Candidate(available, j, port.dtype)
    ensures WantsVerified(step.processor, port.role) ==> exists s :: s in available && s.verified
    ensures port.multiple ==> exists i, j :: i < j && Candidate(available, i, port.dtype) && Candidate(available, j, port.dtype)
  {
    if port.role in step.wires {
      WiredPortHasCandidates(step.processor, port, step.wires[port.role], available);
    } else if port.multiple {
      var i, j :| Candidate(available, i, port.dtype) && Candidate(available, j, port.dtype)
                  && available[i].WireRef() != available[j].WireRef();
      if j < i {
        assert j < i && Candidate(available, j, port.dtype) && Candidate(available, i, port.dtype);
      }
    }
  }

  lemma ValueHasCandidate(processor: string, port: Port, v: WireValue, available: seq<Supply>) returns (j: nat)
    requires ValueTyped(processor, port, v, Index(available))
    ensures Candidate(available, j, port.dtype) && Suits(processor, port, available[j])
    ensures v == Ref(available[j].WireRef())
  {
    var s := Resolve(v, Index(available)).value;
    ResolvesToLatest(v, available, s);
    j :| Latest(available, j, v.text) && available[j] == s;
  }

  lemma WiredPortHasCandidates(processor: string, port: Port, w: Wire, available: seq<Supply>)
    requires WiredTyped(processor, port, w, Index(available)) && port.required
    ensures exists j :: Candidate(available, j, port.dtype)
    ensures WantsVerified(processor, port.role) ==> exists s :: s in available && s.verified
    ensures port.multiple ==> exists i, j :: i < j && Candidate(available, i, port.dtype) && Candidate(available, j, port.dtype)
  {
    hide Index, ValueTyped;
    var values := WireValues(w, port.multiple);
    assert |values| >= 1;
    var a := ValueHasCandidate(processor, port, values[0], available);
    assert available[a] in available;
    if port.multiple {
      var b := ValueHasCandidate(processor, port, values[1], available);
      assert values[0] != values[1] && a != b;
      if b < a {
        assert b < a && Candidate(available, b, port.dtype) && Candidate(available, a, port.dtype);
      }
    }
  }

  lemma ConsumerPortsPlain(p: Processor)
    requires PlainProcessor(p)
    ensures ConsumerPorts(p) == p.consumer + p.specialInputs
  {
    MergeFreshPorts(p.consumer, p.specialInputs);
  }

  lemma WellTypedIsFlatOk(steps: seq<Step>, ops: seq<string>, i: nat, inputs: seq<string>, registry: Registry, known: set<string>)
    requires Elaborates(steps, ops) && i < |ops| && PlainRegistry(registry)
    requires TypedAt(steps, i, inputs, registry, known)
    ensures FlatOkAt(ops, i, inputs, registry)
  {
    hide PortTyped, AttributesTyped, AvailableBefore;
    var p, available := registry[ops[i]], AvailableBefore(steps, i, inputs, registry);
    var consumer := ConsumerPorts(p);
    ConsumerPortsPlain(p);
    CountsAreSupplies(steps, ops, i, inputs, registry);
    VerifiedSupplies(steps, ops, i, inputs, registry);
    forall k | 0 <= k < |p.consumer|
      ensures FlatPortOk(ops[i], p.consumer[k], Counts(ops, i, inputs, registry), VerifiedGraphs(ops, i, registry))
    {
      assert consumer[k] == p.consumer[k] && p.consumer[k] in p.consumer;
      assert PortTyped(steps[i], consumer[k], available);
      TypedPortHasCandidates(steps[i], consumer[k], available);
      CountedSupplies(available, consumer[k].dtype);
    }
  }

  // ----- the elaboration -----

  /** The reference given to step `i`: `s`, `ss`, `sss`, ... */
  function RefName(i: nat): (r: string)
    ensures |r| == i + 1 && '.' !in r && r != INPUTS
  {
    var r := seq(i + 1, _ => 's');
    assert r[0] == 's';
    r
  }

  function Refs(supplies: seq<Supply>): (r: seq<WireValue>)
    ensures |r| == |supplies| && forall k :: 0 <= k < |r| ==> r[k] == Ref(supplies[k].WireRef())
  {
    seq(|supplies|, k requires 0 <= k < |supplies| => Ref(supplies[k].WireRef()))
  }

  /** The first supply that suits the port. */
  function Pick(op: string, port: Port, available: seq<Supply>): Option<Supply> {
    if available == [] then None
    else if Suits(op, port, available[0]) then Some(available[0])
    else Pick(op, port, available[1..])
  }

  function WireFor(op: string, port: Port, available: seq<Supply>): Wire {
    if port.multiple then Many(Refs(Candidates(available, port.dtype)))
    else
      var s := Pick(op, port, available);
      One(if s.Some? then Ref(s.value.WireRef()) else NotText)
  }

  function WiresFor(op: string, consumer: seq<Port>, n: nat, available: seq<Supply>): map<string, Wire>
    requires n <= |consumer|
  {
    if n == 0 then map[]
    else WiresFor(op, consumer, n - 1, available)[consumer[n - 1].role := WireFor(op, consumer[n - 1], available)]
  }

  /** Every consumer port of operation `i` wired explicitly to what is available there. */
  function ElaborateStep(op: string, i: nat, available: seq<Supply>, registry: Registry): Step {
    var wires := if op in registry then WiresFor(op, registry[op].consumer, |registry[op].consumer|, available) else map[];
    Step(RefName(i), op, map[], wires)
  }

  function Elaborate(ops: seq<string>, n: nat, inputs: seq<string>, registry: Registry): (steps: seq<Step>)
    requires n <= |ops|
    ensures |steps| == n
  {
    if n == 0 then []
    else
      var before := Elaborate(ops, n - 1, inputs, registry);
      before + [ElaborateStep(ops[n - 1], n - 1, AvailableBefore(before, n - 1, inputs, registry), registry)]
  }

  lemma {:induction false} ElaborateAt(ops: seq<string>, n: nat, i: nat, inputs: seq<string>, registry: Registry)
    requires i < n <= |ops|
    ensures var steps := Elaborate(ops, n, inputs, registry);
            steps[i] == ElaborateStep(ops[i], i, AvailableBefore(steps, i, inputs, registry), registry)
  {
    hide ElaborateStep;
    var before := Elaborate(ops, n - 1, inputs, registry);
    var steps := Elaborate(ops, n, inputs, registry);
    if i < n - 1 {
      ElaborateAt(ops, n - 1, i, inputs, registry);
    }
    assert steps[..i] == before[..i];
    AvailablePrefix(steps, before, i, inputs, registry);
  }

  lemma {:induction false} WiresForAt(op: string, consumer: seq<Port>, n: nat, k: nat, available: seq<Supply>)
    requires k < n <= |consumer| && DistinctRoles(consumer)
    ensures consumer[k].role in WiresFor(op, consumer, n, available)
    ensures WiresFor(op, consumer, n, available)[consumer[k].role] == WireFor(op, consumer[k], available)
  {
    hide WireFor;
    if k < n - 1 {
      WiresForAt(op, consumer, n - 1, k, available);
    }
  }

  lemma {:induction false} WiresForKeys(op: string, consumer: seq<Port>, n: nat, available: seq<Supply>)
    requires n <= |consumer|
    ensures WiresFor(op, consumer, n, available).Keys <= Roles(consumer)
  {
    hide WireFor;
    if n > 0 {
      WiresForKeys(op, consumer, n - 1, available);
      assert consumer[n - 1] in consumer;
    }
  }

  // ----- references to what is available resolve to it -----

  /** Supplies one can refer to, for the text of the wire name parses: all but an initial input without a name,
      which no port wants. */
  ghost predicate Referable(s: Supply) {
    && s.port != "" && '.' !in s.ref && s.ref != ""
    && (s.ref != INPUTS ==> '.' !in s.port)
  }

  ghost predicate AllReferable(available: seq<Supply>) {
    forall s :: s in available && s.dtype != "" ==> Referable(s)
  }

  lemma ReferableParses(s: Supply)
    requires Referable(s)
    ensures WellFormedRef(s.WireRef())
  {
    var text := s.WireRef();
    assert text[|s.ref|] == '.';
    if s.ref == INPUTS {
      assert text == "inputs." + s.port;
    } else {
      assert !("inputs." <= text) by {
        if "inputs." <= text {
          assert text == "inputs" + "." + text[7..];
          WireNamesInjective(INPUTS, text[7..], s.ref, s.port);
        }
      }
      var k := LastDot(text);
      assert text[|s.ref| + 1..] == s.port;
      if k > |s.ref| { assert false; }
      if k < |s.ref| { assert false; }
    }
  }

  lemma ResolvesToItself(available: seq<Supply>, s: Supply)
    requires UniqueNames(available) && s in available && Referable(s)
    ensures Resolve(Ref(s.WireRef()), Index(available)) == Some(s)
  {
    hide WellFormedRef;
    ReferableParses(s);
    var j :| 0 <= j < |available| && available[j] == s;
    assert Latest(available, j, s.WireRef());
    ResolvesToLatest(Ref(s.WireRef()), available, s);
  }

  lemma {:induction false} PickSuits(op: string, port: Port, available: seq<Supply>)
    ensures Pick(op, port, available).Some? ==>
              Pick(op, port, available).value in available && Suits(op, port, Pick(op, port, available).value)
    ensures Pick(op, port, available).None? ==> forall s :: s in available ==> !Suits(op, port, s)
  {
    hide Suits;
    if available != [] {
      PickSuits(op, port, available[1..]);
      assert available == [available[0]] + available[1..];
    }
  }

  lemma {:induction false} CandidatesUnique(available: seq<Supply>, dtype: string)
    requires UniqueNames(available)
    ensures UniqueNames(Candidates(available, dtype))
  {
    if available != [] {
      var n := |available| - 1;
      CandidatesUnique(available[..n], dtype);
      CandidatesChar(available[..n], dtype);
      var a, b := Candidates(available[..n], dtype), if available[n].dtype == dtype then [available[n]] else [];
      forall i, j | 0 <= i < |a| && 0 <= j < |b| ensures a[i].WireRef() != b[j].WireRef() {
        assert a[i] in available[..n];
      }
      NamesAppend(a, b);
    }
  }

  lemma CandidateTyped(op: string, port: Port, s: Supply, available: seq<Supply>)
    requires UniqueNames(available) && AllReferable(available) && s in available && Suits(op, port, s)
    requires port.dtype != ""
    ensures ValueTyped(op, port, Ref(s.WireRef()), Index(available))
  {
    ResolvesToItself(available, s);
  }

  lemma ManyTyped(op: string, port: Port, available: seq<Supply>)
    requires UniqueNames(available) && AllReferable(available)
    requires port.multiple && port.dtype != "" && !WantsVerified(op, port.role)
    requires multiset(Dtypes(available))[port.dtype] >= 2
    ensures WiredTyped(op, port, WireFor(op, port, available), Index(available))
  {
    hide ValueTyped, Index;
    var candidates := Candidates(available, port.dtype);
    var values := Refs(candidates);
    CandidatesChar(available, port.dtype);
    CountedSupplies(available, port.dtype);
    CandidatesUnique(available, port.dtype);
    forall k | 0 <= k < |values| ensures ValueTyped(op, port, values[k], Index(available)) {
      assert candidates[k] in candidates;
      CandidateTyped(op, port, candidates[k], available);
    }
    assert NoDup(values);
  }

  lemma OneTyped(op: string, port: Port, available: seq<Supply>)
    requires UniqueNames(available) && AllReferable(available) && !port.multiple && port.dtype != ""
    requires exists s :: s in available && Suits(op, port, s)
    ensures WiredTyped(op, port, WireFor(op, port, available), Index(available))
  {
    hide ValueTyped, Index, Suits;
    PickSuits(op, port, available);
    CandidateTyped(op, port, Pick(op, port, available).value, available);
  }

  /** Supplies marked verified are match graphs. */
  lemma VerifiedIsMatchGraph(steps: seq<Step>, n: nat, inputs: seq<string>, registry: Registry, s: Supply)
    requires n <= |steps| && s in AvailableBefore(steps, n, inputs, registry) && s.verified
    ensures s.dtype == "match_graph"
  {
    AvailableOrigins(steps, n, inputs, registry, s);
    assert s !in InputSupplies(inputs);
  }

  /** What the flat check saw is enough to wire the port. */
  lemma FlatPortWires(steps: seq<Step>, n: nat, inputs: seq<string>, registry: Registry, op: string, port: Port, verified: nat)
    requires n <= |steps|
    requires var available := AvailableBefore(steps, n, inputs, registry);
             && UniqueNames(available) && AllReferable(available)
             && FlatPortOk(op, port, multiset(Dtypes(available)), verified)
             && (verified > 0 ==> exists s :: s in available && s.verified)
    requires port.required && port.dtype != "" && (WantsVerified(op, port.role) ==> port.dtype == "match_graph" && !port.multiple)
    ensures var available := AvailableBefore(steps, n, inputs, registry);
            WiredTyped(op, port, WireFor(op, port, available), Index(available))
  {
    hide WiredTyped, WireFor, Index, AvailableBefore;
    var available := AvailableBefore(steps, n, inputs, registry);
    CountedSupplies(available, port.dtype);
    if port.multiple {
      ManyTyped(op, port, available);
    } else {
      if WantsVerified(op, port.role) {
        var s :| s in available && s.verified;
        VerifiedIsMatchGraph(steps, n, inputs, registry, s);
        assert Suits(op, port, s);
      } else {
        var j :| Candidate(available, j, port.dtype);
        assert available[j] in available && Suits(op, port, available[j]);
      }
      OneTyped(op, port, available);
    }
  }

  lemma AvailableReferable(steps: seq<Step>, n: nat, inputs: seq<string>, registry: Registry)
    requires n <= |steps| && PlainRegistry(registry)
    requires forall i :: 0 <= i < |steps| ==> steps[i].ref != "" && '.' !in steps[i].ref && steps[i].ref != INPUTS
    ensures AllReferable(AvailableBefore(steps, n, inputs, registry))
  {
    hide AvailableBefore, MatchGraphConventions;
    forall s | s in AvailableBefore(steps, n, inputs, registry) && s.dtype != "" ensures Referable(s) {
      AvailableOrigins(steps, n, inputs, registry, s);
      if s in InputSupplies(inputs) {
        var k :| 0 <= k < |inputs| && InputSupplies(inputs)[k] == s;
      } else {
        var j :| 0 <= j < n && SuppliedBy(steps, j, registry, s);
        var supplier := registry[steps[j].processor].supplier;
        var k :| 0 <= k < |supplier| && IsSupplyOf(steps[j], supplier[k], s);
        assert supplier[k] in supplier;
      }
    }
  }

  lemma {:induction false} ElaborateRefs(ops: seq<string>, n: nat, inputs: seq<string>, registry: Registry)
    requires n <= |ops|
    ensures forall i :: 0 <= i < n ==> Elaborate(ops, n, inputs, registry)[i].ref == RefName(i)
                                       && Elaborate(ops, n, inputs, registry)[i].processor == ops[i]
  {
    if n > 0 {
      ElaborateRefs(ops, n - 1, inputs, registry);
    }
  }

  /** A step whose operation passes the flat check is typed as elaborated. */
  lemma ElaboratedStepTyped(steps: seq<Step>, n: nat, inputs: seq<string>, registry: Registry, op: string,
                            available: seq<Supply>, known: set<string>, verified: nat)
    requires n <= |steps| && available == AvailableBefore(steps, n, inputs, registry)
    requires UniqueNames(available) && AllReferable(available) && PlainRegistry(registry)
    requires FlatOk(op, registry, multiset(Dtypes(available)), verified)
    requires verified > 0 ==> exists s :: s in available && s.verified
    ensures op in registry
    ensures KnownStepTyped(ElaborateStep(op, n, available, registry), registry[op], known, available)
  {
    hide WiredTyped, WireFor, Index, AvailableBefore, Candidates, AttributesTyped;
    var p := registry[op];
    var step := ElaborateStep(op, n, available, registry);
    ConsumerPortsPlain(p);
    var consumer := p.consumer + p.specialInputs;
    forall k | 0 <= k < |consumer| ensures PortTyped(step, consumer[k], available) {
      WiresForKeys(op, p.consumer, |p.consumer|, available);
      if k < |p.consumer| {
        assert consumer[k] in p.consumer && MatchGraphConventions(op, p);
        assert FlatPortOk(op, p.consumer[k], multiset(Dtypes(available)), verified);
        WiresForAt(op, p.consumer, |p.consumer|, k, available);
        FlatPortWires(steps, n, inputs, registry, op, consumer[k], verified);
      } else {
        assert consumer[k] in p.specialInputs && consumer[k].role in Roles(p.specialInputs);
      }
    }
    assert Roles(p.consumer) <= Roles(consumer);
    WiresForKeys(op, p.consumer, |p.consumer|, available);
    NoAttributesNeeded(p, known);
  }

  lemma NoAttributesNeeded(p: Processor, known: set<string>)
    requires PlainProcessor(p)
    ensures AttributesTyped(p.attributes + p.specialAttributes, map[], known)
  {
    var attributes := p.attributes + p.specialAttributes;
    forall k | 0 <= k < |attributes| ensures Bound(attributes[k], map[], known) {
      assert attributes[k] in ProcessorAttributes(p);
    }
  }

  lemma {:induction false} ElaborateTyped(ops: seq<string>, n: nat, inputs: seq<string>, registry: Registry, known: set<string>)
    requires n <= |ops| && PlainRegistry(registry) && NoDup(inputs)
    requires forall i :: 0 <= i < n ==> FlatOkAt(ops, i, inputs, registry)
    ensures WellTyped(Elaborate(ops, n, inputs, registry), inputs, registry, known)
  {
    hide ElaborateStep, KnownStepTyped, AvailableBefore, PlainProcessor, FlatOk;
    var steps := Elaborate(ops, n, inputs, registry);
    ElaborateRefs(ops, n, inputs, registry);
    forall i | 0 <= i < n ensures TypedAt(steps, i, inputs, registry, known) {
      ElaborateAt(ops, n, i, inputs, registry);
      var available := AvailableBefore(steps, i, inputs, registry);
      assert Elaborates(steps, ops[..n]);
      ElaboratedAvailable(steps, ops[..n], i, inputs, registry);
      FlatOkPrefix(ops, n, i, inputs, registry);
      assert FlatOkAt(ops, i, inputs, registry);
      ElaboratedStepTyped(steps, i, inputs, registry, ops[i], available, known, VerifiedGraphs(ops[..n], i, registry));
      assert FreshRef(steps, i) by {
        assert forall l :: 0 <= l < i ==> |steps[l].ref| < |steps[i].ref|;
      }
    }
  }

  lemma ElaboratedAvailable(steps: seq<Step>, ops: seq<string>, i: nat, inputs: seq<string>, registry: Registry)
    requires Elaborates(steps, ops) && i <= |ops| && PlainRegistry(registry)
    requires NoDup(inputs)
    requires forall j :: 0 <= j < |steps| ==> steps[j].ref == RefName(j)
    ensures var available := AvailableBefore(steps, i, inputs, registry);
            && UniqueNames(available) && AllReferable(available)
            && multiset(Dtypes(available)) == Counts(ops, i, inputs, registry)
            && (VerifiedGraphs(ops, i, registry) > 0 ==> exists s :: s in available && s.verified)
  {
    hide AvailableBefore, UniqueNames, AllReferable, Dtypes, Counts, VerifiedGraphs, MatchGraphConventions;
    forall j | 0 <= j < |steps| ensures FreshRef(steps, j) && '.' !in steps[j].ref {
      assert forall l :: 0 <= l < j ==> |steps[l].ref| < |steps[j].ref|;
    }
    forall id | id in registry ensures DistinctRoles(registry[id].supplier) {
      assert PlainProcessor(registry[id]);
    }
    NamesUnique(steps, i, inputs, registry);
    AvailableReferable(steps, i, inputs, registry);
    CountsAreSupplies(steps, ops, i, inputs, registry);
    VerifiedSupplies(steps, ops, i, inputs, registry);
  }

  lemma {:induction false} FlatOkPrefix(ops: seq<string>, n: nat, i: nat, inputs: seq<string>, registry: Registry)
    requires i <= n <= |ops|
    ensures Counts(ops[..n], i, inputs, registry) == Counts(ops, i, inputs, registry)
    ensures VerifiedGraphs(ops[..n], i, registry) == VerifiedGraphs(ops, i, registry)
  {
    if i > 0 {
      FlatOkPrefix(ops, n, i - 1, inputs, registry);
    }
  }

  // ----- acceptance is wirability -----

  /** The flat validator accepts a list of operations, given no initial input twice, exactly when some
      choice of references, attributes and wires makes it a pipeline the named-port validator accepts.
      (On repeated inputs the flat validator may accept; the named-port one never does.) */
  lemma LegacyIsWirability(ops: seq<string>, inputs: seq<string>, registry: Registry, known: set<string>)
    requires PlainRegistry(registry)
    ensures LegacyErrors(ops, |ops|, inputs, registry) == [] && NoDup(inputs)
       <==> exists steps :: Elaborates(steps, ops) && StrictErrors(steps, |steps|, inputs, registry, known) == []
  {
    hide FlatOkAt, LegacyErrors, StrictErrors, TypedAt;
    LegacyErrorsSound(ops, |ops|, inputs, registry);
    if LegacyErrors(ops, |ops|, inputs, registry) == [] && NoDup(inputs) {
      var steps := Elaborate(ops, |ops|, inputs, registry);
      ElaborateTyped(ops, |ops|, inputs, registry, known);
      ElaborateRefs(ops, |ops|, inputs, registry);
      StrictErrorsSound(steps, inputs, registry, known);
      assert Elaborates(steps, ops) && StrictErrors(steps, |steps|, inputs, registry, known) == [];
    }
    if steps :| Elaborates(steps, ops) && StrictErrors(steps, |steps|, inputs, registry, known) == [] {
      StrictErrorsSound(steps, inputs, registry, known);
      forall i | 0 <= i < |ops| ensures FlatOkAt(ops, i, inputs, registry) {
        assert TypedAt(steps, i, inputs, registry, known);
        WellTypedIsFlatOk(steps, ops, i, inputs, registry, known);
      }
    }
  }
}

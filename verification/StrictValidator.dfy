/** The accumulating validator for named-port pipelines. */
module StrictValidator {
  import opened Prelude
  import opened Attributes
  import opened Processors
  import opened Wires
  import opened PipelineTyping

  datatype Where = AtInputs | AtStep(index: nat)

  datatype ChainError = ChainError(where: Where, reason: Reason)

  // ----- the errors of a wired port -----

  function ValueErrors(processor: string, port: Port, v: WireValue, byWire: map<string, Supply>): seq<Reason> {
    var supply := Resolve(v, byWire);
    if supply.None? then [UnknownPort]
    else if supply.value.dtype != port.dtype then [DatatypeMismatch]
    else if RequiresVerified(processor, port.role) && !supply.value.verified then [UnverifiedMatchGraph]
    else []
  }

  function ValuesErrors(processor: string, port: Port, values: seq<WireValue>, n: nat, byWire: map<string, Supply>)
    : seq<Reason>
    requires n <= |values|
  {
    if n == 0 then []
    else ValuesErrors(processor, port, values, n - 1, byWire) + ValueErrors(processor, port, values[n - 1], byWire)
  }

  /** The names of the supplies that the first `n` values resolve to. */
  function WireKeys(values: seq<WireValue>, n: nat, byWire: map<string, Supply>): seq<string>
    requires n <= |values|
  {
    if n == 0 then []
    else
      var supply := Resolve(values[n - 1], byWire);
      WireKeys(values, n - 1, byWire) + (if supply.Some? then [supply.value.WireRef()] else [])
  }

  function FanInErrors(port: Port, keys: seq<string>): seq<Reason> {
    if port.multiple && |Elements(keys)| != |keys| then [InvalidFanIn]
    else if port.multiple && port.required && |Elements(keys)| < 2 then [InvalidFanIn]
    else []
  }

  function WiredErrors(processor: string, port: Port, w: Wire, byWire: map<string, Supply>): seq<Reason> {
    var values := WireValues(w, port.multiple);
    if !port.multiple && w.Many? then [InvalidFanIn]
    else if values == [] && port.required then [MissingRequiredPort]
    else if port.multiple && port.required && |values| == 1 then [InvalidFanIn]
    else ValuesErrors(processor, port, values, |values|, byWire)
         + FanInErrors(port, WireKeys(values, |values|, byWire))
  }

  // ----- the errors of a port left to inference -----

  function Candidates(available: seq<Supply>, dtype: string): seq<Supply> {
    if available == [] then []
    else
      var n := |available| - 1;
      Candidates(available[..n], dtype) + (if available[n].dtype == dtype then [available[n]] else [])
  }

  function WireRefs(supplies: seq<Supply>): set<string> {
    set s | s in supplies :: s.WireRef()
  }

  function InferredErrors(processor: string, port: Port, available: seq<Supply>): seq<Reason> {
    var candidates := Candidates(available, port.dtype);
    if candidates == [] then [MissingRequiredPort]
    else if port.multiple && |candidates| == 1 then [InvalidFanIn]
    else if port.multiple && |WireRefs(candidates)| < 2 then [InvalidFanIn]
    else if !port.multiple && |candidates| > 1 then [AmbiguousInput]
    else if RequiresVerified(processor, port.role) && !exists s | s in candidates :: s.verified then [UnverifiedMatchGraph]
    else []
  }

  // ----- the errors of a step and of a pipeline -----

  function PortErrors(step: Step, port: Port, available: seq<Supply>): seq<Reason> {
    if port.role in step.wires then WiredErrors(step.processor, port, step.wires[port.role], Index(available))
    else if !port.required then []
    else InferredErrors(step.processor, port, available)
  }

  function PortsErrors(step: Step, consumer: seq<Port>, n: nat, available: seq<Supply>): seq<Reason>
    requires n <= |consumer|
  {
    if n == 0 then []
    else PortsErrors(step, consumer, n - 1, available) + PortErrors(step, consumer[n - 1], available)
  }

  function KnownStepErrors(step: Step, p: Processor, known: set<string>, available: seq<Supply>): seq<Reason> {
    var consumer := ConsumerPorts(p);
    AttributeErrors(ProcessorAttributes(p), step.attributes, known)
    + Repeat(UnknownPort, |step.wires.Keys - Roles(consumer)|)
    + PortsErrors(step, consumer, |consumer|, available)
  }

  /** The references taken before step `n`. */
  function SeenRefs(steps: seq<Step>, n: nat): set<string>
    requires n <= |steps|
  {
    if n == 0 then {INPUTS} else SeenRefs(steps, n - 1) + {steps[n - 1].ref}
  }

  /** What the validator considers supplied before step `n`: steps under a reference already
      taken supply nothing. */
  function StrictAvailable(steps: seq<Step>, n: nat, inputs: seq<string>, registry: Registry): seq<Supply>
    requires n <= |steps|
  {
    if n == 0 then InputSupplies(inputs)
    else
      var step := steps[n - 1];
      StrictAvailable(steps, n - 1, inputs, registry)
      + (if step.ref !in SeenRefs(steps, n - 1) && step.processor in registry
         then StepSupplies(step, registry[step.processor].supplier) else [])
  }

  function StepErrors(steps: seq<Step>, i: nat, inputs: seq<string>, registry: Registry, known: set<string>): seq<Reason>
    requires i < |steps|
  {
    var step := steps[i];
    if step.ref in SeenRefs(steps, i) then [DuplicateStepRef]
    else if step.processor !in registry then [UnknownProcessor]
    else KnownStepErrors(step, registry[step.processor], known, StrictAvailable(steps, i, inputs, registry))
  }

  function Tag(where: Where, reasons: seq<Reason>): (r: seq<ChainError>)
    ensures |r| == |reasons| && forall k :: 0 <= k < |r| ==> r[k] == ChainError(where, reasons[k])
  {
    seq(|reasons|, k requires 0 <= k < |reasons| => ChainError(where, reasons[k]))
  }

  function RepeatedInputs(inputs: seq<string>): set<string> {
    set d | d in inputs && multiset(inputs)[d] > 1
  }

  function StrictErrors(steps: seq<Step>, n: nat, inputs: seq<string>, registry: Registry, known: set<string>)
    : seq<ChainError>
    requires n <= |steps|
  {
    if n == 0 then Tag(AtInputs, Repeat(DuplicateInitialInput, |RepeatedInputs(inputs)|))
    else StrictErrors(steps, n - 1, inputs, registry, known)
         + Tag(AtStep(n - 1), StepErrors(steps, n - 1, inputs, registry, known))
  }

  // ----- soundness and completeness -----

  lemma ValueErrorsSound(processor: string, port: Port, v: WireValue, byWire: map<string, Supply>)
    ensures ValueErrors(processor, port, v, byWire) == [] <==> ValueTyped(processor, port, v, byWire)
  {
  }

  lemma {:induction false} ValuesErrorsSound(processor: string, port: Port, values: seq<WireValue>, n: nat,
                                             byWire: map<string, Supply>)
    requires n <= |values|
    ensures ValuesErrors(processor, port, values, n, byWire) == []
       <==> AllValuesTyped(processor, port, values, n, byWire)
  {
    hide ValueErrors, ValueTyped;
    if n > 0 {
      ValuesErrorsSound(processor, port, values, n - 1, byWire);
      ValueErrorsSound(processor, port, values[n - 1], byWire);
      assert AllValuesTyped(processor, port, values, n, byWire)
        <==> AllValuesTyped(processor, port, values, n - 1, byWire)
             && ValueTyped(processor, port, values[n - 1], byWire);
    }
  }

  /** Every entry of the dictionary sits under its own wire name. */
  ghost predicate Keyed(byWire: map<string, Supply>) {
    forall text :: text in byWire ==> byWire[text].WireRef() == text
  }

  lemma {:induction false} IndexKeyed(available: seq<Supply>)
    ensures Keyed(Index(available))
  {
    if available != [] {
      IndexKeyed(available[..|available| - 1]);
    }
  }

  /** Once every value is typed, the collected keys are the texts themselves. */
  lemma {:induction false} KeysAreTexts(processor: string, port: Port, values: seq<WireValue>, n: nat,
                                        byWire: map<string, Supply>)
    requires n <= |values| && Keyed(byWire) && AllValuesTyped(processor, port, values, n, byWire)
    ensures var keys := WireKeys(values, n, byWire);
            |keys| == n && forall k :: 0 <= k < n ==> values[k] == Ref(keys[k])
  {
    if n > 0 {
      KeysAreTexts(processor, port, values, n - 1, byWire);
      assert ValueTyped(processor, port, values[n - 1], byWire);
    }
  }

  lemma WiredErrorsSound(processor: string, port: Port, w: Wire, byWire: map<string, Supply>)
    requires Keyed(byWire)
    ensures WiredErrors(processor, port, w, byWire) == [] <==> WiredTyped(processor, port, w, byWire)
  {
    var values := WireValues(w, port.multiple);
    ValuesErrorsSound(processor, port, values, |values|, byWire);
    if AllValuesTyped(processor, port, values, |values|, byWire) {
      KeysAreTexts(processor, port, values, |values|, byWire);
      var keys := WireKeys(values, |values|, byWire);
      DistinctCount(keys);
      assert NoDup(keys) <==> NoDup(values);
    }
  }

  lemma {:induction false} CandidatesMembers(available: seq<Supply>, dtype: string)
    ensures forall s :: s in Candidates(available, dtype) <==> s in available && s.dtype == dtype
  {
    if available != [] {
      var n := |available| - 1;
      CandidatesMembers(available[..n], dtype);
      assert available == available[..n] + [available[n]];
    }
  }

  lemma CandidatesChar(available: seq<Supply>, dtype: string)
    ensures forall s :: s in Candidates(available, dtype) <==> s in available && s.dtype == dtype
    ensures |Candidates(available, dtype)| <= 1
       <==> forall i, j :: Candidate(available, i, dtype) && Candidate(available, j, dtype) ==> i == j
  {
    CandidatesMembers(available, dtype);
    SingleCandidate(available, dtype);
  }

  lemma {:induction false} SingleCandidate(available: seq<Supply>, dtype: string)
    ensures |Candidates(available, dtype)| <= 1
       <==> forall i, j :: Candidate(available, i, dtype) && Candidate(available, j, dtype) ==> i == j
  {
    if available != [] {
      var n := |available| - 1;
      var rest := available[..n];
      SingleCandidate(rest, dtype);
      forall i | 0 <= i < n ensures Candidate(available, i, dtype) <==> Candidate(rest, i, dtype) {
      }
      if available[n].dtype == dtype {
        assert Candidate(available, n, dtype);
        if Candidates(rest, dtype) != [] {
          CandidatesMembers(rest, dtype);
          assert Candidates(rest, dtype)[0] in rest;
          var i :| 0 <= i < n && rest[i] == Candidates(rest, dtype)[0];
          assert Candidate(available, i, dtype);
        } else {
          CandidatesMembers(rest, dtype);
          forall i | Candidate(available, i, dtype) ensures i == n {
            if i < n {
              assert false;
            }
          }
        }
      } else {
        assert forall i :: Candidate(available, i, dtype) <==> Candidate(rest, i, dtype);
      }
    }
  }

  lemma InferredErrorsSound(processor: string, port: Port, available: seq<Supply>)
    ensures InferredErrors(processor, port, available) == [] <==> InferredTyped(processor, port, available)
  {
    var candidates := Candidates(available, port.dtype);
    CandidatesChar(available, port.dtype);
    CandidateIndices(available, port.dtype);
    TwoOrMore(WireRefs(candidates));
    if port.multiple {
      TwoNames(available, port.dtype);
    }
  }

  /** Candidates as a list and as positions. */
  lemma CandidateIndices(available: seq<Supply>, dtype: string)
    ensures Candidates(available, dtype) == [] <==> !exists j :: Candidate(available, j, dtype)
    ensures (exists s | s in Candidates(available, dtype) :: s.verified)
       <==> exists j :: Candidate(available, j, dtype) && available[j].verified
  {
    var candidates := Candidates(available, dtype);
    CandidatesChar(available, dtype);
    if candidates != [] {
      assert candidates[0] in candidates;
      var j :| 0 <= j < |available| && available[j] == candidates[0];
      assert Candidate(available, j, dtype);
    }
    if s :| s in candidates && s.verified {
      var j :| 0 <= j < |available| && available[j] == s;
      assert Candidate(available, j, dtype);
    }
    if j :| Candidate(available, j, dtype) {
      assert available[j] in candidates;
    }
    if j :| Candidate(available, j, dtype) && available[j].verified {
      assert available[j] in candidates;
    }
  }

  lemma TwoNames(available: seq<Supply>, dtype: string)
    ensures |WireRefs(Candidates(available, dtype))| >= 2
       <==> exists i, j :: Candidate(available, i, dtype) && Candidate(available, j, dtype)
                           && available[i].WireRef() != available[j].WireRef()
  {
    var candidates := Candidates(available, dtype);
    var names := WireRefs(candidates);
    CandidatesChar(available, dtype);
    TwoOrMore(names);
    if |names| >= 2 {
      var a, b :| a in names && b in names && a != b;
      var s :| s in candidates && s.WireRef() == a;
      var t :| t in candidates && t.WireRef() == b;
      var i :| 0 <= i < |available| && available[i] == s;
      var j :| 0 <= j < |available| && available[j] == t;
      assert Candidate(available, i, dtype) && Candidate(available, j, dtype);
    }
    if i, j :| Candidate(available, i, dtype) && Candidate(available, j, dtype)
               && available[i].WireRef() != available[j].WireRef() {
      assert available[i] in candidates && available[j] in candidates;
      assert available[i].WireRef() in names && available[j].WireRef() in names;
    }
  }

  lemma PortErrorsSound(step: Step, port: Port, available: seq<Supply>)
    ensures PortErrors(step, port, available) == [] <==> PortTyped(step, port, available)
  {
    if port.role in step.wires {
      IndexKeyed(available);
      WiredErrorsSound(step.processor, port, step.wires[port.role], Index(available));
    } else {
      InferredErrorsSound(step.processor, port, available);
    }
  }

  lemma {:induction false} PortsErrorsSound(step: Step, consumer: seq<Port>, n: nat, available: seq<Supply>)
    requires n <= |consumer|
    ensures PortsErrors(step, consumer, n, available) == [] <==> AllPortsTyped(step, consumer, n, available)
  {
    hide PortErrors, PortTyped;
    if n > 0 {
      PortsErrorsSound(step, consumer, n - 1, available);
      PortErrorsSound(step, consumer[n - 1], available);
      assert AllPortsTyped(step, consumer, n, available)
        <==> AllPortsTyped(step, consumer, n - 1, available) && PortTyped(step, consumer[n - 1], available);
    }
  }

  lemma KnownStepErrorsSound(step: Step, p: Processor, known: set<string>, available: seq<Supply>)
    ensures KnownStepErrors(step, p, known, available) == []
       <==> KnownStepTyped(step, p, known, available)
  {
    var consumer := ConsumerPorts(p);
    AttributeErrorsSound(ProcessorAttributes(p), step.attributes, known);
    SubsetByDifference(step.wires.Keys, Roles(consumer));
    PortsErrorsSound(step, consumer, |consumer|, available);
  }

  lemma {:induction false} SeenRefsChar(steps: seq<Step>, n: nat, ref: string)
    requires n <= |steps|
    ensures ref in SeenRefs(steps, n) <==> ref == INPUTS || exists j :: 0 <= j < n && steps[j].ref == ref
  {
    if n > 0 {
      SeenRefsChar(steps, n - 1, ref);
    }
  }

  lemma FreshIsUnseen(steps: seq<Step>, i: nat)
    requires i < |steps|
    ensures steps[i].ref !in SeenRefs(steps, i) <==> FreshRef(steps, i)
  {
    SeenRefsChar(steps, i, steps[i].ref);
  }

  /** As long as everything type-checks, the validator's supplies are those of the judgement. */
  lemma {:induction false} StrictAvailableTyped(steps: seq<Step>, n: nat, inputs: seq<string>, registry: Registry,
                                                known: set<string>)
    requires n <= |steps| && TypedUpTo(steps, n, inputs, registry, known)
    ensures StrictAvailable(steps, n, inputs, registry) == AvailableBefore(steps, n, inputs, registry)
  {
    if n > 0 {
      StrictAvailableTyped(steps, n - 1, inputs, registry, known);
      assert TypedAt(steps, n - 1, inputs, registry, known);
      FreshIsUnseen(steps, n - 1);
    }
  }

  lemma RepeatedInputsSound(inputs: seq<string>)
    ensures |RepeatedInputs(inputs)| == 0 <==> NoDup(inputs)
  {
    NoDupCounts(inputs);
    if NoDup(inputs) {
      assert RepeatedInputs(inputs) == {};
    } else {
      var d :| d in inputs && multiset(inputs)[d] != 1;
      assert d in RepeatedInputs(inputs);
    }
  }

  lemma StepErrorsSound(steps: seq<Step>, i: nat, inputs: seq<string>, registry: Registry, known: set<string>)
    requires i < |steps| && TypedUpTo(steps, i, inputs, registry, known)
    ensures StepErrors(steps, i, inputs, registry, known) == [] <==> TypedAt(steps, i, inputs, registry, known)
  {
    FreshIsUnseen(steps, i);
    StrictAvailableTyped(steps, i, inputs, registry, known);
    if steps[i].processor in registry {
      KnownStepErrorsSound(steps[i], registry[steps[i].processor], known, AvailableBefore(steps, i, inputs, registry));
    }
  }

  lemma InputErrorsSound(steps: seq<Step>, inputs: seq<string>, registry: Registry, known: set<string>)
    ensures StrictErrors(steps, 0, inputs, registry, known) == [] <==> TypedUpTo(steps, 0, inputs, registry, known)
  {
    RepeatedInputsSound(inputs);
    assert |StrictErrors(steps, 0, inputs, registry, known)| == |RepeatedInputs(inputs)|;
  }

  lemma {:induction false} StrictErrorsSoundUpTo(steps: seq<Step>, n: nat, inputs: seq<string>, registry: Registry,
                                                 known: set<string>)
    requires n <= |steps|
    ensures StrictErrors(steps, n, inputs, registry, known) == [] <==> TypedUpTo(steps, n, inputs, registry, known)
  {
    hide *;
    if n == 0 {
      InputErrorsSound(steps, inputs, registry, known);
    } else {
      StrictErrorsSoundUpTo(steps, n - 1, inputs, registry, known);
      if TypedUpTo(steps, n - 1, inputs, registry, known) {
        StepErrorsSound(steps, n - 1, inputs, registry, known);
      }
      TypedSnoc(steps, n, inputs, registry, known);
      StrictErrorsSnoc(steps, n, inputs, registry, known);
    }
  }

  lemma TypedSnoc(steps: seq<Step>, n: nat, inputs: seq<string>, registry: Registry, known: set<string>)
    requires 0 < n <= |steps|
    ensures TypedUpTo(steps, n, inputs, registry, known)
       <==> TypedUpTo(steps, n - 1, inputs, registry, known) && TypedAt(steps, n - 1, inputs, registry, known)
  {
  }

  lemma StrictErrorsSnoc(steps: seq<Step>, n: nat, inputs: seq<string>, registry: Registry, known: set<string>)
    requires 0 < n <= |steps|
    ensures StrictErrors(steps, n, inputs, registry, known) == []
       <==> StrictErrors(steps, n - 1, inputs, registry, known) == []
            && StepErrors(steps, n - 1, inputs, registry, known) == []
  {
  }

  /** The validator reports nothing exactly for the well-typed pipelines. */
  lemma StrictErrorsSound(steps: seq<Step>, inputs: seq<string>, registry: Registry, known: set<string>)
    ensures StrictErrors(steps, |steps|, inputs, registry, known) == [] <==> WellTyped(steps, inputs, registry, known)
  {
    StrictErrorsSoundUpTo(steps, |steps|, inputs, registry, known);
  }

  // ----- the validator itself -----

  method CheckWiredPort(processor: string, port: Port, w: Wire, byWire: map<string, Supply>)
    returns (errors: seq<Reason>)
    ensures errors == WiredErrors(processor, port, w, byWire)
    ensures Keyed(byWire) ==> (errors == [] <==> WiredTyped(processor, port, w, byWire))
  {
    if Keyed(byWire) {
      WiredErrorsSound(processor, port, w, byWire);
    }
    hide WiredTyped, Keyed;
    errors := [];
    var values := WireValues(w, port.multiple);
    if !port.multiple && w.Many? {
      return [InvalidFanIn];
    }
    if values == [] && port.required {
      return [MissingRequiredPort];
    }
    if port.multiple && port.required && |values| == 1 {
      return [InvalidFanIn];
    }
    var wireKeys: seq<string> := [];
    for k := 0 to |values|
      invariant errors == ValuesErrors(processor, port, values, k, byWire)
      invariant wireKeys == WireKeys(values, k, byWire)
    {
      var parsed := ParseWireRef(values[k]);
      KeyRebuilds(values[k]);
      if parsed.None? {
        errors := errors + [UnknownPort];
      } else {
        var key := parsed.value.0 + "." + parsed.value.1;
        if key !in byWire {
          errors := errors + [UnknownPort];
        } else {
          var supply := byWire[key];
          wireKeys := wireKeys + [supply.WireRef()];
          if supply.dtype != port.dtype {
            errors := errors + [DatatypeMismatch];
          } else if RequiresVerified(processor, port.role) && !supply.verified {
            errors := errors + [UnverifiedMatchGraph];
          }
        }
      }
    }
    var distinct := Elements(wireKeys);
    if port.multiple && |distinct| != |wireKeys| {
      errors := errors + [InvalidFanIn];
    } else if port.multiple && port.required && |distinct| < 2 {
      errors := errors + [InvalidFanIn];
    }
  }

  method CheckInferredPort(processor: string, port: Port, available: seq<Supply>) returns (errors: seq<Reason>)
    ensures errors == InferredErrors(processor, port, available)
    ensures errors == [] <==> InferredTyped(processor, port, available)
  {
    InferredErrorsSound(processor, port, available);
    hide InferredTyped;
    errors := [];
    var candidates := Candidates(available, port.dtype);
    if candidates == [] {
      return [MissingRequiredPort];
    }
    if port.multiple && |candidates| == 1 {
      return [InvalidFanIn];
    }
    if port.multiple && |WireRefs(candidates)| < 2 {
      return [InvalidFanIn];
    }
    if !port.multiple && |candidates| > 1 {
      return [AmbiguousInput];
    }
    if RequiresVerified(processor, port.role) {
      if !exists s | s in candidates :: s.verified {
        return [UnverifiedMatchGraph];
      }
    }
  }

  method CheckPort(step: Step, port: Port, available: seq<Supply>, byWire: map<string, Supply>)
    returns (errors: seq<Reason>)
    requires byWire == Index(available)
    ensures errors == PortErrors(step, port, available)
  {
    errors := [];
    if port.role in step.wires {
      errors := CheckWiredPort(step.processor, port, step.wires[port.role], byWire);
    } else if port.required {
      errors := CheckInferredPort(step.processor, port, available);
    }
  }

  method CheckPorts(step: Step, consumer: seq<Port>, available: seq<Supply>, byWire: map<string, Supply>)
    returns (errors: seq<Reason>)
    requires byWire == Index(available)
    ensures errors == PortsErrors(step, consumer, |consumer|, available)
  {
    hide PortErrors, Index;
    errors := [];
    for k := 0 to |consumer|
      invariant errors == PortsErrors(step, consumer, k, available)
    {
      var found := CheckPort(step, consumer[k], available, byWire);
      errors := errors + found;
    }
  }

  method CheckKnownStep(step: Step, p: Processor, known: set<string>, available: seq<Supply>, byWire: map<string, Supply>)
    returns (errors: seq<Reason>)
    requires byWire == Index(available)
    ensures errors == KnownStepErrors(step, p, known, available)
  {
    hide AttributeErrors, AttributesTyped, PortsErrors;
    var consumer := ConsumerPorts(p);
    var attributeErrors := ValidateAttributes(ProcessorAttributes(p), step.attributes, known);
    var unknownWires := Repeat(UnknownPort, |step.wires.Keys - Roles(consumer)|);
    var portErrors := CheckPorts(step, consumer, available, byWire);
    errors := attributeErrors + unknownWires + portErrors;
  }

  /** Registers what a step supplies, in the list and in the dictionary alike. */
  method AddSupplies(step: Step, supplier: seq<Port>, available: seq<Supply>, byWire: map<string, Supply>)
    returns (available': seq<Supply>, byWire': map<string, Supply>)
    requires byWire == Index(available)
    ensures available' == available + StepSupplies(step, supplier) && byWire' == Index(available')
  {
    available', byWire' := available, byWire;
    for k := 0 to |supplier|
      invariant available' == available + StepSupplies(step, supplier)[..k]
      invariant byWire' == Index(available')
    {
      var supply := StepSupply(step, supplier[k]);
      IndexSnoc(available', supply);
      available' := available' + [supply];
      byWire' := byWire'[supply.WireRef() := supply];
    }
  }

  method IndexInputs(inputs: seq<string>) returns (available: seq<Supply>, byWire: map<string, Supply>)
    ensures available == InputSupplies(inputs) && byWire == Index(available)
  {
    available := InputSupplies(inputs);
    byWire := map[];
    for k := 0 to |available|
      invariant byWire == Index(available[..k])
    {
      assert available[..k + 1] == available[..k] + [available[k]];
      IndexSnoc(available[..k], available[k]);
      byWire := byWire[available[k].WireRef() := available[k]];
    }
    assert available[..|available|] == available;
  }

  method StrictValidatePipeline(steps: seq<Step>, inputs: seq<string>, registry: Registry, known: set<string>)
    returns (errors: seq<ChainError>)
    ensures errors == StrictErrors(steps, |steps|, inputs, registry, known)
    ensures errors == [] <==> WellTyped(steps, inputs, registry, known)
  {
    hide KnownStepErrors, WellTyped, Index, RepeatedInputs, Repeat;
    var available, byWire := IndexInputs(inputs);
    var seenRefs := {INPUTS};
    errors := Tag(AtInputs, Repeat(DuplicateInitialInput, |RepeatedInputs(inputs)|));
    for i := 0 to |steps|
      invariant errors == StrictErrors(steps, i, inputs, registry, known)
      invariant seenRefs == SeenRefs(steps, i)
      invariant available == StrictAvailable(steps, i, inputs, registry) && byWire == Index(available)
    {
      var step := steps[i];
      if step.ref in seenRefs {
        errors := errors + [ChainError(AtStep(i), DuplicateStepRef)];
      } else {
        if step.processor !in registry {
          errors := errors + [ChainError(AtStep(i), UnknownProcessor)];
        } else {
          var processor := registry[step.processor];
          var found := CheckKnownStep(step, processor, known, available, byWire);
          errors := errors + Tag(AtStep(i), found);
          available, byWire := AddSupplies(step, processor.supplier, available, byWire);
        }
      }
      seenRefs := seenRefs + {step.ref};
    }
    StrictErrorsSound(steps, inputs, registry, known);
  }
}

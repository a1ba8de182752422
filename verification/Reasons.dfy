/** Which reasons the accumulating validator reports, and where: each is told from the steps and what is available. */
module Reasons {
  import opened Prelude
  import opened Attributes
  import opened Processors
  import opened Wires
  import opened PipelineTyping
  import opened StrictValidator

  // ----- a port left to inference -----

  ghost predicate TwoNamed(available: seq<Supply>, dtype: string) {
    exists i, j :: Candidate(available, i, dtype) && Candidate(available, j, dtype)
                   && available[i].WireRef() != available[j].WireRef()
  }

  /** Missing without a candidate, a wrong fan-in with candidates under one name only, ambiguous with two places, and
      unverified when all else is well. */
  lemma InferredReasons(processor: string, port: Port, available: seq<Supply>)
    ensures var e := InferredErrors(processor, port, available);
            && (e == [MissingRequiredPort] <==> forall j :: !Candidate(available, j, port.dtype))
            && (e == [InvalidFanIn] <==>
                  port.multiple && (exists j :: Candidate(available, j, port.dtype)) && !TwoNamed(available, port.dtype))
            && (e == [AmbiguousInput] <==>
                  !port.multiple && exists i, j :: i != j && Candidate(available, i, port.dtype) && Candidate(available, j, port.dtype))
            && (e == [UnverifiedMatchGraph] <==>
                  && InferredFanIn(port, available) && WantsVerified(processor, port.role)
                  && forall j :: Candidate(available, j, port.dtype) ==> !available[j].verified)
  {
    var candidates := Candidates(available, port.dtype);
    CandidatesChar(available, port.dtype);
    CandidateIndices(available, port.dtype);
    TwoNames(available, port.dtype);
    SingleIsOneName(candidates);
    hide Candidates, WireRefs, Candidate;
  }

  lemma SingleIsOneName(candidates: seq<Supply>)
    ensures |candidates| == 1 ==> |WireRefs(candidates)| < 2
  {
    if |candidates| == 1 {
      assert WireRefs(candidates) == {candidates[0].WireRef()};
    }
  }

  // ----- a wired port -----

  /** Unknown unless the text names a supply; a mismatch if that has another datatype; unverified otherwise. */
  lemma ValueReasons(processor: string, port: Port, v: WireValue, available: seq<Supply>)
    ensures var e := ValueErrors(processor, port, v, Index(available));
            && (e == [UnknownPort] <==> !(v.Ref? && WellFormedRef(v.text) && exists s :: Named(available, v.text, s)))
            && (e == [DatatypeMismatch] <==>
                  v.Ref? && WellFormedRef(v.text) && exists s :: Named(available, v.text, s) && s.dtype != port.dtype)
            && (e == [UnverifiedMatchGraph] <==>
                  && v.Ref? && WellFormedRef(v.text) && WantsVerified(processor, port.role)
                  && exists s :: Named(available, v.text, s) && s.dtype == port.dtype && !s.verified)
  {
    if v.Ref? {
      forall s {
        IndexNames(available, v.text, s);
      }
      hide Index, WellFormedRef, Named;
      if v.text in Index(available) {
        assert Named(available, v.text, Index(available)[v.text]);
      }
    }
  }

  lemma {:induction false} ValuesReasons(processor: string, port: Port, values: seq<WireValue>, n: nat,
                                         byWire: map<string, Supply>, r: Reason)
    requires n <= |values|
    ensures r in ValuesErrors(processor, port, values, n, byWire) <==>
              exists k :: 0 <= k < n && r in ValueErrors(processor, port, values[k], byWire)
  {
    hide ValueErrors;
    if n > 0 {
      ValuesReasons(processor, port, values, n - 1, byWire, r);
    }
  }

  /** The name that value `k` stands for, if it stands for one. */
  function NameAt(values: seq<WireValue>, k: nat, byWire: map<string, Supply>): Option<string>
    requires k < |values|
  {
    var s := Resolve(values[k], byWire);
    if s.Some? then Some(s.value.WireRef()) else None
  }

  ghost predicate Repeats(values: seq<WireValue>, byWire: map<string, Supply>) {
    exists k, l :: 0 <= k < l < |values| && NameAt(values, k, byWire).Some?
                   && NameAt(values, k, byWire) == NameAt(values, l, byWire)
  }

  ghost predicate TwoApart(values: seq<WireValue>, byWire: map<string, Supply>) {
    exists a, b :: a != b && Stands(values, byWire, a) && Stands(values, byWire, b)
  }

  /** Some value stands for `name`. */
  ghost predicate Stands(values: seq<WireValue>, byWire: map<string, Supply>, name: string) {
    exists k :: 0 <= k < |values| && NameAt(values, k, byWire) == Some(name)
  }

  lemma {:induction false} KeysMembers(values: seq<WireValue>, n: nat, byWire: map<string, Supply>, name: string)
    requires n <= |values|
    ensures name in WireKeys(values, n, byWire) <==> exists k :: 0 <= k < n && NameAt(values, k, byWire) == Some(name)
  {
    hide Resolve;
    if n > 0 {
      KeysMembers(values, n - 1, byWire, name);
      var before, last := WireKeys(values, n - 1, byWire), NameAt(values, n - 1, byWire);
      assert WireKeys(values, n, byWire) == if last.Some? then before + [last.value] else before;
      if last == Some(name) {
        assert name in WireKeys(values, n, byWire);
      }
    }
  }

  lemma {:induction false} KeysRepeat(values: seq<WireValue>, n: nat, byWire: map<string, Supply>)
    requires n <= |values|
    ensures NoDup(WireKeys(values, n, byWire)) <==>
              !exists k, l :: 0 <= k < l < n && NameAt(values, k, byWire).Some?
                              && NameAt(values, k, byWire) == NameAt(values, l, byWire)
  {
    hide Resolve;
    if n > 0 {
      KeysRepeat(values, n - 1, byWire);
      var before, last := WireKeys(values, n - 1, byWire), NameAt(values, n - 1, byWire);
      if last.Some? {
        KeysMembers(values, n - 1, byWire, last.value);
        NoDupSnoc(before, last.value);
        assert WireKeys(values, n, byWire) == before + [last.value];
      } else {
        assert WireKeys(values, n, byWire) == before;
      }
    }
  }

  lemma NoDupSnoc<T>(s: seq<T>, x: T)
    ensures NoDup(s + [x]) <==> NoDup(s) && x !in s
  {
    var t := s + [x];
    if NoDup(t) {
      forall i, j | 0 <= i < j < |s| ensures s[i] != s[j] { assert t[i] != t[j]; }
      forall i | 0 <= i < |s| ensures s[i] != x { assert t[i] != t[|s|]; }
    }
  }

  lemma KeysApart(values: seq<WireValue>, byWire: map<string, Supply>)
    ensures |Elements(WireKeys(values, |values|, byWire))| >= 2 <==> TwoApart(values, byWire)
  {
    var names := Elements(WireKeys(values, |values|, byWire));
    forall name ensures name in names <==> Stands(values, byWire, name) {
      KeysMembers(values, |values|, byWire, name);
    }
    TwoOrMore(names);
    hide Stands, WireKeys, Elements;
  }

  /** A list for a single-valued port, nothing or one value for a port that wants two: that alone is reported. Otherwise
      it is what the single values have, and a wrong fan-in if two stand for one name or no two stand for two. */
  lemma WiredReasons(processor: string, port: Port, w: Wire, byWire: map<string, Supply>, r: Reason)
    ensures var values := if w.One? then [w.value] else w.values;
            r in WiredErrors(processor, port, w, byWire) <==>
            if w.Many? && !port.multiple then r == InvalidFanIn
            else if values == [] && port.required then r == MissingRequiredPort
            else if port.multiple && port.required && |values| == 1 then r == InvalidFanIn
            else || (exists k :: 0 <= k < |values| && r in ValueErrors(processor, port, values[k], byWire))
                 || (r == InvalidFanIn && port.multiple && (Repeats(values, byWire) || (port.required && !TwoApart(values, byWire))))
  {
    var values := WireValues(w, port.multiple);
    ValuesReasons(processor, port, values, |values|, byWire, r);
    KeysRepeat(values, |values|, byWire);
    KeysApart(values, byWire);
    DistinctCount(WireKeys(values, |values|, byWire));
    hide ValueErrors, ValuesErrors, WireKeys, NameAt, TwoApart, Elements, Stands;
    assert Repeats(values, byWire) <==> !NoDup(WireKeys(values, |values|, byWire));
  }

  // ----- a step, and the whole list -----

  /** The step wires something that is not one of the ports. */
  ghost predicate StraysFrom(step: Step, consumer: seq<Port>) {
    exists role :: role in step.wires && forall q :: q in consumer ==> q.role != role
  }

  ghost predicate StepReason(steps: seq<Step>, i: nat, available: seq<Supply>, registry: Registry, known: set<string>, r: Reason)
    requires i < |steps|
  {
    var step := steps[i];
    if !FreshRef(steps, i) then r == DuplicateStepRef
    else if step.processor !in registry then r == UnknownProcessor
    else
      var p := registry[step.processor];
      || r in AttributeErrors(p.attributes + p.specialAttributes, step.attributes, known)
      || (r == UnknownPort && StraysFrom(step, ConsumerPorts(p)))
      || (exists k :: 0 <= k < |ConsumerPorts(p)| && r in PortErrors(step, ConsumerPorts(p)[k], available))
  }

  lemma {:induction false} PortsReasons(step: Step, consumer: seq<Port>, n: nat, available: seq<Supply>, r: Reason)
    requires n <= |consumer|
    ensures r in PortsErrors(step, consumer, n, available) <==>
              exists k :: 0 <= k < n && r in PortErrors(step, consumer[k], available)
  {
    hide PortErrors;
    if n > 0 {
      PortsReasons(step, consumer, n - 1, available, r);
    }
  }

  lemma KnownReasons(step: Step, p: Processor, known: set<string>, available: seq<Supply>, r: Reason)
    ensures r in KnownStepErrors(step, p, known, available) <==>
              || r in AttributeErrors(p.attributes + p.specialAttributes, step.attributes, known)
              || (r == UnknownPort && StraysFrom(step, ConsumerPorts(p)))
              || (exists k :: 0 <= k < |ConsumerPorts(p)| && r in PortErrors(step, ConsumerPorts(p)[k], available))
  {
    var consumer := ConsumerPorts(p);
    var unknown := step.wires.Keys - Roles(consumer);
    Strays(step, consumer);
    RepeatedReason(UnknownPort, |unknown|);
    TwoOrMore(unknown);
    PortsReasons(step, consumer, |consumer|, available, r);
    hide Roles, PortErrors, PortsErrors, AttributeErrors, Repeat, ConsumerPorts, StraysFrom;
  }

  lemma Strays(step: Step, consumer: seq<Port>)
    ensures StraysFrom(step, consumer) <==> exists role :: role in step.wires.Keys - Roles(consumer)
  {
    if role :| role in step.wires && forall q :: q in consumer ==> q.role != role {
      assert role in step.wires.Keys - Roles(consumer);
    }
    if role :| role in step.wires.Keys - Roles(consumer) {
      assert forall q :: q in consumer ==> q.role != role;
    }
  }

  lemma StepReasons(steps: seq<Step>, i: nat, inputs: seq<string>, registry: Registry, known: set<string>, r: Reason)
    requires i < |steps|
    ensures r in StepErrors(steps, i, inputs, registry, known) <==>
              StepReason(steps, i, StrictAvailable(steps, i, inputs, registry), registry, known, r)
  {
    hide KnownStepErrors, StrictAvailable, SeenRefs, FreshRef, AttributeErrors, ConsumerPorts, PortErrors, StraysFrom;
    FreshIsUnseen(steps, i);
    if steps[i].processor in registry {
      KnownReasons(steps[i], registry[steps[i].processor], known, StrictAvailable(steps, i, inputs, registry), r);
    }
  }

  /** An error is reported exactly where its reason applies, and repeated initial inputs at the inputs. */
  lemma {:induction false} ReportedReasons(steps: seq<Step>, n: nat, inputs: seq<string>, registry: Registry,
                                           known: set<string>, e: ChainError)
    requires n <= |steps|
    ensures e in StrictErrors(steps, n, inputs, registry, known) <==>
              || (e == ChainError(AtInputs, DuplicateInitialInput) && !NoDup(inputs))
              || (e.where.AtStep? && e.where.index < n
                  && StepReason(steps, e.where.index, StrictAvailable(steps, e.where.index, inputs, registry), registry, known, e.reason))
  {
    hide StepErrors, StepReason, StrictAvailable, RepeatedInputs;
    if n == 0 {
      RepeatedInputsSound(inputs);
      RepeatedReason(DuplicateInitialInput, |RepeatedInputs(inputs)|);
      TaggedReasons(AtInputs, Repeat(DuplicateInitialInput, |RepeatedInputs(inputs)|), e);
    } else {
      ReportedReasons(steps, n - 1, inputs, registry, known, e);
      TaggedReasons(AtStep(n - 1), StepErrors(steps, n - 1, inputs, registry, known), e);
      StepReasons(steps, n - 1, inputs, registry, known, e.reason);
    }
  }

  lemma TaggedReasons(where: Where, reasons: seq<Reason>, e: ChainError)
    ensures e in Tag(where, reasons) <==> e.where == where && e.reason in reasons
  {
    if e.where == where && e.reason in reasons {
      var k :| 0 <= k < |reasons| && reasons[k] == e.reason;
      assert Tag(where, reasons)[k] == e;
    }
  }
}

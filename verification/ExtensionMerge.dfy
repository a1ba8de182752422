/** Processor extensions: plugins add optional ports and attributes to existing processors, and
    every pipeline that was accepted before stays accepted. */
module ExtensionMerge {
  import opened Prelude
  import opened Attributes
  import opened Processors
  import opened Wires
  import opened PipelineTyping
  import opened HubValidator

  datatype Extension = Extension(processor: string, specialInputs: seq<Port>, specialAttributes: seq<Attribute>) {
    /** What the manifest model of an extension guarantees. */
    ghost predicate Valid() {
      && DistinctRoles(specialInputs)
      && (forall p :: p in specialInputs ==> !p.required)
      && (forall a :: a in specialAttributes ==> !a.required)
    }
  }

  predicate Collides(tables: Tables, e: Extension)
    requires e.processor in tables.ports
  {
    || !(Roles(tables.ports[e.processor].consumer) !! Roles(e.specialInputs))
    || !(Names(tables.AttributesOf(e.processor)) !! Names(e.specialAttributes))
  }

  function MergeOne(tables: Tables, e: Extension): Tables
    requires e.processor in tables.ports
  {
    var t := tables.ports[e.processor];
    Tables(tables.ports[e.processor := PortTable(MergePorts(t.consumer, e.specialInputs), t.supplier)],
           tables.attributes[e.processor := tables.AttributesOf(e.processor) + e.specialAttributes])
  }

  /** The tables with the first `n` extensions merged in, unless one of them is refused. */
  function MergeUpTo(tables: Tables, extensions: seq<Extension>, n: nat): Option<Tables>
    requires n <= |extensions|
  {
    if n == 0 then Some(tables)
    else
      var before := MergeUpTo(tables, extensions, n - 1);
      var e := extensions[n - 1];
      if before.None? || e.processor !in before.value.ports || Collides(before.value, e) then None
      else Some(MergeOne(before.value, e))
  }

  /** `None` where the source raises. */
  method MergeExtensions(tables: Tables, extensions: seq<Extension>) returns (merged: Option<Tables>)
    ensures merged == MergeUpTo(tables, extensions, |extensions|)
  {
    hide MergePorts;
    var ports, attributes := tables.ports, tables.attributes;
    for i := 0 to |extensions|
      invariant MergeUpTo(tables, extensions, i) == Some(Tables(ports, attributes))
    {
      var e := extensions[i];
      if e.processor !in ports {
        RefusedStays(tables, extensions, i + 1);
        return None;
      }
      var t := ports[e.processor];
      if !(Roles(t.consumer) !! Roles(e.specialInputs)) {
        RefusedStays(tables, extensions, i + 1);
        return None;
      }
      ports := ports[e.processor := PortTable(MergePorts(t.consumer, e.specialInputs), t.supplier)];
      var existing := if e.processor in attributes then attributes[e.processor] else [];
      if !(Names(existing) !! Names(e.specialAttributes)) {
        RefusedStays(tables, extensions, i + 1);
        return None;
      }
      attributes := attributes[e.processor := existing + e.specialAttributes];
    }
    return Some(Tables(ports, attributes));
  }

  lemma {:induction false} RefusedStays(tables: Tables, extensions: seq<Extension>, i: nat)
    requires i <= |extensions| && MergeUpTo(tables, extensions, i).None?
    ensures MergeUpTo(tables, extensions, |extensions|).None?
    decreases |extensions| - i
  {
    if i < |extensions| {
      RefusedStays(tables, extensions, i + 1);
    }
  }

  // ----- merging is conservative -----

  ghost predicate StepNamesOnly(step: Step, tables: Tables) {
    step.processor in tables.ports ==>
      && step.wires.Keys <= Roles(tables.ports[step.processor].consumer)
      && step.attributes.Keys <= Names(tables.AttributesOf(step.processor))
  }

  /** The steps use no port and no attribute beyond those of `tables`. */
  ghost predicate NamesOnly(steps: seq<Step>, tables: Tables) {
    forall i :: 0 <= i < |steps| ==> StepNamesOnly(steps[i], tables)
  }

  lemma RolesAppend(a: seq<Port>, b: seq<Port>)
    ensures Roles(a + b) == Roles(a) + Roles(b)
  {
    assert forall p :: p in a + b <==> p in a || p in b;
  }

  lemma AttributeNamesAppend(a: seq<Attribute>, b: seq<Attribute>)
    ensures Names(a + b) == Names(a) + Names(b)
  {
    assert forall x :: x in a + b <==> x in a || x in b;
  }

  lemma AttributesExtend(a: seq<Attribute>, b: seq<Attribute>, values: map<string, Value>, known: set<string>)
    requires Names(a) !! Names(b) && forall x :: x in b ==> !x.required
    ensures AttributesTyped(a, values, known) <==> AttributesTyped(a + b, values, known) && values.Keys <= Names(a)
  {
    hide Fits;
    var c := a + b;
    AttributeNamesAppend(a, b);
    if AttributesTyped(c, values, known) {
      forall k | 0 <= k < |a| ensures Bound(a[k], values, known) {
        assert c[k] == a[k];
      }
    }
    if AttributesTyped(a, values, known) {
      forall k | 0 <= k < |c| ensures Bound(c[k], values, known) {
        if k < |a| {
          assert c[k] == a[k];
        } else {
          assert c[k] in b && c[k].name in Names(b);
        }
      }
    }
  }

  lemma PortsExtend(step: Step, a: seq<Port>, b: seq<Port>, available: seq<Supply>)
    requires Roles(a) !! Roles(b) && forall p :: p in b ==> !p.required
    requires step.wires.Keys <= Roles(a)
    ensures HubPortsTyped(step, a, |a|, available) <==> HubPortsTyped(step, a + b, |a + b|, available)
  {
    hide WiredTyped, HubFanIn;
    var c := a + b;
    forall k | 0 <= k < |a| ensures c[k] == a[k] {
    }
    forall k | |a| <= k < |c| ensures HubPortTyped(step, c[k], available) {
      assert c[k] in b && c[k].role in Roles(b);
    }
    if HubPortsTyped(step, c, |c|, available) {
      forall k | 0 <= k < |a| ensures HubPortTyped(step, a[k], available) {
        assert HubPortTyped(step, c[k], available);
      }
    }
  }

  lemma StepExtend(step: Step, tables: Tables, e: Extension, known: set<string>, available: seq<Supply>)
    requires e.Valid() && e.processor in tables.ports && !Collides(tables, e)
    requires step.processor in tables.ports
    ensures HubStepTyped(step, tables, known, available)
       <==> HubStepTyped(step, MergeOne(tables, e), known, available) && StepNamesOnly(step, tables)
  {
    hide AttributesTyped, HubPortsTyped;
    var tables' := MergeOne(tables, e);
    var consumer := tables.ports[step.processor].consumer;
    if step.processor == e.processor {
      MergeFreshPorts(consumer, e.specialInputs);
      RolesAppend(consumer, e.specialInputs);
      AttributesExtend(tables.AttributesOf(e.processor), e.specialAttributes, step.attributes, known);
      if step.wires.Keys <= Roles(consumer) {
        PortsExtend(step, consumer, e.specialInputs, available);
      }
    }
    if HubStepTyped(step, tables, known, available) {
      TypedNamesOnly(step, tables, known, available);
    }
  }

  lemma TypedNamesOnly(step: Step, tables: Tables, known: set<string>, available: seq<Supply>)
    requires step.processor in tables.ports && HubStepTyped(step, tables, known, available)
    ensures StepNamesOnly(step, tables)
  {
  }

  lemma {:induction false} SuppliesExtend(steps: seq<Step>, n: nat, inputs: seq<string>, tables: Tables, e: Extension)
    requires n <= |steps| && e.processor in tables.ports
    ensures AvailableBefore(steps, n, inputs, tables.AsRegistry())
         == AvailableBefore(steps, n, inputs, MergeOne(tables, e).AsRegistry())
  {
    if n > 0 {
      SuppliesExtend(steps, n - 1, inputs, tables, e);
    }
  }

  lemma MergeOneConservative(steps: seq<Step>, inputs: seq<string>, tables: Tables, e: Extension, known: set<string>)
    requires e.Valid() && e.processor in tables.ports && !Collides(tables, e)
    ensures HubAccepts(steps, inputs, tables, known)
       <==> HubAccepts(steps, inputs, MergeOne(tables, e), known) && NamesOnly(steps, tables)
  {
    hide HubStepTyped, AvailableBefore, Collides;
    forall i | 0 <= i < |steps|
      ensures HubTypedAt(steps, i, inputs, tables, known)
         <==> HubTypedAt(steps, i, inputs, MergeOne(tables, e), known) && StepNamesOnly(steps[i], tables)
    {
      SuppliesExtend(steps, i, inputs, tables, e);
      if steps[i].processor in tables.ports {
        StepExtend(steps[i], tables, e, known, AvailableBefore(steps, i, inputs, tables.AsRegistry()));
      }
    }
  }

  lemma MergeOneKeepsNames(steps: seq<Step>, tables: Tables, e: Extension)
    requires e.Valid() && e.processor in tables.ports && !Collides(tables, e) && NamesOnly(steps, tables)
    ensures NamesOnly(steps, MergeOne(tables, e))
  {
    var consumer := tables.ports[e.processor].consumer;
    MergeFreshPorts(consumer, e.specialInputs);
    RolesAppend(consumer, e.specialInputs);
    AttributeNamesAppend(tables.AttributesOf(e.processor), e.specialAttributes);
    forall i | 0 <= i < |steps| ensures StepNamesOnly(steps[i], MergeOne(tables, e)) {
      assert StepNamesOnly(steps[i], tables);
    }
  }

  /** Merging any list of extensions leaves every verdict alone except on pipelines that use one of the
      new names: the old tables accept exactly what the merged ones accept in the old vocabulary. */
  lemma {:induction false} MergeConservative(steps: seq<Step>, inputs: seq<string>, tables: Tables,
                                             extensions: seq<Extension>, n: nat, known: set<string>)
    requires n <= |extensions| && forall e :: e in extensions ==> e.Valid()
    requires MergeUpTo(tables, extensions, n).Some?
    ensures HubAccepts(steps, inputs, tables, known)
       <==> HubAccepts(steps, inputs, MergeUpTo(tables, extensions, n).value, known) && NamesOnly(steps, tables)
    ensures NamesOnly(steps, tables) ==> NamesOnly(steps, MergeUpTo(tables, extensions, n).value)
  {
    hide HubAccepts, NamesOnly, Collides, MergeOne;
    if n == 0 {
      AcceptedNamesOnly(steps, inputs, tables, known);
    } else {
      MergeConservative(steps, inputs, tables, extensions, n - 1, known);
      var before, e := MergeUpTo(tables, extensions, n - 1).value, extensions[n - 1];
      MergeOneConservative(steps, inputs, before, e, known);
      if NamesOnly(steps, before) {
        MergeOneKeepsNames(steps, before, e);
      }
    }
  }

  lemma AcceptedNamesOnly(steps: seq<Step>, inputs: seq<string>, tables: Tables, known: set<string>)
    ensures HubAccepts(steps, inputs, tables, known) ==> NamesOnly(steps, tables)
  {
    hide HubStepTyped, StepNamesOnly;
    if HubAccepts(steps, inputs, tables, known) {
      forall i | 0 <= i < |steps| ensures StepNamesOnly(steps[i], tables) {
        assert HubTypedAt(steps, i, inputs, tables, known);
        if steps[i].processor in tables.ports {
          TypedNamesOnly(steps[i], tables, known, AvailableBefore(steps, i, inputs, tables.AsRegistry()));
        } else {
          UnknownNamesNothing(steps[i], tables);
        }
      }
    }
  }

  lemma UnknownNamesNothing(step: Step, tables: Tables)
    requires step.processor !in tables.ports
    ensures StepNamesOnly(step, tables)
  {
  }
}

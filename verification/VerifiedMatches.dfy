/** What acceptance promises about match graphs: mapping and triangulation get them from an earlier `verify`. */
module VerifiedMatches {
  import opened Processors
  import opened Wires
  import opened PipelineTyping
  import opened StrictValidator
  import opened HubValidator
  import opened LegacyValidator
  import opened CoreProcessors

  predicate MapsOrTriangulates(processor: string) { processor == "map" || processor == "triangulate" }

  /** Step `j` is a `verify` before step `i`; a wire on the port `matches` is the text of its supply, and without one it
      is the only step whose match graph is available. */
  ghost predicate FedByVerify(steps: seq<Step>, i: nat, j: nat, inputs: seq<string>)
    requires i < |steps|
  {
    && j < i && steps[j].processor == "verify"
    && if "matches" in steps[i].wires then steps[i].wires["matches"] == One(Ref(steps[j].ref + ".matches"))
       else forall s :: s in AvailableBefore(steps, i, inputs, CORE_PROCESSORS) && s.dtype == "match_graph" ==> s.ref == steps[j].ref
  }

  /** A verified supply was supplied by an earlier `verify` step under the name `matches`. */
  lemma VerifiedComesFromVerify(steps: seq<Step>, i: nat, inputs: seq<string>, registry: Registry, s: Supply) returns (j: nat)
    requires i <= |steps| && s in AvailableBefore(steps, i, inputs, registry) && s.verified
    ensures j < i && steps[j].processor == "verify" && s.WireRef() == steps[j].ref + ".matches" && s.ref == steps[j].ref
  {
    AvailableOrigins(steps, i, inputs, registry, s);
    assert s !in InputSupplies(inputs);
    j :| 0 <= j < i && SuppliedBy(steps, j, registry, s);
    assert steps[j].ref + "." + "matches" == steps[j].ref + ".matches";
  }

  /** The core table gives both processors one required, single-valued port `matches` for a match graph. */
  lemma MatchesPort(processor: string) returns (k: nat)
    requires MapsOrTriangulates(processor)
    ensures processor in CORE_PROCESSORS && PlainProcessor(CORE_PROCESSORS[processor])
    ensures var ports := ConsumerPorts(CORE_PROCESSORS[processor]);
            k < |ports| && ports[k] == Port("matches", "match_graph", true, false)
  {
    CoreIsPlain();
    CoreEntries();
    hide CORE_PROCESSORS, PlainRegistry;
    assert PlainProcessor(CORE_PROCESSORS[processor]) by { assert PlainRegistry(CORE_PROCESSORS); PlainEntry(processor); }
    ConsumerPortsPlain(CORE_PROCESSORS[processor]);
    k := 1;
  }

  lemma PlainEntry(processor: string)
    requires PlainRegistry(CORE_PROCESSORS) && processor in CORE_PROCESSORS
    ensures PlainProcessor(CORE_PROCESSORS[processor])
  {
    hide CORE_PROCESSORS, PlainProcessor;
  }

  lemma CoreEntries()
    ensures "map" in CORE_PROCESSORS && CORE_PROCESSORS["map"] == Map()
    ensures "triangulate" in CORE_PROCESSORS && CORE_PROCESSORS["triangulate"] == Triangulate()
  {
    hide Features, Pairs, Matches, Verify, Map, MapFeedForward, Triangulate, Refine, ModelToModel, Merge, Project;
  }

  /** In an accepted pipeline over the core processors every `map` and every `triangulate` gets its matches from a
      strictly earlier `verify`. */
  lemma MatchesAreVerified(steps: seq<Step>, inputs: seq<string>, known: set<string>, i: nat)
    requires StrictErrors(steps, |steps|, inputs, CORE_PROCESSORS, known) == []
    requires i < |steps| && MapsOrTriangulates(steps[i].processor)
    ensures exists j :: FedByVerify(steps, i, j, inputs)
  {
    hide CORE_PROCESSORS, StrictErrors, PortTyped, AvailableBefore;
    StrictErrorsSound(steps, inputs, CORE_PROCESSORS, known);
    assert TypedAt(steps, i, inputs, CORE_PROCESSORS, known);
    var k := MatchesPort(steps[i].processor);
    var available := AvailableBefore(steps, i, inputs, CORE_PROCESSORS);
    var port := ConsumerPorts(CORE_PROCESSORS[steps[i].processor])[k];
    assert PortTyped(steps[i], port, available);
    var s := FeedingSupply(steps[i], port, available);
    var j := VerifiedComesFromVerify(steps, i, inputs, CORE_PROCESSORS, s);
    assert FedByVerify(steps, i, j, inputs);
  }

  lemma FeedingSupply(step: Step, port: Port, available: seq<Supply>) returns (s: Supply)
    requires PortTyped(step, port, available) && port == Port("matches", "match_graph", true, false)
    requires MapsOrTriangulates(step.processor)
    ensures s in available && s.verified
    ensures "matches" in step.wires ==> step.wires["matches"] == One(Ref(s.WireRef()))
    ensures "matches" !in step.wires ==> forall x :: x in available && x.dtype == "match_graph" ==> x == s
  {
    if "matches" in step.wires {
      var w := step.wires["matches"];
      assert WireValues(w, false)[0] == w.value;
      assert ValueTyped(step.processor, port, w.value, Index(available));
      var j := ValueHasCandidate(step.processor, port, w.value, available);
      s := available[j];
    } else {
      var j :| Candidate(available, j, port.dtype) && available[j].verified;
      s := available[j];
      forall x | x in available && x.dtype == "match_graph" ensures x == s {
        var l :| 0 <= l < |available| && available[l] == x;
        assert Candidate(available, l, port.dtype);
      }
    }
  }

  /** The same for the hub's validator. */
  lemma HubMatchesAreVerified(steps: seq<Step>, inputs: seq<string>, tables: Tables, known: set<string>, i: nat)
    requires SameProcessors(CORE_PROCESSORS, tables) && DotFreeRefs(steps)
    requires HubAccepts(steps, inputs, tables, known) && ManifestShape(steps, inputs, CORE_PROCESSORS)
    requires i < |steps| && MapsOrTriangulates(steps[i].processor)
    ensures exists j :: FedByVerify(steps, i, j, inputs)
  {
    hide CORE_PROCESSORS, StrictErrors, HubAccepts, ManifestShape, SameProcessors;
    ValidatorsAgree(steps, inputs, CORE_PROCESSORS, tables, known);
    MatchesAreVerified(steps, inputs, known, i);
  }

  // ----- flat lists -----

  lemma {:induction false} CountedVerify(ops: seq<string>, n: nat, registry: Registry)
    requires n <= |ops|
    ensures VerifiedGraphs(ops, n, registry) > 0 ==> exists j :: 0 <= j < n && ops[j] == "verify"
  {
    if n > 0 {
      CountedVerify(ops, n - 1, registry);
    }
  }

  /** An accepted flat list has a `verify` before each `map` and `triangulate`. */
  lemma FlatMatchesAreVerified(ops: seq<string>, inputs: seq<string>, i: nat)
    requires LegacyErrors(ops, |ops|, inputs, CORE_PROCESSORS) == [] && i < |ops| && MapsOrTriangulates(ops[i])
    ensures exists j :: 0 <= j < i && ops[j] == "verify"
  {
    hide CORE_PROCESSORS, LegacyErrors, Counts, VerifiedGraphs;
    LegacyErrorsSound(ops, |ops|, inputs, CORE_PROCESSORS);
    assert FlatOkAt(ops, i, inputs, CORE_PROCESSORS);
    var k := MatchesPort(ops[i]);
    ConsumerPortsPlain(CORE_PROCESSORS[ops[i]]);
    CoreEntries();
    assert CORE_PROCESSORS[ops[i]].consumer[1] == Port("matches", "match_graph", true, false);
    assert FlatPortOk(ops[i], CORE_PROCESSORS[ops[i]].consumer[1], Counts(ops, i, inputs, CORE_PROCESSORS),
                      VerifiedGraphs(ops, i, CORE_PROCESSORS));
    CountedVerify(ops, i, CORE_PROCESSORS);
  }
}

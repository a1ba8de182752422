/** The shipped pipelines type-check from the captured images: each has a wiring the named-port validator accepts. */
module CanonicalPipelines {
  import opened Processors
  import opened PipelineTyping
  import opened StrictValidator
  import opened LegacyValidator
  import opened CoreProcessors

  const DEFAULT_INITIAL_INPUTS: seq<string> := ["image_sequence"]

  const SFM: seq<string> := ["features", "pairs", "matches", "verify", "map"]

  const FEED_FORWARD: seq<string> := ["map_feed_forward"]

  lemma CoreTable()
    ensures var r := CORE_PROCESSORS;
            && "features" in r && r["features"] == Features() && "pairs" in r && r["pairs"] == Pairs()
            && "matches" in r && r["matches"] == Matches() && "verify" in r && r["verify"] == Verify()
            && "map" in r && r["map"] == Map()
            && "map_feed_forward" in r && r["map_feed_forward"] == MapFeedForward()
  {
    hide Features, Pairs, Matches, Verify, Map, MapFeedForward, Triangulate, Refine, ModelToModel, Merge, Project;
  }

  /** An operation with one supplier adds one datatype to the counter. */
  lemma CountsNext(ops: seq<string>, i: nat, inputs: seq<string>, registry: Registry, dtype: string)
    requires i < |ops| && ops[i] in registry
    requires |registry[ops[i]].supplier| == 1 && registry[ops[i]].supplier[0].dtype == dtype
    ensures Counts(ops, i + 1, inputs, registry) == Counts(ops, i, inputs, registry) + multiset{dtype}
    ensures ops[i] == "verify" && dtype == "match_graph" ==> VerifiedGraphs(ops, i + 1, registry) > 0
  {
    assert Produces(registry[ops[i]]) == [dtype];
  }

  /** An operation whose single-valued ports all have their datatype counted passes the flat check. */
  lemma Passes(ops: seq<string>, i: nat, inputs: seq<string>, registry: Registry)
    requires i < |ops| && ops[i] in registry
    requires forall q :: q in registry[ops[i]].consumer ==>
               !q.multiple && Counts(ops, i, inputs, registry)[q.dtype] > 0
               && (WantsVerified(ops[i], q.role) ==> VerifiedGraphs(ops, i, registry) > 0)
    ensures FlatOkAt(ops, i, inputs, registry)
  {
    hide Counts, VerifiedGraphs, WantsVerified;
  }

  /** What the first four operations of the reconstruction pipeline supply. */
  const SUPPLIED: seq<string> := ["feature_set", "pair_set", "match_graph", "match_graph"]

  lemma SfmSupplies(i: nat)
    requires i < 4
    ensures SFM[i] in CORE_PROCESSORS
    ensures var p := CORE_PROCESSORS[SFM[i]]; |p.supplier| == 1 && p.supplier[0].dtype == SUPPLIED[i]
  {
    CoreTable();
    hide CORE_PROCESSORS;
  }

  function SfmCount(n: nat): multiset<string>
    requires n <= 4
  {
    if n == 0 then multiset{"image_sequence"} else SfmCount(n - 1) + multiset{SUPPLIED[n - 1]}
  }

  lemma {:induction false} SfmCounts(n: nat)
    requires n <= 4
    ensures Counts(SFM, n, DEFAULT_INITIAL_INPUTS, CORE_PROCESSORS) == SfmCount(n)
    ensures n == 4 ==> VerifiedGraphs(SFM, n, CORE_PROCESSORS) > 0
  {
    hide CORE_PROCESSORS;
    if n > 0 {
      SfmCounts(n - 1);
      SfmSupplies(n - 1);
      hide Counts, VerifiedGraphs, SfmCount;
      CountsNext(SFM, n - 1, DEFAULT_INITIAL_INPUTS, CORE_PROCESSORS, SUPPLIED[n - 1]);
      assert SfmCount(n) == SfmCount(n - 1) + multiset{SUPPLIED[n - 1]} by { SfmCountNext(n); }
    }
  }

  lemma SfmCountNext(n: nat)
    requires 0 < n <= 4
    ensures SfmCount(n) == SfmCount(n - 1) + multiset{SUPPLIED[n - 1]}
  {
  }

  lemma {:induction false} SfmCountHas(n: nat)
    requires n <= 4
    ensures SfmCount(n)["image_sequence"] > 0 && forall k :: 0 <= k < n ==> SfmCount(n)[SUPPLIED[k]] > 0
  {
    if n > 0 { SfmCountHas(n - 1); }
  }

  lemma SfmPort(i: nat, q: Port)
    requires i < |SFM| && SFM[i] in CORE_PROCESSORS && q in CORE_PROCESSORS[SFM[i]].consumer
    ensures !q.multiple && (WantsVerified(SFM[i], q.role) ==> i == 4)
    ensures q.dtype == "image_sequence" || (1 <= i && q.dtype == SUPPLIED[0])
            || (2 <= i && q.dtype == SUPPLIED[1]) || (3 <= i && q.dtype == SUPPLIED[2])
  {
    CoreTable();
    hide CORE_PROCESSORS;
  }

  /** Every port takes one datatype that is counted, and only the last operation wants it verified. */
  lemma SfmPortCounted(i: nat, q: Port)
    requires i < |SFM| && SFM[i] in CORE_PROCESSORS && q in CORE_PROCESSORS[SFM[i]].consumer
    ensures !q.multiple && SfmCount(i)[q.dtype] > 0 && (WantsVerified(SFM[i], q.role) ==> i == 4)
  {
    hide CORE_PROCESSORS;
    SfmPort(i, q);
    SfmCountHas(i);
  }

  lemma SfmPasses(i: nat)
    requires i < |SFM|
    ensures FlatOkAt(SFM, i, DEFAULT_INITIAL_INPUTS, CORE_PROCESSORS)
  {
    assert SFM[i] in CORE_PROCESSORS by { CoreTable(); hide CORE_PROCESSORS; }
    SfmCounts(i);
    hide CORE_PROCESSORS, Counts, VerifiedGraphs, FlatOkAt, SfmCount, WantsVerified;
    forall q | q in CORE_PROCESSORS[SFM[i]].consumer
      ensures !q.multiple && SfmCount(i)[q.dtype] > 0 && (WantsVerified(SFM[i], q.role) ==> i == 4)
    {
      SfmPortCounted(i, q);
    }
    Passes(SFM, i, DEFAULT_INITIAL_INPUTS, CORE_PROCESSORS);
  }

  lemma CanonicalPasses()
    ensures LegacyErrors(SFM, |SFM|, DEFAULT_INITIAL_INPUTS, CORE_PROCESSORS) == []
    ensures LegacyErrors(FEED_FORWARD, |FEED_FORWARD|, DEFAULT_INITIAL_INPUTS, CORE_PROCESSORS) == []
  {
    CoreTable();
    hide CORE_PROCESSORS, LegacyErrors, FlatOkAt;
    LegacyErrorsSound(SFM, |SFM|, DEFAULT_INITIAL_INPUTS, CORE_PROCESSORS);
    LegacyErrorsSound(FEED_FORWARD, |FEED_FORWARD|, DEFAULT_INITIAL_INPUTS, CORE_PROCESSORS);
    forall i | 0 <= i < |SFM| ensures FlatOkAt(SFM, i, DEFAULT_INITIAL_INPUTS, CORE_PROCESSORS) {
      SfmPasses(i);
    }
    Passes(FEED_FORWARD, 0, DEFAULT_INITIAL_INPUTS, CORE_PROCESSORS);
  }

  ghost predicate Wirable(ops: seq<string>, known: set<string>) {
    exists steps :: Elaborates(steps, ops)
                    && StrictErrors(steps, |steps|, DEFAULT_INITIAL_INPUTS, CORE_PROCESSORS, known) == []
  }

  /** Both canonical lists can be wired, so the theorems about accepted pipelines speak about them. */
  lemma CanonicalWires(known: set<string>)
    ensures Wirable(SFM, known) && Wirable(FEED_FORWARD, known)
  {
    CoreIsPlain();
    CanonicalPasses();
    hide CORE_PROCESSORS, LegacyErrors, StrictErrors, PlainRegistry;
    LegacyIsWirability(SFM, DEFAULT_INITIAL_INPUTS, CORE_PROCESSORS, known);
    LegacyIsWirability(FEED_FORWARD, DEFAULT_INITIAL_INPUTS, CORE_PROCESSORS, known);
  }
}

/** The concrete core registry, and that it is one the wirability theorem speaks about. */
module CoreProcessors {
  import opened Prelude
  import opened Attributes
  import opened Processors
  import opened LegacyValidator

  function In(role: string, dtype: string): Port { Port(role, dtype, true, false) }

  function Choice(name: string, values: seq<string>): Attribute {
    AttributeDecl(name, EnumType, false, values, None, None)
  }

  function Flag(name: string): Attribute { AttributeDecl(name, BoolType, false, [], None, None) }

  function Whole(name: string, min: Option<real>): Attribute {
    AttributeDecl(name, IntType, false, [], min, None)
  }

  function Ratio(name: string, max: Option<real>): Attribute {
    AttributeDecl(name, FloatType, false, [], Some(0.0), max)
  }

  function Core(consumer: seq<Port>, supplier: seq<Port>, attributes: seq<Attribute>): Processor {
    Processor(consumer, supplier, attributes, [], [])
  }

  function Features(): Processor {
    Core([In("images", "image_sequence")], [In("features", "feature_set")],
         [Choice("type", ["sift", "superpoint", "aliked", "disk", "r2d2", "d2net", "sosnet"]),
          Whole("max_num_features", Some(0.0)), Flag("use_gpu"), Whole("seed", None)])
  }

  function Pairs(): Processor {
    Core([In("features", "feature_set")], [In("pairs", "pair_set")],
         [Choice("strategy", ["exhaustive", "sequential", "spatial", "vocabtree", "retrieval", "from_poses", "explicit"]),
          Whole("overlap", Some(0.0)), Whole("retrieval_k", Some(1.0))])
  }

  function Matches(): Processor {
    Core([In("features", "feature_set"), In("pairs", "pair_set")], [In("matches", "match_graph")],
         [Choice("type", ["nn-mutual", "nn-ratio", "superglue", "lightglue", "loftr", "mast3r"]),
          Flag("use_gpu"), Flag("cross_check"), Ratio("max_ratio", Some(1.0)), Ratio("max_distance", None)])
  }

  function Verify(): Processor {
    Core([In("matches", "match_graph")], [In("matches", "match_graph")],
         [Flag("use_gpu"), Ratio("min_inlier_ratio", Some(1.0))])
  }

  function Map(): Processor {
    Core([In("features", "feature_set"), In("matches", "match_graph")], [In("model", "sparse_model")],
         [Choice("kind", ["incremental", "global", "hierarchical", "spherical"]),
          Whole("seed", None), Whole("max_runtime_seconds", Some(1.0))])
  }

  function MapFeedForward(): Processor {
    Core([In("images", "image_sequence")], [In("model", "sparse_model")],
         [Whole("seed", None), Whole("max_runtime_seconds", Some(1.0))])
  }

  function Triangulate(): Processor {
    Core([In("model", "sparse_model"), In("matches", "match_graph")], [In("model", "sparse_model")], [])
  }

  function Refine(): Processor {
    Core([In("model", "sparse_model")], [In("model", "sparse_model")],
         [Choice("mode", ["standard", "two_stage", "featuremetric", "rig"]), Whole("max_num_iterations", Some(1.0))])
  }

  /** Pose-graph optimization, relocalization, georegistration and undistortion share one signature. */
  function ModelToModel(): Processor {
    Core([In("model", "sparse_model")], [In("model", "sparse_model")], [])
  }

  function Merge(): Processor {
    Core([Port("model", "sparse_model", true, true)], [In("model", "sparse_model")], [])
  }

  function Project(): Processor {
    Core([In("images", "image_sequence")], [In("projection", "projection")], [])
  }

  const CORE_PROCESSORS: Registry := map[
    "features" := Features(), "pairs" := Pairs(), "matches" := Matches(), "verify" := Verify(),
    "map" := Map(), "map_feed_forward" := MapFeedForward(), "triangulate" := Triangulate(),
    "refine" := Refine(), "optimize_poses" := ModelToModel(), "relocalize" := ModelToModel(),
    "merge" := Merge(), "georegister" := ModelToModel(), "undistort" := ModelToModel(),
    "project" := Project()]

  lemma PlainCore(consumer: seq<Port>, supplier: seq<Port>, attributes: seq<Attribute>)
    requires forall q :: q in consumer ==> q.required && q.dtype != ""
    requires DistinctRoles(consumer) && |supplier| == 1 && supplier[0].role != "" && '.' !in supplier[0].role
    requires forall a :: a in attributes ==> !a.required
    ensures PlainProcessor(Core(consumer, supplier, attributes))
  {
    assert attributes + [] == attributes;
  }

  ghost predicate Conventional(id: string, p: Processor) {
    PlainProcessor(p) && MatchGraphConventions(id, p)
  }

  lemma Stage1Conventional()
    ensures Conventional("features", Features()) && Conventional("pairs", Pairs())
  {
    hide PlainProcessor;
    PlainCore(Features().consumer, Features().supplier, Features().attributes);
    PlainCore(Pairs().consumer, Pairs().supplier, Pairs().attributes);
  }

  lemma Stage2Conventional()
    ensures Conventional("matches", Matches()) && Conventional("verify", Verify())
  {
    hide PlainProcessor;
    PlainCore(Matches().consumer, Matches().supplier, Matches().attributes);
    PlainCore(Verify().consumer, Verify().supplier, Verify().attributes);
  }

  lemma Stage3Conventional()
    ensures Conventional("map", Map()) && Conventional("triangulate", Triangulate())
    ensures Conventional("map_feed_forward", MapFeedForward())
  {
    hide PlainProcessor;
    PlainCore(Map().consumer, Map().supplier, Map().attributes);
    PlainCore(Triangulate().consumer, Triangulate().supplier, Triangulate().attributes);
    PlainCore(MapFeedForward().consumer, MapFeedForward().supplier, MapFeedForward().attributes);
  }

  lemma ModelsConventional(id: string)
    ensures Conventional(id, ModelToModel()) && Conventional(id, Merge()) && Conventional(id, Project())
    ensures Conventional(id, Refine())
  {
    hide PlainProcessor;
    PlainCore(ModelToModel().consumer, ModelToModel().supplier, []);
    PlainCore(Merge().consumer, Merge().supplier, []);
    PlainCore(Project().consumer, Project().supplier, []);
    PlainCore(Refine().consumer, Refine().supplier, Refine().attributes);
  }

  /** The core table satisfies the conventions the wirability theorem asks of a registry. */
  lemma CoreIsPlain()
    ensures PlainRegistry(CORE_PROCESSORS)
  {
    hide PlainProcessor, MatchGraphConventions, Features, Pairs, Matches, Verify, Map, MapFeedForward, Triangulate,
         Refine, ModelToModel, Merge, Project;
    Stage1Conventional();
    Stage2Conventional();
    Stage3Conventional();
    forall id | id in CORE_PROCESSORS ensures Conventional(id, CORE_PROCESSORS[id]) {
      ModelsConventional(id);
    }
  }

  // ----- the table by its signatures -----

  /** The processor takes these (role, datatype) inputs, all of them needed, and gives this one; its attributes, all
      optional, have these names. */
  ghost predicate Signature(p: Processor, takes: seq<(string, string)>, several: bool, gives: (string, string), names: seq<string>) {
    && |p.consumer| == |takes| && |p.supplier| == 1 && |p.attributes| == |names| && p.specialInputs == [] && p.specialAttributes == []
    && (forall k :: 0 <= k < |takes| ==>
          && (p.consumer[k].role, p.consumer[k].dtype) == takes[k] && p.consumer[k].required && (p.consumer[k].multiple <==> several))
    && (p.supplier[0].role, p.supplier[0].dtype) == gives
    && (forall k :: 0 <= k < |names| ==> p.attributes[k].name == names[k] && !p.attributes[k].required)
  }

  lemma CorrespondenceSignatures()
    ensures Signature(Features(), [("images", "image_sequence")], false, ("features", "feature_set"),
                      ["type", "max_num_features", "use_gpu", "seed"])
    ensures Signature(Pairs(), [("features", "feature_set")], false, ("pairs", "pair_set"), ["strategy", "overlap", "retrieval_k"])
    ensures Signature(Matches(), [("features", "feature_set"), ("pairs", "pair_set")], false, ("matches", "match_graph"),
                      ["type", "use_gpu", "cross_check", "max_ratio", "max_distance"])
    ensures Signature(Verify(), [("matches", "match_graph")], false, ("matches", "match_graph"), ["use_gpu", "min_inlier_ratio"])
  {
  }

  lemma ReconstructionSignatures()
    ensures Signature(Map(), [("features", "feature_set"), ("matches", "match_graph")], false, ("model", "sparse_model"),
                      ["kind", "seed", "max_runtime_seconds"])
    ensures Signature(MapFeedForward(), [("images", "image_sequence")], false, ("model", "sparse_model"),
                      ["seed", "max_runtime_seconds"])
    ensures Signature(Triangulate(), [("model", "sparse_model"), ("matches", "match_graph")], false, ("model", "sparse_model"), [])
  {
  }

  lemma ModelSignatures()
    ensures Signature(Refine(), [("model", "sparse_model")], false, ("model", "sparse_model"), ["mode", "max_num_iterations"])
    ensures Signature(ModelToModel(), [("model", "sparse_model")], false, ("model", "sparse_model"), [])
    ensures Signature(Merge(), [("model", "sparse_model")], true, ("model", "sparse_model"), [])
    ensures Signature(Project(), [("images", "image_sequence")], false, ("projection", "projection"), [])
  {
  }
}

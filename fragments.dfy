/**
 * The element builders of the setup script (`create_*`). Each returns the
 * fragment it builds; the builders that also queue entries for the shared
 * operator, prior, file-log and tree-trait lists return those entries beside
 * the fragment, as an `Accumulators` delta.
 */
module Fragments {
  import opened Xml
  import opened Namespacer

  /** `create_idref`. */
  function Idref(tag: string, idref: string): Node
  {
    Element(tag, map["idref" := idref], [])
  }

  /** `create_nested_element`. */
  function Nested(nestTag: string, e: Node): Node
  {
    Element(nestTag, map[], [e])
  }

  /** `create_nested_idref`. */
  function NestedIdref(nestTag: string, tag: string, idref: string): Node
  {
    Nested(nestTag, Idref(tag, idref))
  }

  /** `create_host_attribute`: the `<attr name="host">` recording a taxon's host. */
  function HostAttribute(idref: string): Node
  {
    Element("attr", map["name" := "host"], [Idref("taxon", idref)])
  }

  /** `create_tree_trait`. */
  function TreeTrait(name: string, tag: string, idref: string): Node
  {
    Element("trait", map["name" := name, "tag" := tag], [Idref(tag, idref)])
  }

  /** `create_scale_operator`. */
  function ScaleOperator(idref: string, scaleFactor: string, weight: string): Node
  {
    Element("scaleOperator", map["scaleFactor" := scaleFactor, "weight" := weight], [Idref("parameter", idref)])
  }

  /** `create_uniform_prior` with its default bounds. */
  function UniformPrior(idref: string): Node
  {
    Element("uniformPrior", map["lower" := "0.0", "upper" := "1.0E100"], [Idref("parameter", idref)])
  }

  /** `create_gamma_prior` with its default shape, scale and offset. */
  function GammaPrior(idref: string): Node
  {
    Element("gammaPrior", map["shape" := "0.05", "scale" := "20.0", "offset" := "0.0"], [Idref("parameter", idref)])
  }

  /** The comments that bracket everything the script adds. */
  function Begin(): Node { Comment(" BEGIN COPHYLOGENY MODEL XML ") }
  function End(): Node { Comment(" END COPHYLOGENY MODEL XML ") }

  /** The module-level lists the builders append to. */
  datatype Accumulators = Accumulators(
    operators: seq<Node>,
    priors: seq<Node>,
    fileLog: seq<Node>,
    hostTreeTraits: seq<Node>,
    symbiontTreeTraits: seq<Node>)
  {
    /** The lists after the entries of `d` have been appended. */
    function Then(d: Accumulators): Accumulators
    {
      Accumulators(operators + d.operators, priors + d.priors, fileLog + d.fileLog,
                   hostTreeTraits + d.hostTreeTraits, symbiontTreeTraits + d.symbiontTreeTraits)
    }

    function All(): seq<Node>
    {
      operators + priors + fileLog + hostTreeTraits + symbiontTreeTraits
    }
  }

  const NoEntries := Accumulators([], [], [], [], [])

  /** A built fragment with the entries it queued. */
  datatype Built = Built(fragment: Node, delta: Accumulators)

  /** A parameter element with the builders' initial value and lower bound. */
  function Parameter(id: string): Node
  {
    Element("parameter", map["id" := id, "value" := "1.0", "lower" := "0.0"], [])
  }

  function TreeModelId(taxonLabel: string): string { Qualify(taxonLabel, "treeModel") }

  const RateNames: seq<string> := ["duplicationRate", "hostShiftRate", "lossRate"]

  /** `create_host_shift_operator`. */
  function HostShiftOperator(hostLabel: string, symbiontLabel: string): Node
  {
    Element("hostShiftOperator", map["sampleNoHost" := "false", "weight" := "60"],
      [NestedIdref("hostTree", "treeModel", TreeModelId(hostLabel)),
       NestedIdref("symbiontTree", "treeModel", TreeModelId(symbiontLabel)),
       Idref("cophylogenyLikelihood", "cophylogeny.likelihood")])
  }

  /**
   * `create_simple_cophylogeny_model`: one rate parameter per event type, in
   * the order duplication, host shift, loss, each with one scale operator, one
   * gamma prior and one file-log reference queued for it.
   */
  function SimpleCophylogenyModel(): (b: Built)
    ensures b.fragment.Element? && b.fragment.tag == "simpleCophylogenyModel"
    ensures |b.fragment.children| == 3 && |b.delta.operators| == 3 && |b.delta.priors| == 3 && |b.delta.fileLog| == 3
    ensures b.delta.hostTreeTraits == [] && b.delta.symbiontTreeTraits == []
    ensures forall k :: 0 <= k < 3 ==>
      var id := Qualify("cophylogeny", RateNames[k]);
      b.fragment.children[k] == Nested(RateNames[k], Parameter(id))
      && b.delta.operators[k] == ScaleOperator(id, "0.75", "0.1")
      && b.delta.priors[k] == GammaPrior(id)
      && b.delta.fileLog[k] == Idref("parameter", id)
  {
    var ids := seq(3, k requires 0 <= k < 3 => Qualify("cophylogeny", RateNames[k]));
    Built(
      Element("simpleCophylogenyModel", map["id" := "cophylogeny.model", "units" := "substitutions"],
        seq(3, k requires 0 <= k < 3 => Nested(RateNames[k], Parameter(ids[k])))),
      Accumulators(
        seq(3, k requires 0 <= k < 3 => ScaleOperator(ids[k], "0.75", "0.1")),
        seq(3, k requires 0 <= k < 3 => GammaPrior(ids[k])),
        seq(3, k requires 0 <= k < 3 => Idref("parameter", ids[k])),
        [], []))
  }

  /** `create_strict_clock_branch_rates`. */
  function StrictClockBranchRates(): Built
  {
    Built(
      Element("strictClockBranchRates", map["id" := "cophylogeny.branchRates"],
        [Nested("rate", Parameter("cophylogeny.clock.rate"))]),
      Accumulators([ScaleOperator("cophylogeny.clock.rate", "0.75", "3")], [UniformPrior("cophylogeny.clock.rate")],
        [Idref("parameter", "cophylogeny.clock.rate")], [],
        [TreeTrait("cophylogeny.rate", "strictClockBranchRates", "cophylogeny.branchRates")]))
  }

  /** `create_coevolution_simulator`: queues nothing. */
  function CoevolutionSimulator(hostLabel: string, symbiontLabel: string): Node
  {
    Element("coevolutionSimulator",
      map["id" := "cophylogeny.simulator", "hostAttributeName" := "host", "simulateNoHost" := "false"],
      [NestedIdref("hostTree", "treeModel", TreeModelId(hostLabel)),
       NestedIdref("symbiontTree", "treeModel", TreeModelId(symbiontLabel)),
       Idref("cophylogenyLikelihood", "cophylogeny.likelihood")])
  }

  function NodeRefId(hostLabel: string): string { Qualify(hostLabel, "nodeRef") }

  /** `create_node_ref_provider`: queues the host-tree `nodeRef` trait. */
  function NodeRefProvider(hostLabel: string): Built
  {
    Built(
      Element("nodeRefProvider", map["id" := NodeRefId(hostLabel), "tagName" := "nodeRef"],
        [Idref("treeModel", TreeModelId(hostLabel))]),
      Accumulators([], [], [], [TreeTrait("nodeRef", "nodeRefProvider", NodeRefId(hostLabel))], []))
  }

  /** `create_cophylogeny_likelihood`: queues the host-shift operator and the `host.nodeRef` trait. */
  function CophylogenyLikelihood(hostLabel: string, symbiontLabel: string): Built
  {
    Built(
      Element("cophylogenyLikelihood",
        map["id" := "cophylogeny.likelihood", "hostAttributeName" := "host", "stateTagName" := "host.nodeRef"],
        [Idref("simpleCophylogenyModel", "cophylogeny.model"),
         NestedIdref("hostTree", "treeModel", TreeModelId(hostLabel)),
         NestedIdref("symbiontTree", "treeModel", TreeModelId(symbiontLabel)),
         Idref("strictClockBranchRates", "cophylogeny.branchRates")]),
      Accumulators([HostShiftOperator(hostLabel, symbiontLabel)], [], [], [],
        [TreeTrait("host.nodeRef", "cophylogenyLikelihood", "cophylogeny.likelihood")]))
  }

  /** The five model fragments, in the order the script inserts them. */
  function Synthesized(hostLabel: string, symbiontLabel: string): seq<Node>
  {
    [SimpleCophylogenyModel().fragment, StrictClockBranchRates().fragment,
     CophylogenyLikelihood(hostLabel, symbiontLabel).fragment,
     CoevolutionSimulator(hostLabel, symbiontLabel), NodeRefProvider(hostLabel).fragment]
  }

  /** The lists once every builder has run, in the script's order. */
  function Queued(hostLabel: string, symbiontLabel: string): Accumulators
  {
    NoEntries.Then(SimpleCophylogenyModel().delta).Then(StrictClockBranchRates().delta)
      .Then(CophylogenyLikelihood(hostLabel, symbiontLabel).delta).Then(NodeRefProvider(hostLabel).delta)
  }

  /**
   * What the builders queue: the three rate operators, then the clock's, then
   * the host-shift operator; gamma priors for the rates and a uniform prior
   * for the clock; and the two symbiont-tree traits in clock, likelihood order.
   */
  lemma {:induction false} QueuedEntries(hostLabel: string, symbiontLabel: string)
    ensures var q := Queued(hostLabel, symbiontLabel);
      q.operators == [ScaleOperator("cophylogeny.duplicationRate", "0.75", "0.1"),
                      ScaleOperator("cophylogeny.hostShiftRate", "0.75", "0.1"),
                      ScaleOperator("cophylogeny.lossRate", "0.75", "0.1"),
                      ScaleOperator("cophylogeny.clock.rate", "0.75", "3"),
                      HostShiftOperator(hostLabel, symbiontLabel)]
      && q.priors == [GammaPrior("cophylogeny.duplicationRate"), GammaPrior("cophylogeny.hostShiftRate"),
                      GammaPrior("cophylogeny.lossRate"), UniformPrior("cophylogeny.clock.rate")]
      && q.fileLog == [Idref("parameter", "cophylogeny.duplicationRate"), Idref("parameter", "cophylogeny.hostShiftRate"),
                       Idref("parameter", "cophylogeny.lossRate"), Idref("parameter", "cophylogeny.clock.rate")]
      && q.hostTreeTraits == [TreeTrait("nodeRef", "nodeRefProvider", NodeRefId(hostLabel))]
      && q.symbiontTreeTraits == [TreeTrait("cophylogeny.rate", "strictClockBranchRates", "cophylogeny.branchRates"),
                                  TreeTrait("host.nodeRef", "cophylogenyLikelihood", "cophylogeny.likelihood")]
  {
    QueuedOperators(hostLabel, symbiontLabel);
    QueuedPriorsAndLog(hostLabel, symbiontLabel);
  }

  lemma {:induction false} QueuedOperators(hostLabel: string, symbiontLabel: string)
    ensures Queued(hostLabel, symbiontLabel).operators ==
      [ScaleOperator("cophylogeny.duplicationRate", "0.75", "0.1"),
       ScaleOperator("cophylogeny.hostShiftRate", "0.75", "0.1"),
       ScaleOperator("cophylogeny.lossRate", "0.75", "0.1"),
       ScaleOperator("cophylogeny.clock.rate", "0.75", "3"),
       HostShiftOperator(hostLabel, symbiontLabel)]
  {
    var m := SimpleCophylogenyModel().delta;
    RateIds();
    assert m.operators == [m.operators[0], m.operators[1], m.operators[2]];
  }

  lemma {:induction false} QueuedPriorsAndLog(hostLabel: string, symbiontLabel: string)
    ensures Queued(hostLabel, symbiontLabel).priors ==
      [GammaPrior("cophylogeny.duplicationRate"), GammaPrior("cophylogeny.hostShiftRate"),
       GammaPrior("cophylogeny.lossRate"), UniformPrior("cophylogeny.clock.rate")]
    ensures Queued(hostLabel, symbiontLabel).fileLog ==
      [Idref("parameter", "cophylogeny.duplicationRate"), Idref("parameter", "cophylogeny.hostShiftRate"),
       Idref("parameter", "cophylogeny.lossRate"), Idref("parameter", "cophylogeny.clock.rate")]
  {
    QueuedPriors(hostLabel, symbiontLabel);
    QueuedLog(hostLabel, symbiontLabel);
  }

  lemma {:induction false} QueuedPriors(hostLabel: string, symbiontLabel: string)
    ensures Queued(hostLabel, symbiontLabel).priors ==
      [GammaPrior("cophylogeny.duplicationRate"), GammaPrior("cophylogeny.hostShiftRate"),
       GammaPrior("cophylogeny.lossRate"), UniformPrior("cophylogeny.clock.rate")]
  {
    var m := SimpleCophylogenyModel().delta;
    RateIds();
    assert m.priors == [m.priors[0], m.priors[1], m.priors[2]];
  }

  lemma {:induction false} QueuedLog(hostLabel: string, symbiontLabel: string)
    ensures Queued(hostLabel, symbiontLabel).fileLog ==
      [Idref("parameter", "cophylogeny.duplicationRate"), Idref("parameter", "cophylogeny.hostShiftRate"),
       Idref("parameter", "cophylogeny.lossRate"), Idref("parameter", "cophylogeny.clock.rate")]
  {
    var m := SimpleCophylogenyModel().delta;
    RateIds();
    assert m.fileLog == [m.fileLog[0], m.fileLog[1], m.fileLog[2]];
  }

  lemma {:induction false} RateIds()
    ensures Qualify("cophylogeny", RateNames[0]) == "cophylogeny.duplicationRate"
    ensures Qualify("cophylogeny", RateNames[1]) == "cophylogeny.hostShiftRate"
    ensures Qualify("cophylogeny", RateNames[2]) == "cophylogeny.lossRate"
  {
  }

  /** The reference the script adds to the host's likelihood block. */
  function LikelihoodReference(): Node
  {
    Idref("cophylogenyLikelihood", "cophylogeny.likelihood")
  }

  /**
   * Every `idref` in what the builders produce resolves: to an `id` minted by
   * one of the five model fragments, or to the namespaced tree model of the
   * host or of the symbiont document.
   */
  lemma {:induction false} ReferencesResolve(hostLabel: string, symbiontLabel: string)
    ensures IdrefsOf(Synthesized(hostLabel, symbiontLabel)) <=
            IdsOf(Synthesized(hostLabel, symbiontLabel)) + {TreeModelId(hostLabel), TreeModelId(symbiontLabel)}
    ensures IdrefsOf(Queued(hostLabel, symbiontLabel).All()) + Idrefs(LikelihoodReference()) <=
            IdsOf(Synthesized(hostLabel, symbiontLabel)) + {TreeModelId(hostLabel), TreeModelId(symbiontLabel)}
  {
    SynthesizedIds(hostLabel, symbiontLabel);
    QueuedIdrefs(hostLabel, symbiontLabel);
  }

  /** The references made by everything the builders queue. */
  lemma {:induction false} QueuedIdrefs(hostLabel: string, symbiontLabel: string)
    ensures IdrefsOf(Queued(hostLabel, symbiontLabel).All()) + Idrefs(LikelihoodReference()) ==
      {"cophylogeny.duplicationRate", "cophylogeny.hostShiftRate", "cophylogeny.lossRate", "cophylogeny.clock.rate",
       TreeModelId(hostLabel), TreeModelId(symbiontLabel), "cophylogeny.likelihood",
       NodeRefId(hostLabel), "cophylogeny.branchRates"}
  {
    var q := Queued(hostLabel, symbiontLabel);
    AllRefs(q);
    QueuedOperatorRefs(hostLabel, symbiontLabel);
    QueuedPriorAndLogRefs(hostLabel, symbiontLabel);
    QueuedTraitRefs(hostLabel, symbiontLabel);
    RefsOf1(LikelihoodReference());
    QueuedJoin("cophylogeny.duplicationRate", "cophylogeny.hostShiftRate", "cophylogeny.lossRate", "cophylogeny.clock.rate",
      TreeModelId(hostLabel), TreeModelId(symbiontLabel), "cophylogeny.likelihood", NodeRefId(hostLabel), "cophylogeny.branchRates",
      IdrefsOf(q.operators), IdrefsOf(q.priors), IdrefsOf(q.fileLog), IdrefsOf(q.hostTreeTraits), IdrefsOf(q.symbiontTreeTraits),
      Idrefs(LikelihoodReference()));
  }

  /** How the references of the queued lists add up, for any names. */
  lemma {:induction false} QueuedJoin(r1: string, r2: string, r3: string, r4: string, t1: string, t2: string,
                                      l: string, n: string, br: string,
                                      ops: set<string>, priors: set<string>, log: set<string>,
                                      hostTraits: set<string>, symbiontTraits: set<string>, reference: set<string>)
    requires ops == {r1, r2, r3, r4} + {t1, t2, l} && priors == {r1, r2, r3, r4} && log == {r1, r2, r3, r4}
    requires hostTraits == {n} && symbiontTraits == {br, l} && reference == {l}
    ensures ops + priors + log + hostTraits + symbiontTraits + reference == {r1, r2, r3, r4, t1, t2, l, n, br}
  {
  }

  lemma {:induction false} AllRefs(q: Accumulators)
    ensures IdrefsOf(q.All()) == IdrefsOf(q.operators) + IdrefsOf(q.priors) + IdrefsOf(q.fileLog)
      + IdrefsOf(q.hostTreeTraits) + IdrefsOf(q.symbiontTreeTraits)
  {
    RefsOfAppend(q.operators + q.priors + q.fileLog + q.hostTreeTraits, q.symbiontTreeTraits);
    RefsOfAppend(q.operators + q.priors + q.fileLog, q.hostTreeTraits);
    RefsOfAppend(q.operators + q.priors, q.fileLog);
    RefsOfAppend(q.operators, q.priors);
  }

  lemma {:induction false} SynthesizedIds(hostLabel: string, symbiontLabel: string)
    ensures IdsOf(Synthesized(hostLabel, symbiontLabel)) ==
      {"cophylogeny.model", "cophylogeny.duplicationRate", "cophylogeny.hostShiftRate",
       "cophylogeny.lossRate", "cophylogeny.branchRates", "cophylogeny.clock.rate",
       "cophylogeny.likelihood", "cophylogeny.simulator", NodeRefId(hostLabel)}
    ensures IdrefsOf(Synthesized(hostLabel, symbiontLabel)) ==
      {"cophylogeny.model", "cophylogeny.branchRates", "cophylogeny.likelihood",
       TreeModelId(hostLabel), TreeModelId(symbiontLabel)}
  {
    var a, b := SimpleCophylogenyModel().fragment, StrictClockBranchRates().fragment;
    var c, d, e := CophylogenyLikelihood(hostLabel, symbiontLabel).fragment, CoevolutionSimulator(hostLabel, symbiontLabel),
      NodeRefProvider(hostLabel).fragment;
    SynthesizedUnion(hostLabel, symbiontLabel);
    EarlyFragmentRefs();
    LateFragmentRefs(hostLabel, symbiontLabel);
    UnionSplit(Ids(a), Ids(b), Ids(c), Ids(d), Ids(e));
    UnionSplit(Idrefs(a), Idrefs(b), Idrefs(c), Idrefs(d), Idrefs(e));
    DisplayJoin("cophylogeny.model", "cophylogeny.duplicationRate", "cophylogeny.hostShiftRate",
      "cophylogeny.lossRate", "cophylogeny.branchRates", "cophylogeny.clock.rate",
      "cophylogeny.likelihood", "cophylogeny.simulator", NodeRefId(hostLabel));
    EmptyUnion(Idrefs(c) + Idrefs(d) + Idrefs(e));
  }

  lemma {:induction false} UnionSplit(a: set<string>, b: set<string>, c: set<string>, d: set<string>, e: set<string>)
    ensures a + b + c + d + e == (a + b) + (c + d + e)
  {
  }

  lemma {:induction false} DisplayJoin(x1: string, x2: string, x3: string, x4: string, x5: string, x6: string,
                                       y1: string, y2: string, y3: string)
    ensures {x1, x2, x3, x4, x5, x6} + {y1, y2, y3} == {x1, x2, x3, x4, x5, x6, y1, y2, y3}
  {
  }

  lemma {:induction false} EmptyUnion(s: set<string>)
    ensures {} + s == s
  {
  }

  lemma {:induction false} SynthesizedUnion(hostLabel: string, symbiontLabel: string)
    ensures IdsOf(Synthesized(hostLabel, symbiontLabel)) ==
      Ids(SimpleCophylogenyModel().fragment) + Ids(StrictClockBranchRates().fragment)
      + Ids(CophylogenyLikelihood(hostLabel, symbiontLabel).fragment) + Ids(CoevolutionSimulator(hostLabel, symbiontLabel))
      + Ids(NodeRefProvider(hostLabel).fragment)
    ensures IdrefsOf(Synthesized(hostLabel, symbiontLabel)) ==
      Idrefs(SimpleCophylogenyModel().fragment) + Idrefs(StrictClockBranchRates().fragment)
      + Idrefs(CophylogenyLikelihood(hostLabel, symbiontLabel).fragment) + Idrefs(CoevolutionSimulator(hostLabel, symbiontLabel))
      + Idrefs(NodeRefProvider(hostLabel).fragment)
  {
    var syn := Synthesized(hostLabel, symbiontLabel);
    RefsOf5(syn[0], syn[1], syn[2], syn[3], syn[4]);
  }

  lemma {:induction false} EarlyFragmentRefs()
    ensures Ids(SimpleCophylogenyModel().fragment) + Ids(StrictClockBranchRates().fragment) ==
      {"cophylogeny.model", "cophylogeny.duplicationRate", "cophylogeny.hostShiftRate",
       "cophylogeny.lossRate", "cophylogeny.branchRates", "cophylogeny.clock.rate"}
    ensures Idrefs(SimpleCophylogenyModel().fragment) + Idrefs(StrictClockBranchRates().fragment) == {}
  {
    ModelRefs();
    ClockRefs();
  }

  lemma {:induction false} LateFragmentRefs(hostLabel: string, symbiontLabel: string)
    ensures Ids(CophylogenyLikelihood(hostLabel, symbiontLabel).fragment) + Ids(CoevolutionSimulator(hostLabel, symbiontLabel))
      + Ids(NodeRefProvider(hostLabel).fragment) == {"cophylogeny.likelihood", "cophylogeny.simulator", NodeRefId(hostLabel)}
    ensures Idrefs(CophylogenyLikelihood(hostLabel, symbiontLabel).fragment) + Idrefs(CoevolutionSimulator(hostLabel, symbiontLabel))
      + Idrefs(NodeRefProvider(hostLabel).fragment) ==
      {"cophylogeny.model", "cophylogeny.branchRates", "cophylogeny.likelihood", TreeModelId(hostLabel), TreeModelId(symbiontLabel)}
  {
    LikelihoodRefs(hostLabel, symbiontLabel);
    SimulatorRefs(hostLabel, symbiontLabel);
    NodeRefProviderRefs(hostLabel);
  }

  lemma {:induction false} NestedRefs(nestTag: string, e: Node)
    ensures Ids(Nested(nestTag, e)) == Ids(e) && Idrefs(Nested(nestTag, e)) == Idrefs(e)
  {
    RefsOf1(e);
  }

  lemma {:induction false} ParameterRefs(nestTag: string, id: string)
    ensures Ids(Nested(nestTag, Parameter(id))) == {id} && Idrefs(Nested(nestTag, Parameter(id))) == {}
  {
    NestedRefs(nestTag, Parameter(id));
  }

  lemma {:induction false} NestedIdrefRefs(nestTag: string, tag: string, idref: string)
    ensures Ids(NestedIdref(nestTag, tag, idref)) == {} && Idrefs(NestedIdref(nestTag, tag, idref)) == {idref}
  {
    NestedRefs(nestTag, Idref(tag, idref));
  }

  /** A builder element whose one child is an idref. */
  lemma {:induction false} WrappedIdrefRefs(e: Node, idref: string)
    requires e.Element? && "id" !in e.attrs && "idref" !in e.attrs && |e.children| == 1
    requires e.children[0].Element? && e.children[0].children == [] && e.children[0].attrs == map["idref" := idref]
    ensures Ids(e) == {} && Idrefs(e) == {idref}
  {
    var c := e.children[0];
    assert e.children == [c];
    RefsOf1(c);
    assert "id" !in c.attrs;
  }

  lemma {:induction false} ModelRefs()
    ensures Ids(SimpleCophylogenyModel().fragment) ==
      {"cophylogeny.model", "cophylogeny.duplicationRate", "cophylogeny.hostShiftRate", "cophylogeny.lossRate"}
    ensures Idrefs(SimpleCophylogenyModel().fragment) == {}
  {
    var m := SimpleCophylogenyModel().fragment;
    RateIds();
    RefsOf3(m.children[0], m.children[1], m.children[2]);
    ParameterRefs(RateNames[0], "cophylogeny.duplicationRate");
    ParameterRefs(RateNames[1], "cophylogeny.hostShiftRate");
    ParameterRefs(RateNames[2], "cophylogeny.lossRate");
    assert m.children == [m.children[0], m.children[1], m.children[2]];
  }

  lemma {:induction false} ClockRefs()
    ensures Ids(StrictClockBranchRates().fragment) == {"cophylogeny.branchRates", "cophylogeny.clock.rate"}
    ensures Idrefs(StrictClockBranchRates().fragment) == {}
  {
    ParameterRefs("rate", "cophylogeny.clock.rate");
    RefsOf1(Nested("rate", Parameter("cophylogeny.clock.rate")));
  }

  lemma {:induction false} LikelihoodRefs(hostLabel: string, symbiontLabel: string)
    ensures Ids(CophylogenyLikelihood(hostLabel, symbiontLabel).fragment) == {"cophylogeny.likelihood"}
    ensures Idrefs(CophylogenyLikelihood(hostLabel, symbiontLabel).fragment) ==
      {"cophylogeny.model", TreeModelId(hostLabel), TreeModelId(symbiontLabel), "cophylogeny.branchRates"}
  {
    var model, rates := "cophylogeny.model", "cophylogeny.branchRates";
    var host, symbiont := TreeModelId(hostLabel), TreeModelId(symbiontLabel);
    var c0, c1 := Idref("simpleCophylogenyModel", model), NestedIdref("hostTree", "treeModel", host);
    var c2, c3 := NestedIdref("symbiontTree", "treeModel", symbiont), Idref("strictClockBranchRates", rates);
    var f := CophylogenyLikelihood(hostLabel, symbiontLabel).fragment;
    assert f.children == [c0, c1, c2, c3];
    RefsOf4(c0, c1, c2, c3);
    IdrefRefs("simpleCophylogenyModel", model);
    NestedIdrefRefs("hostTree", "treeModel", host);
    NestedIdrefRefs("symbiontTree", "treeModel", symbiont);
    IdrefRefs("strictClockBranchRates", rates);
    Singletons(model, host, symbiont, rates, Idrefs(c0), Idrefs(c1), Idrefs(c2), Idrefs(c3));
    NoIds(Ids(c0), Ids(c1), Ids(c2), Ids(c3));
    EmptyUnion(IdrefsOf(f.children));
  }

  lemma {:induction false} IdrefRefs(tag: string, idref: string)
    ensures Ids(Idref(tag, idref)) == {} && Idrefs(Idref(tag, idref)) == {idref}
  {
  }

  /** Four empty sets add up to the empty set. */
  lemma {:induction false} NoIds(sa: set<string>, sb: set<string>, sc: set<string>, sd: set<string>)
    requires sa == {} && sb == {} && sc == {} && sd == {}
    ensures sa + sb + sc + sd == {}
  {
  }

  lemma {:induction false} SimulatorRefs(hostLabel: string, symbiontLabel: string)
    ensures Ids(CoevolutionSimulator(hostLabel, symbiontLabel)) == {"cophylogeny.simulator"}
    ensures Idrefs(CoevolutionSimulator(hostLabel, symbiontLabel)) ==
      {TreeModelId(hostLabel), TreeModelId(symbiontLabel), "cophylogeny.likelihood"}
  {
    var cs := CoevolutionSimulator(hostLabel, symbiontLabel).children;
    RefsOf3(cs[0], cs[1], cs[2]);
    NestedIdrefRefs("hostTree", "treeModel", TreeModelId(hostLabel));
    NestedIdrefRefs("symbiontTree", "treeModel", TreeModelId(symbiontLabel));
  }

  lemma {:induction false} HostShiftRefs(hostLabel: string, symbiontLabel: string)
    ensures Ids(HostShiftOperator(hostLabel, symbiontLabel)) == {}
    ensures Idrefs(HostShiftOperator(hostLabel, symbiontLabel)) ==
      {TreeModelId(hostLabel), TreeModelId(symbiontLabel), "cophylogeny.likelihood"}
  {
    var cs := HostShiftOperator(hostLabel, symbiontLabel).children;
    RefsOf3(cs[0], cs[1], cs[2]);
    NestedIdrefRefs("hostTree", "treeModel", TreeModelId(hostLabel));
    NestedIdrefRefs("symbiontTree", "treeModel", TreeModelId(symbiontLabel));
  }

  lemma {:induction false} NodeRefProviderRefs(hostLabel: string)
    ensures Ids(NodeRefProvider(hostLabel).fragment) == {NodeRefId(hostLabel)}
    ensures Idrefs(NodeRefProvider(hostLabel).fragment) == {TreeModelId(hostLabel)}
  {
    RefsOf1(Idref("treeModel", TreeModelId(hostLabel)));
  }

  lemma {:induction false} ScaleOperatorRefs(idref: string, scaleFactor: string, weight: string)
    ensures Ids(ScaleOperator(idref, scaleFactor, weight)) == {}
    ensures Idrefs(ScaleOperator(idref, scaleFactor, weight)) == {idref}
  {
    WrappedIdrefRefs(ScaleOperator(idref, scaleFactor, weight), idref);
  }

  lemma {:induction false} PriorRefs(idref: string)
    ensures Ids(GammaPrior(idref)) == {} && Idrefs(GammaPrior(idref)) == {idref}
    ensures Ids(UniformPrior(idref)) == {} && Idrefs(UniformPrior(idref)) == {idref}
  {
    WrappedIdrefRefs(GammaPrior(idref), idref);
    WrappedIdrefRefs(UniformPrior(idref), idref);
  }

  lemma {:induction false} TreeTraitRefs(name: string, tag: string, idref: string)
    ensures Ids(TreeTrait(name, tag, idref)) == {} && Idrefs(TreeTrait(name, tag, idref)) == {idref}
  {
    WrappedIdrefRefs(TreeTrait(name, tag, idref), idref);
  }

  lemma {:induction false} QueuedOperatorRefs(hostLabel: string, symbiontLabel: string)
    ensures IdrefsOf(Queued(hostLabel, symbiontLabel).operators) ==
      {"cophylogeny.duplicationRate", "cophylogeny.hostShiftRate", "cophylogeny.lossRate", "cophylogeny.clock.rate"}
      + {TreeModelId(hostLabel), TreeModelId(symbiontLabel), "cophylogeny.likelihood"}
  {
    QueuedOperators(hostLabel, symbiontLabel);
    OperatorListRefs(hostLabel, symbiontLabel);
  }

  lemma {:induction false} OperatorListRefs(hostLabel: string, symbiontLabel: string)
    ensures IdrefsOf([ScaleOperator("cophylogeny.duplicationRate", "0.75", "0.1"),
       ScaleOperator("cophylogeny.hostShiftRate", "0.75", "0.1"),
       ScaleOperator("cophylogeny.lossRate", "0.75", "0.1"),
       ScaleOperator("cophylogeny.clock.rate", "0.75", "3"),
       HostShiftOperator(hostLabel, symbiontLabel)]) ==
      {"cophylogeny.duplicationRate", "cophylogeny.hostShiftRate", "cophylogeny.lossRate", "cophylogeny.clock.rate"}
      + {TreeModelId(hostLabel), TreeModelId(symbiontLabel), "cophylogeny.likelihood"}
  {
    var a, b, c, d := "cophylogeny.duplicationRate", "cophylogeny.hostShiftRate", "cophylogeny.lossRate", "cophylogeny.clock.rate";
    var sa, sb, sc, sd := ScaleOperator(a, "0.75", "0.1"), ScaleOperator(b, "0.75", "0.1"),
      ScaleOperator(c, "0.75", "0.1"), ScaleOperator(d, "0.75", "3");
    var h := HostShiftOperator(hostLabel, symbiontLabel);
    RefsOf5(sa, sb, sc, sd, h);
    ScaleOperatorRefs(a, "0.75", "0.1");
    ScaleOperatorRefs(b, "0.75", "0.1");
    ScaleOperatorRefs(c, "0.75", "0.1");
    ScaleOperatorRefs(d, "0.75", "3");
    Singletons(a, b, c, d, Idrefs(sa), Idrefs(sb), Idrefs(sc), Idrefs(sd));
    HostShiftRefs(hostLabel, symbiontLabel);
  }

  /** Four singleton sets add up to the set of their four members. */
  lemma {:induction false} Singletons(a: string, b: string, c: string, d: string,
                                      sa: set<string>, sb: set<string>, sc: set<string>, sd: set<string>)
    requires sa == {a} && sb == {b} && sc == {c} && sd == {d}
    ensures sa + sb + sc + sd == {a, b, c, d}
  {
  }

  lemma {:induction false} QueuedPriorAndLogRefs(hostLabel: string, symbiontLabel: string)
    ensures IdrefsOf(Queued(hostLabel, symbiontLabel).priors) ==
      {"cophylogeny.duplicationRate", "cophylogeny.hostShiftRate", "cophylogeny.lossRate", "cophylogeny.clock.rate"}
    ensures IdrefsOf(Queued(hostLabel, symbiontLabel).fileLog) ==
      {"cophylogeny.duplicationRate", "cophylogeny.hostShiftRate", "cophylogeny.lossRate", "cophylogeny.clock.rate"}
  {
    QueuedPriors(hostLabel, symbiontLabel);
    QueuedLog(hostLabel, symbiontLabel);
    PriorListRefs();
    LogListRefs();
  }

  lemma {:induction false} PriorListRefs()
    ensures IdrefsOf([GammaPrior("cophylogeny.duplicationRate"), GammaPrior("cophylogeny.hostShiftRate"),
                      GammaPrior("cophylogeny.lossRate"), UniformPrior("cophylogeny.clock.rate")]) ==
      {"cophylogeny.duplicationRate", "cophylogeny.hostShiftRate", "cophylogeny.lossRate", "cophylogeny.clock.rate"}
  {
    var a, b, c, d := "cophylogeny.duplicationRate", "cophylogeny.hostShiftRate", "cophylogeny.lossRate", "cophylogeny.clock.rate";
    RefsOf4(GammaPrior(a), GammaPrior(b), GammaPrior(c), UniformPrior(d));
    PriorRefs(a);
    PriorRefs(b);
    PriorRefs(c);
    PriorRefs(d);
    Singletons(a, b, c, d, Idrefs(GammaPrior(a)), Idrefs(GammaPrior(b)), Idrefs(GammaPrior(c)), Idrefs(UniformPrior(d)));
  }

  lemma {:induction false} LogListRefs()
    ensures IdrefsOf([Idref("parameter", "cophylogeny.duplicationRate"), Idref("parameter", "cophylogeny.hostShiftRate"),
                      Idref("parameter", "cophylogeny.lossRate"), Idref("parameter", "cophylogeny.clock.rate")]) ==
      {"cophylogeny.duplicationRate", "cophylogeny.hostShiftRate", "cophylogeny.lossRate", "cophylogeny.clock.rate"}
  {
    var a, b, c, d := "cophylogeny.duplicationRate", "cophylogeny.hostShiftRate", "cophylogeny.lossRate", "cophylogeny.clock.rate";
    RefsOf4(Idref("parameter", a), Idref("parameter", b), Idref("parameter", c), Idref("parameter", d));
    Singletons(a, b, c, d, Idrefs(Idref("parameter", a)), Idrefs(Idref("parameter", b)),
      Idrefs(Idref("parameter", c)), Idrefs(Idref("parameter", d)));
  }

  lemma {:induction false} QueuedTraitRefs(hostLabel: string, symbiontLabel: string)
    ensures IdrefsOf(Queued(hostLabel, symbiontLabel).hostTreeTraits) == {NodeRefId(hostLabel)}
    ensures IdrefsOf(Queued(hostLabel, symbiontLabel).symbiontTreeTraits) == {"cophylogeny.branchRates", "cophylogeny.likelihood"}
  {
    var h := TreeTrait("nodeRef", "nodeRefProvider", NodeRefId(hostLabel));
    var r := TreeTrait("cophylogeny.rate", "strictClockBranchRates", "cophylogeny.branchRates");
    var l := TreeTrait("host.nodeRef", "cophylogenyLikelihood", "cophylogeny.likelihood");
    assert Queued(hostLabel, symbiontLabel).hostTreeTraits == [h];
    assert Queued(hostLabel, symbiontLabel).symbiontTreeTraits == [r, l];
    RefsOf1(h);
    RefsOf2(r, l);
    TreeTraitRefs("nodeRef", "nodeRefProvider", NodeRefId(hostLabel));
    TreeTraitRefs("cophylogeny.rate", "strictClockBranchRates", "cophylogeny.branchRates");
    TreeTraitRefs("host.nodeRef", "cophylogenyLikelihood", "cophylogeny.likelihood");
  }

  lemma {:induction false} RefsOfAppend(a: seq<Node>, b: seq<Node>)
    ensures IdsOf(a + b) == IdsOf(a) + IdsOf(b) && IdrefsOf(a + b) == IdrefsOf(a) + IdrefsOf(b)
  {
    if a == [] {
      assert a + b == b;
    } else {
      assert (a + b)[1..] == a[1..] + b;
      RefsOfAppend(a[1..], b);
    }
  }

  /** The references of a list are those of its first node and of the rest. */
  lemma {:induction false} RefsOfCons(x: Node, rest: seq<Node>)
    ensures IdsOf([x] + rest) == Ids(x) + IdsOf(rest)
    ensures IdrefsOf([x] + rest) == Idrefs(x) + IdrefsOf(rest)
  {
    assert ([x] + rest)[0] == x && ([x] + rest)[1..] == rest;
  }

  lemma {:induction false} RefsOf1(x: Node)
    ensures IdsOf([x]) == Ids(x) && IdrefsOf([x]) == Idrefs(x)
  {
    RefsOfCons(x, []);
    assert [x] + [] == [x];
  }

  lemma {:induction false} RefsOf2(x: Node, y: Node)
    ensures IdsOf([x, y]) == Ids(x) + Ids(y) && IdrefsOf([x, y]) == Idrefs(x) + Idrefs(y)
  {
    RefsOf1(y);
    RefsOfCons(x, [y]);
    assert [x] + [y] == [x, y];
  }

  lemma {:induction false} RefsOf3(x: Node, y: Node, z: Node)
    ensures IdsOf([x, y, z]) == Ids(x) + Ids(y) + Ids(z)
    ensures IdrefsOf([x, y, z]) == Idrefs(x) + Idrefs(y) + Idrefs(z)
  {
    RefsOf2(y, z);
    RefsOfCons(x, [y, z]);
    assert [x] + [y, z] == [x, y, z];
    UnionRegroup3(Ids(x), Ids(y), Ids(z));
    UnionRegroup3(Idrefs(x), Idrefs(y), Idrefs(z));
  }

  lemma {:induction false} RefsOf4(w: Node, x: Node, y: Node, z: Node)
    ensures IdsOf([w, x, y, z]) == Ids(w) + Ids(x) + Ids(y) + Ids(z)
    ensures IdrefsOf([w, x, y, z]) == Idrefs(w) + Idrefs(x) + Idrefs(y) + Idrefs(z)
  {
    RefsOf3(x, y, z);
    RefsOfCons(w, [x, y, z]);
    assert [w] + [x, y, z] == [w, x, y, z];
    UnionRegroup4(Ids(w), Ids(x), Ids(y), Ids(z));
    UnionRegroup4(Idrefs(w), Idrefs(x), Idrefs(y), Idrefs(z));
  }

  lemma {:induction false} RefsOf5(v: Node, w: Node, x: Node, y: Node, z: Node)
    ensures IdsOf([v, w, x, y, z]) == Ids(v) + Ids(w) + Ids(x) + Ids(y) + Ids(z)
    ensures IdrefsOf([v, w, x, y, z]) == Idrefs(v) + Idrefs(w) + Idrefs(x) + Idrefs(y) + Idrefs(z)
  {
    RefsOf4(w, x, y, z);
    RefsOfCons(v, [w, x, y, z]);
    assert [v] + [w, x, y, z] == [v, w, x, y, z];
    UnionRegroup(Ids(v), Ids(w), Ids(x), Ids(y), Ids(z));
    UnionRegroup(Idrefs(v), Idrefs(w), Idrefs(x), Idrefs(y), Idrefs(z));
  }

  lemma {:induction false} UnionRegroup3(a: set<string>, b: set<string>, c: set<string>)
    ensures a + (b + c) == a + b + c
  {
  }

  lemma {:induction false} UnionRegroup4(a: set<string>, b: set<string>, c: set<string>, d: set<string>)
    ensures a + (b + c + d) == a + b + c + d
  {
  }

  lemma {:induction false} UnionRegroup(a: set<string>, b: set<string>, c: set<string>, d: set<string>, e: set<string>)
    ensures a + (b + c + d + e) == a + b + c + d + e
  {
  }
}

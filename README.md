# BECKY cophylogeny core, modelled in Dafny

BECKY (Bayesian Estimation of Cophylogenies) extends BEAST with a model of
symbionts evolving along a host phylogeny. This project models its core in
Dafny and proves properties of it.

- **The analysis setup script.** `tools/SetupCophylogenyAnalysis.py` merges a
  host BEAST document and a symbiont BEAST document into one coevolution
  analysis. It puts each document's identifiers in the namespace of its
  taxon, records each symbiont's host from the association file, moves the
  symbiont's operators, priors, likelihoods, logs and model elements into the
  host document, and inserts the synthesized cophylogeny model. It then
  flushes the queued operators, priors, log entries and tree traits between
  marker comments. The model works on XML element trees as values
  (`xml.dfy`, `edits.dfy`, `anchors.dfy`). On top of those sit the
  associations, the namespacing, the fragment builders and the merge.
- **The likelihood state.** `CophylogenyLikelihood` keeps the host of every
  symbiont node, a cached likelihood and the store/restore protocol.
  `CophylogenyModel` classifies how two host nodes are related.
  `SimpleCophylogenyModel` holds the rates, the enumeration of extinct-lineage
  configurations, the closed form of the lineage-loss sum, and the case split
  that reconstructs a node's events.
- **The operators.** The two `HostShiftOperator`s move a symbiont node to the
  first admissible host in a shuffled pool. `TransmissionTreeOperator` wraps a
  tree move and repaints the transmission tree's branch map.
- **The tools.** `TreeAnnotatorInitializer` (both copies) renumbers host nodes
  by clade. `Coevaluate` scores a simulated reconstruction against the real
  one. `SimpleHypotheticalTree` prunes unobserved lineages.
  `JPrIMERBTreeWrapperForBEASTTree` presents a BEAST tree as a JPrIME rooted
  bifurcating tree.
- **The simulator command line.** `BeagleSequenceSimulatorConsoleApp` splits
  its arguments into partitions, reads the output file, seed and parallel
  flag, and scatters each model's parameter values.

Code that updates state in place is modelled as classes with `modifies`
clauses and as methods with loops. Each such method is proved against a
specification function. The pure parts are modelled as functions and lemmas.
Trees are parent arrays, with -1 (`NULL`) for "no node". Random draws (the
chosen node, the shuffled pool) and values computed in floating point are
parameters.

A symbiont taxon's host attribute holds the raw value from the association
file (tools/SetupCophylogenyAnalysis.py:250). `taxon` is among the tags the
namespacing pass exempts (line 233), so the value is not prefixed with the
host label.

## Model

| member | source | states |
|---|---|---|
| `Xml.Find` | tools/SetupCophylogenyAnalysis.py:253-254 | `find(tag)` gives the index of the first child element with that tag, or none when no child carries it |
| `Xml.FindFirst` | tools/SetupCophylogenyAnalysis.py:253 | a child carrying the tag with no earlier child carrying it is the one `find` returns |
| `Xml.FindAll` | tools/SetupCophylogenyAnalysis.py:258 | `findall(tag)` gives exactly the indices of the children carrying the tag, in document order |
| `Xml.ElementsMembers` | tools/SetupCophylogenyAnalysis.py:272 | `iterfind('*')` yields only element children of the list, and every child when there is no comment |
| `Xml.ElementsLength` | tools/SetupCophylogenyAnalysis.py:292-294 | filtering never lengthens a list, and it keeps every node exactly when there is no comment |
| `Xml.ElementsStep` | tools/SetupCophylogenyAnalysis.py:292-294 | counting one more node counts one more element exactly when that node is an element |
| `Xml.Without` | tools/SetupCophylogenyAnalysis.py:267 | `remove` keeps every other child and adds none, so the list never grows |
| `Xml.ElementsWithout` | tools/SetupCophylogenyAnalysis.py:267-289 | removing element children removes exactly that many elements |
| `Xml.AppendChildren` | tools/SetupCophylogenyAnalysis.py:273 | `append` keeps tag, attributes and old children, and adds the new ones after them |
| `Xml.SetAttr` | tools/SetupCophylogenyAnalysis.py:255 | `set(key, value)` changes that attribute only; the tag and the children stay |
| `Edits.ReplaceAt` | tools/SetupCophylogenyAnalysis.py:272-289 | an edit through a reference deep in the tree puts the new node at its path and keeps the tree's shape above it |
| `Edits.AppendAt` | tools/SetupCophylogenyAnalysis.py:273 | appending through a reference extends exactly that container's children |
| `Edits.SetAttrAt` | tools/SetupCophylogenyAnalysis.py:255 | setting an attribute through a reference changes exactly that container's attributes |
| `Edits.InsertChild` | tools/SetupCophylogenyAnalysis.py:297 | `insert(i, c)` makes `c` child `i` and moves the later children up by one |
| `Edits.AtReplaceDisjoint` | tools/SetupCophylogenyAnalysis.py:272-289 | a replacement leaves every node off its path where it was |
| `Edits.AtReplaceBelow` | tools/SetupCophylogenyAnalysis.py:272-289 | a replacement that keeps the old children as a prefix leaves every existing node below it in place |
| `Edits.AtReplaceAbove` | tools/SetupCophylogenyAnalysis.py:272-289 | a replacement keeps the tag, attributes and child count of every node above it |
| `Edits.AppendAtFrame` | tools/SetupCophylogenyAnalysis.py:273-288 | appending at one path leaves every other existing node alone |
| `Edits.SetAttrAtFrame` | tools/SetupCophylogenyAnalysis.py:255 | setting an attribute at one path leaves every other node alone |
| `Edits.AtInserted` | tools/SetupCophylogenyAnalysis.py:296-312 | inserting root children leaves every node below the top level where it was, up to the shift |
| `Anchors.Leaves` | tools/SetupCophylogenyAnalysis.py:252-259 | four containers (operators, prior, likelihood, log) plus one per tree log of either side |
| `Anchors.TaggedChild` | tools/SetupCophylogenyAnalysis.py:253-254 | a child found by tag is reached by its one-step path |
| `Anchors.TaggedGrandchild` | tools/SetupCophylogenyAnalysis.py:256-258 | a grandchild found by tag is reached by its two-step path |
| `Anchors.TaggedGreatGrandchild` | tools/SetupCophylogenyAnalysis.py:256-257 | the `prior` and `likelihood` found under `posterior` are reached by their three-step paths |
| `Anchors.RootChildren` | tools/SetupCophylogenyAnalysis.py:253-254 | the references start from the root's `operators` and `mcmc` children |
| `Anchors.OtherChildUntouched` | tools/SetupCophylogenyAnalysis.py:296-312 | a root child that is neither `operators` nor `mcmc` lies off every referenced container |
| `Anchors.LeavesDisjoint` | tools/SetupCophylogenyAnalysis.py:252-259 | two different referenced containers lead through different nodes |
| `Anchors.ReplaceLeaf` | tools/SetupCophylogenyAnalysis.py:273-288 | changing one container keeps every reference valid and every other container and untouched node as it was |
| `Anchors.ReplaceMcmc` | tools/SetupCophylogenyAnalysis.py:255 | changing `mcmc` while keeping its children as a prefix keeps every reference and container |
| `Anchors.Contents` | tools/SetupCophylogenyAnalysis.py:252-259 | the references lead to the containers, in reference order |
| `Anchors.AppendLeaf` | tools/SetupCophylogenyAnalysis.py:273-284 | appending to one container extends exactly that container, and nothing else reachable changes |
| `Anchors.SetMcmcAttr` | tools/SetupCophylogenyAnalysis.py:255 | `host_mcmc.set` changes only the `mcmc` attributes |
| `Anchors.SetLeafAttr` | tools/SetupCophylogenyAnalysis.py:324 | `host_log.set` changes only that container's attributes |
| `Anchors.TreeLogsIn` | tools/SetupCophylogenyAnalysis.py:259 | as many nodes as `findall(logTree)` finds, each a `logTree` element of the list |
| `Anchors.AdoptSymbiontLogs` | tools/SetupCophylogenyAnalysis.py:287-288 | moving the symbiont `mcmc` children into the host `mcmc` keeps every reference, and the moved tree logs become referenced too |
| `Anchors.AdoptedContents` | tools/SetupCophylogenyAnalysis.py:287-288 | after the move the containers are the old ones followed by the moved tree logs |
| `Anchors.AnchoredExtended` | tools/SetupCophylogenyAnalysis.py:287-288 | further tree logs after the old `mcmc` children extend the anchored references |
| `Anchors.ExtendedLeaves` | tools/SetupCophylogenyAnalysis.py:287-288 | referencing more tree logs keeps the containers referenced so far |
| `Anchors.IndicesBelow` | tools/SetupCophylogenyAnalysis.py:256-259 | every index the references use into `mcmc` is below its child count |
| `Anchors.InsertIntoRoot` | tools/SetupCophylogenyAnalysis.py:296-312 | inserting root children moves every container with the shift and leaves it unchanged |
| `Anchors.InsertedAnchored` | tools/SetupCophylogenyAnalysis.py:296-312 | the shifted references still lead to the same containers |
| `Anchors.ShiftedLeaves` | tools/SetupCophylogenyAnalysis.py:296-312 | every referenced container moves with the shift of its first step |
| `Anchors.InsertedUntouched` | tools/SetupCophylogenyAnalysis.py:296-312 | a path off the containers before the insertion is off them, once shifted, after it |
| `Associations.Split` | tools/SetupCophylogenyAnalysis.py:105 | `split` gives one more piece than there are separators, and no piece holds a separator |
| `Associations.JoinSplit` | tools/SetupCophylogenyAnalysis.py:105 | joining the pieces with the separator gives the string back |
| `Associations.SplitJoin` | tools/SetupCophylogenyAnalysis.py:105 | pieces without separators come back unchanged from a join and a split |
| `Associations.SplitCount` | tools/SetupCophylogenyAnalysis.py:105 | there is one piece more than there are separators |
| `Associations.ParseLine` | tools/SetupCophylogenyAnalysis.py:104-105 | a parsed line gives two fields without a tab; a line that does not split into two fails, naming the line |
| `Associations.ParseLineAccepts` | tools/SetupCophylogenyAnalysis.py:105 | a line parses exactly when, without its last character, it holds exactly one tab |
| `Associations.ParseLineRoundTrip` | tools/SetupCophylogenyAnalysis.py:105 | a written association line parses back to the association |
| `Associations.ParseLineInverse` | tools/SetupCophylogenyAnalysis.py:105 | a line that parses is its two fields joined by a tab, then the character cut off |
| `Associations.ParseAssociations` | tools/SetupCophylogenyAnalysis.py:102-107 | the table is built line by line and fails on the first malformed line |
| `Associations.TableFailureSticks` | tools/SetupCophylogenyAnalysis.py:104-106 | once a prefix of the lines fails, the whole table fails the same way |
| `Associations.TableFails` | tools/SetupCophylogenyAnalysis.py:104-106 | the table fails exactly when some line is malformed, and then with the first such line |
| `Associations.TableLookup` | tools/SetupCophylogenyAnalysis.py:106 | the table holds a symbiont exactly when some line names it, and maps it to the host on the last such line |
| `Associations.Associate` | tools/SetupCophylogenyAnalysis.py:248-250 | every `taxon` under the first `taxa` gains one last child naming its host; a taxon missing from the table fails |
| `Namespacer.Qualify` | tools/SetupCophylogenyAnalysis.py:236 | the qualified name is the prefix, a dot, then the name |
| `Namespacer.Rename` | tools/SetupCophylogenyAnalysis.py:233-238 | renaming touches only `id` and `idref`: tag, children, attribute names and every other attribute stay, and a comment is unchanged |
| `Namespacer.AppendIdPrefix` | tools/SetupCophylogenyAnalysis.py:231-238 | the pass keeps every element an element with as many children, and brings in no comment |
| `Namespacer.RenameAtEveryPath` | tools/SetupCophylogenyAnalysis.py:232 | a path exists after the pass exactly when it did before, and leads to the renamed node |
| `Namespacer.PrefixedIdentifiers` | tools/SetupCophylogenyAnalysis.py:231-238 | after the pass an exempt tag's `id` or `idref` is unchanged, every other `id` carries the prefix, an `idref` without an `id` carries it too, and an `idref` beside an `id` is untouched |
| `Namespacer.PrefixTwice` | tools/SetupCophylogenyAnalysis.py:231-238 | the pass is not idempotent: a second run prefixes again |
| `Fragments.SimpleCophylogenyModel` | tools/SetupCophylogenyAnalysis.py:158-172 | one rate parameter per event type, in the order duplication, host shift, loss, each with its operator, prior and log entry queued |
| `Fragments.QueuedEntries` | tools/SetupCophylogenyAnalysis.py:158-229 | the builders queue the rate operators, the clock's, then the host-shift operator; gamma priors for the rates and a uniform prior for the clock; the log entries; and the tree traits |
| `Fragments.QueuedOperators` | tools/SetupCophylogenyAnalysis.py:169-226 | the queued operators, with their scale factors and weights |
| `Fragments.QueuedPriors` | tools/SetupCophylogenyAnalysis.py:170-183 | the queued priors |
| `Fragments.QueuedLog` | tools/SetupCophylogenyAnalysis.py:171-184 | the queued file-log entries |
| `Fragments.RateIds` | tools/SetupCophylogenyAnalysis.py:162-163 | the three rate parameter ids |
| `Fragments.SynthesizedIds` | tools/SetupCophylogenyAnalysis.py:158-229 | the ids the five model fragments mint |
| `Fragments.ReferencesResolve` | tools/SetupCophylogenyAnalysis.py:109-229 | every `idref` the builders produce resolves to an id a model fragment mints, or to one of the two tree models |
| `Fragments.QueuedIdrefs` | tools/SetupCophylogenyAnalysis.py:169-228 | the references made by everything the builders queue |
| `Fragments.WrappedIdrefRefs` | tools/SetupCophylogenyAnalysis.py:117-118 | a builder element whose only child is an idref references exactly that id and mints none |
| `Fragments.ModelRefs` | tools/SetupCophylogenyAnalysis.py:158-172 | the model fragment mints the model id and the three rate ids and references nothing |
| `Fragments.ClockRefs` | tools/SetupCophylogenyAnalysis.py:174-189 | the clock fragment mints the branch-rates id and the clock-rate id and references nothing |
| `Fragments.LikelihoodRefs` | tools/SetupCophylogenyAnalysis.py:211-229 | the likelihood fragment mints its id and references the model, both tree models and the branch rates |
| `Fragments.SimulatorRefs` | tools/SetupCophylogenyAnalysis.py:191-202 | the simulator mints its id and references both tree models and the likelihood |
| `Fragments.HostShiftRefs` | tools/SetupCophylogenyAnalysis.py:147-156 | the host-shift operator references both tree models and the likelihood |
| `Fragments.NodeRefProviderRefs` | tools/SetupCophylogenyAnalysis.py:204-209 | the node-ref provider mints its id and references the host tree model |
| `Fragments.ScaleOperatorRefs` | tools/SetupCophylogenyAnalysis.py:130-134 | a scale operator references exactly its parameter |
| `Fragments.PriorRefs` | tools/SetupCophylogenyAnalysis.py:136-145 | a gamma or uniform prior references exactly its parameter |
| `Fragments.TreeTraitRefs` | tools/SetupCophylogenyAnalysis.py:125-128 | a tree trait references exactly its provider |
| `Merge.Locate` | tools/SetupCophylogenyAnalysis.py:253-257 | `find(tag)`, failing as the script does when the container is missing |
| `Merge.LocateHost` | tools/SetupCophylogenyAnalysis.py:252-259 | the host references: `operators`, `mcmc`, the `prior` and `likelihood` of its `posterior`, its second `log`, its tree logs; all host lookups fail before any symbiont lookup |
| `Merge.HostAnchored` | tools/SetupCophylogenyAnalysis.py:252-259 | the containers found by tag are anchored by the references to them |
| `Merge.LocateSymbiont` | tools/SetupCophylogenyAnalysis.py:261-268 | the symbiont lookups fail on the first missing container, in the order the script touches them |
| `Merge.PartsOf` | tools/SetupCophylogenyAnalysis.py:270-289 | every piece that moves is an element of the symbiont root or of its `mcmc` |
| `Merge.PartsSizes` | tools/SetupCophylogenyAnalysis.py:266-289 | exactly three elements leave the symbiont root and exactly four leave its `mcmc` |
| `Merge.Dismantle` | tools/SetupCophylogenyAnalysis.py:261-289 | dismantling succeeds exactly when the symbiont containers are found, and otherwise fails with that lookup's error |
| `Merge.Detach` | tools/SetupCophylogenyAnalysis.py:267-289 | the element keeps its tag and attributes and loses exactly the moved children |
| `Merge.AppendEach` | tools/SetupCophylogenyAnalysis.py:272-273 | appending each element in turn extends the container's children by the list |
| `Merge.AppendToLeaf` | tools/SetupCophylogenyAnalysis.py:273-284 | appending to a referenced container changes exactly that container |
| `Merge.SetLeafAttribute` | tools/SetupCophylogenyAnalysis.py:324 | setting an attribute of a referenced container changes exactly its attributes |
| `Merge.Received` | tools/SetupCophylogenyAnalysis.py:272-288 | the host containers plus one per moved symbiont tree log, all elements |
| `Merge.Receive` | tools/SetupCophylogenyAnalysis.py:255-288 | `mcmc` is marked for the operator analysis and the four host containers gain the symbiont's pieces |
| `Merge.Transplant` | tools/SetupCophylogenyAnalysis.py:255-289 | the transplant, with every reference still valid afterwards |
| `Merge.TransplantKeepsRoot` | tools/SetupCophylogenyAnalysis.py:252-289 | after the transplant the root's first `operators` is where it was |
| `Merge.InsertEach` | tools/SetupCophylogenyAnalysis.py:296-298 | inserting elements one at a time at a rising index puts the list, in order, at the start index |
| `Merge.ElementsBefore` | tools/SetupCophylogenyAnalysis.py:291-294 | the count never exceeds the number of children (`InsertIndexExact` ties it to `find(operators)`) |
| `Merge.InsertIndex` | tools/SetupCophylogenyAnalysis.py:291-294 | the counting loop returns that number |
| `Merge.InsertIndexExact` | tools/SetupCophylogenyAnalysis.py:291-294 | on a root without comments the count is exactly the position of the first `operators` |
| `Merge.ModelBlock` | tools/SetupCophylogenyAnalysis.py:296-312 | the rest of the symbiont root, then the Begin marker, the synthesized fragments, and the End marker last: seven more nodes |
| `Merge.InsertModel` | tools/SetupCophylogenyAnalysis.py:291-312 | the block lands at the counted index, and the children before and after it are kept |
| `Merge.Place` | tools/SetupCophylogenyAnalysis.py:291-312 | on a root without comments the block goes right before the host `operators` |
| `Merge.Flushed` | tools/SetupCophylogenyAnalysis.py:314-343 | one flushed container for each container, under the intended flush that gives every tree log the traits |
| `Merge.FlushedChildren` | tools/SetupCophylogenyAnalysis.py:314-343 | each flushed container is its old self followed by its entries between the markers |
| `Merge.FlushedShape` | tools/SetupCophylogenyAnalysis.py:314-333 | flushing keeps every container's tag and old children and renames only the log |
| `Merge.FlushedTraits` | tools/SetupCophylogenyAnalysis.py:335-343 | every tree log of a side, not just the last, holds each trait of that side |
| `Merge.FlushedTreeLogs` | tools/SetupCophylogenyAnalysis.py:335-343 | under the intended flush, each side's tree logs all receive that side's traits between the markers |
| `Merge.FlushTreeLogs` | tools/SetupCophylogenyAnalysis.py:335-343 | the intended tree-log loop over a run of logs, each gaining the markers and the traits |
| `Merge.FlushContainers` | tools/SetupCophylogenyAnalysis.py:314-333 | the operators, priors, log and likelihood part of the flush |
| `Merge.Flush` | tools/SetupCophylogenyAnalysis.py:314-343 | the flush in the script's order, with the intended tree-log loop, yields `Flushed`, and nothing off the containers changes |
| `Merge.FlushShifted` | tools/SetupCophylogenyAnalysis.py:296-343 | the flush on a host into whose root the model block was inserted |
| `Merge.BlockKept` | tools/SetupCophylogenyAnalysis.py:296-343 | root children off the references survive the flush, so the model block stays put |
| `Merge.ShiftedFrame` | tools/SetupCophylogenyAnalysis.py:296-343 | a node off the references before the insertion is, after the flush, where the shift puts it |
| `Merge.Complete` | tools/SetupCophylogenyAnalysis.py:291-343 | the model block lands right before the host `operators` and the containers are flushed |
| `Merge.Assemble` | tools/SetupCophylogenyAnalysis.py:255-343 | the script body from the transplant on, on a host root without comments, with the intended flush; the moved `mcmc` children that are not tree logs sit unchanged after the old ones |
| `Merge.MergedFrom` | tools/SetupCophylogenyAnalysis.py:252-343 | the transplant followed by the insertion and the flush is the merge, including the moved `mcmc` children that are not tree logs |
| `Merge.RestKept` | tools/SetupCophylogenyAnalysis.py:287-289 | each symbiont `mcmc` child appended to the host `mcmc` that is not a tree log is, after the insertion and the flush, that same element at its position after the old children |
| `Merge.RestUntouched` | tools/SetupCophylogenyAnalysis.py:287-289 | such an appended child lies off every container the script later appends to |
| `Merge.Merge` | tools/SetupCophylogenyAnalysis.py:240-343 | the whole script on parsed documents and the association lines, failing where the script would raise, with the intended flush; on success the result is `Merged`, which places every moved piece |
| `Merge.TreeLogsAsWritten` | tools/SetupCophylogenyAnalysis.py:335-343 | the tree-log loop as written: `extend` moves the same trait elements from log to log |
| `Merge.FirstTreeLogLosesTraits` | tools/SetupCophylogenyAnalysis.py:335-343 | as written, the first of two or more tree logs ends up without the traits `Flushed` gives it |
| `Trees.UpAbove` | src/org/ithinktree/becky/CophylogenyModel.java:112-125 | any node reached by walking up at least one step is a proper ancestor, at that distance |
| `Trees.NotAboveAfterWalk` | src/org/ithinktree/becky/CophylogenyModel.java:112-125 | a walk that reaches NULL without meeting a node shows that node is not a proper ancestor |
| `Relationships.DetermineRelationship` | src/org/ithinktree/becky/CophylogenyModel.java:98-130 | the parent-chain walks classify a pair as `Relation` says: null or unrelated is a cousin, then self, sister, descendant, ancestor |
| `Relationships.ReciprocalInvolution` | src/org/ithinktree/becky/CophylogenyModel.java:81-88 | taking the reciprocal twice gives back the relationship |
| `Relationships.RelationSymmetric` | src/org/ithinktree/becky/CophylogenyModel.java:98-130 | asking from the other node gives the reciprocal answer, for every pair of nodes |
| `Relationships.RelationWalk` | src/org/ithinktree/becky/CophylogenyModel.java:112-125 | a descendant or ancestor answer names a node exactly `generations + 1` parent steps away |
| `Likelihood.Encode` | src/org/ithinktree/becky/CophylogenyLikelihood.java:237-245 | a host reference is stored as its number, and null as NO_HOST |
| `Likelihood.Decode` | src/org/ithinktree/becky/CophylogenyLikelihood.java:228-235 | NO_HOST reads back as null, any other entry as that host node |
| `Likelihood.EncodeDecode` | src/org/ithinktree/becky/CophylogenyLikelihood.java:228-245 | writing a reference and reading it back gives the same reference, and conversely |
| `Likelihood.CophylogenyLikelihood.constructor` | src/org/ithinktree/becky/CophylogenyLikelihood.java:55-104 | both state arrays have one zero-filled slot per symbiont node and nothing is cached yet |
| `Likelihood.CophylogenyLikelihood.GetStatesForNode` | src/org/ithinktree/becky/CophylogenyLikelihood.java:228-235 | the host of a symbiont node, or null for NO_HOST |
| `Likelihood.CophylogenyLikelihood.SetStatesForNode` | src/org/ithinktree/becky/CophylogenyLikelihood.java:237-245 | one slot changes to the host's encoding and the cached likelihood is forgotten |
| `Likelihood.CophylogenyLikelihood.GetLogLikelihood` | src/org/ithinktree/becky/CophylogenyLikelihood.java:116-122 | the cached value when known; otherwise the computed value, which becomes the cache |
| `Likelihood.CophylogenyLikelihood.MakeDirty` | src/org/ithinktree/becky/CophylogenyLikelihood.java:167-170 | the cached likelihood is forgotten and the states stay |
| `Likelihood.CophylogenyLikelihood.HandleModelChangedEvent` | src/org/ithinktree/becky/CophylogenyLikelihood.java:173-176 | a model change forgets the cached likelihood |
| `Likelihood.CophylogenyLikelihood.StoreState` | src/org/ithinktree/becky/CophylogenyLikelihood.java:185-192 | the states and the cache are copied into the stored fields |
| `Likelihood.CophylogenyLikelihood.RestoreState` | src/org/ithinktree/becky/CophylogenyLikelihood.java:195-202 | the stored fields are copied back |
| `Likelihood.StoreEditRestore` | src/org/ithinktree/becky/CophylogenyLikelihood.java:185-202 | store, change a slot, restore gives back the states and the cache as they were |
| `Likelihood.FormatTrait` | src/org/ithinktree/becky/CophylogenyLikelihood.java:258-263 | "-1" for a null host, the host's decimal number otherwise |
| `Likelihood.FormatTraitParses` | src/org/ithinktree/becky/CophylogenyLikelihood.java:258-263 | parsing a formatted trait gives back the state-array entry of that host |
| `SimpleModel.RateBounds` | src/org/ithinktree/becky/SimpleCophylogenyModel.java:47-55 | every rate parameter is bounded from 0.0 to +infinity, in one dimension |
| `SimpleModel.SimpleCophylogenyModel.constructor` | src/org/ithinktree/becky/SimpleCophylogenyModel.java:41-57 | the three rate parameters are bounded to [0, +infinity) and the caches are stale |
| `SimpleModel.SimpleCophylogenyModel.SetUnits` | src/org/ithinktree/becky/CophylogenyModel.java:42-48 | `setUnits` changes the units and nothing else, and `getUnits` reads them back |
| `SimpleModel.SimpleCophylogenyModel.EventRate` | src/org/ithinktree/becky/SimpleCophylogenyModel.java:77-85 | the no-event rate is 1.0 (the other rates are tied to the parameters by `UpdateVariables`) |
| `SimpleModel.SimpleCophylogenyModel.UpdateVariables` | src/org/ithinktree/becky/SimpleCophylogenyModel.java:59-65 | the caches take the parameter values, the overall rate is their sum, and the caches are fresh |
| `SimpleModel.SimpleCophylogenyModel.Initialize` | src/org/ithinktree/becky/SimpleCophylogenyModel.java:510-514 | one event row per symbiont node: no event for each external node, unset for internal ones; the rates, the parameters, the bounds and the dirty flag stay |
| `SimpleModel.SimpleCophylogenyModel.ReconstructNode` | src/org/ithinktree/becky/SimpleCophylogenyModel.java:270-479 | for a node whose host is a host node, with `hostChild` a child of that host or NULL at a host leaf: the events are recorded as the case split decides; a node that cannot be explained fails and records nothing; stale rates are first refreshed from the parameters (fresh ones stay), and the parameters and bounds stay |
| `SimpleModel.ReconstructionDefined` | src/org/ithinktree/becky/SimpleCophylogenyModel.java:290-462 | a node can be explained exactly when it coexists with its host and the children's hosts are admissibly related |
| `SimpleModel.ReconstructionHostShift` | src/org/ithinktree/becky/SimpleCophylogenyModel.java:290-462 | a host shift is recorded exactly when a child's host is a sister or cousin of the node's host |
| `SimpleModel.ReconstructionCospeciation` | src/org/ithinktree/becky/SimpleCophylogenyModel.java:290-462 | both children on the node's host record a duplication; both on descendants record two events exactly when the sides match or are a sister and a cousin, and no event otherwise |
| `SimpleModel.ReconstructionSymmetric` | src/org/ithinktree/becky/SimpleCophylogenyModel.java:290-462 | swapping the two children does not change whether a node can be explained |
| `Extinction.OverallLikelihood` | src/org/ithinktree/becky/SimpleCophylogenyModel.java:169-174 | the product of the no-event factors and the loss factors |
| `Extinction.CreateCombination` | src/org/ithinktree/becky/SimpleCophylogenyModel.java:176-187 | the combination holds one more no-event factor than both parts together, and as many loss factors as both |
| `Extinction.CombinationFactors` | src/org/ithinktree/becky/SimpleCophylogenyModel.java:176-187 | a combination multiplies exactly both parts' factors and the parent's no-event factor |
| `Extinction.SingleOverall` | src/org/ithinktree/becky/SimpleCophylogenyModel.java:165-174 | a configuration where only the lineage itself is lost is as likely as that loss |
| `Extinction.Permutations` | src/org/ithinktree/becky/SimpleCophylogenyModel.java:130-153 | every lineage has at least one configuration |
| `Extinction.PermutationsFork` | src/org/ithinktree/becky/SimpleCophylogenyModel.java:138-152 | an inner node's configurations are its children's combinations, then its own loss |
| `Extinction.PermutationsSize` | src/org/ithinktree/becky/SimpleCophylogenyModel.java:135-141 | a leaf has one configuration; an inner node one per pair of its children's configurations, plus one |
| `Extinction.PermutationsOrder` | src/org/ithinktree/becky/SimpleCophylogenyModel.java:145-148 | the combinations come child-1 major: position `x * n2 + y` pairs child 1's `x` with child 2's `y` |
| `Extinction.Combos` | src/org/ithinktree/becky/SimpleCophylogenyModel.java:145-148 | one combination for every pair of a child-1 and a child-2 configuration |
| `Extinction.CombosIndex` | src/org/ithinktree/becky/SimpleCophylogenyModel.java:145-148 | position `x * n2 + y` holds the combination of `x` and `y` |
| `Extinction.FillRow` | src/org/ithinktree/becky/SimpleCophylogenyModel.java:146-147 | the inner loop writes one child-1 configuration combined with each child-2 one, in turn |
| `Extinction.Combine` | src/org/ithinktree/becky/SimpleCophylogenyModel.java:141-150 | the nested loops fill the array with the combinations and then the lineage's own loss |
| `Extinction.PermuteExtinctLineageLikelihoods` | src/org/ithinktree/becky/SimpleCophylogenyModel.java:130-153 | the method returns exactly `Permutations` of the lineage |
| `Extinction.LikelihoodLineageLoss` | src/org/ithinktree/becky/SimpleCophylogenyModel.java:119-128 | the sum over the configurations, leaving out the last one when the root is excluded |
| `Extinction.LineageLossRoot` | src/org/ithinktree/becky/SimpleCophylogenyModel.java:119-128 | including the root adds exactly the lineage's own loss |
| `Extinction.LineageLossExcluded` | src/org/ithinktree/becky/SimpleCophylogenyModel.java:119-128 | with the root excluded, a leaf sums nothing and an inner node sums exactly its children's combinations |
| `LineageLoss.CombinationOverall` | src/org/ithinktree/becky/SimpleCophylogenyModel.java:169-187 | a combination is as likely as both configurations and the parent's no-event factor together |
| `LineageLoss.RowTotal` | src/org/ithinktree/becky/SimpleCophylogenyModel.java:146-147 | a row totals the child-1 likelihood times the child-2 total and the no-event factor |
| `LineageLoss.CombosTotal` | src/org/ithinktree/becky/SimpleCophylogenyModel.java:145-148 | the combinations total the child-1 total times the child-2 total times the no-event factor |
| `LineageLoss.ForkTotal` | src/org/ithinktree/becky/SimpleCophylogenyModel.java:141-152 | an inner node's configurations total its children's totals times the no-event factor, plus its own loss |
| `LineageLoss.LineageLossClosedForm` | src/org/ithinktree/becky/SimpleCophylogenyModel.java:130-153 | the sum over every configuration of a lineage equals a closed form over the lineage tree |
| `LineageLoss.LineageLossValues` | src/org/ithinktree/becky/SimpleCophylogenyModel.java:119-128 | `likelihoodLineageLoss` is the closed form, minus the lineage's own loss when the root is excluded |
| `HostShift.Pool` | src/org/ithinktree/becky/HostShiftOperator.java:38-49 | the pool is -1 (NO_HOST) then 0..n-1 when NO_HOST is sampled, and 0..n-1 otherwise |
| `HostShift.PoolCandidates` | src/org/ithinktree/becky/HostShiftOperator.java:38-49 | every rearrangement of the pool holds only host nodes and NO_HOST |
| `HostShift.Shuffle` | src/org/ithinktree/becky/HostShiftOperator.java:70 | the pool takes the drawn order, which holds the same candidates |
| `HostShift.SameCandidates` | src/org/ithinktree/becky/HostShiftOperator.java:70 | a rearrangement of a pool holds the same candidates |
| `HostShift.FirstAdmissible` | src/org/ithinktree/becky/HostShiftOperator.java:72-81 | the first admissible candidate in pool order, if any |
| `HostShift.Scan` | src/org/ithinktree/becky/HostShiftOperator.java:71-81 | the do-while stops at the first admissible candidate; otherwise it stops at the end of the pool and no candidate is admissible |
| `HostShift.NoHostAlwaysAdmissible` | src/dr/cophylogeny/HostShiftOperator.java:67-81 | NO_HOST relates to nothing, so a pool holding it always offers an admissible host |
| `HostShift.Propose` | src/org/ithinktree/becky/HostShiftOperator.java:63-91 | the node moves to the first admissible candidate; with none, its host stays; the stored states, the stored likelihood and the cached log likelihood stay |
| `HostShift.HostShiftOperator.constructor` | src/org/ithinktree/becky/HostShiftOperator.java:33-50 | the pool is every host node, plus NO_HOST when `sampleNoHost` holds |
| `HostShift.HostShiftOperator.DoOperation` | src/org/ithinktree/becky/HostShiftOperator.java:63-91 | only the drawn node's slot may change, to `Propose`'s host, and the ratio is 0; the likelihood's stored state and cached value stay, so a rejected move can be restored |
| `HostShift.CophylogenyHostShiftOperator.constructor` | src/dr/cophylogeny/HostShiftOperator.java:32-45 | the pool is NO_HOST and every host node |
| `HostShift.CophylogenyHostShiftOperator.DoOperation` | src/dr/cophylogeny/HostShiftOperator.java:58-86 | as the other operator, and some candidate is always admissible, so the node always moves; the likelihood's stored state and cached value stay |
| `Clades.CladeNonEmpty` | src/org/ithinktree/becky/TreeAnnotatorInitializer.java:110-117 | every clade holds at least one taxon |
| `Clades.ChildCladeIncluded` | src/org/ithinktree/becky/TreeAnnotatorInitializer.java:114-116 | a child's clade is part of its parent's clade |
| `Clades.PostOrder` | src/org/ithinktree/becky/TreeAnnotatorInitializer.java:108-127 | at least one clade, and the last is the subtree's own clade, registered after its children's |
| `Clades.PostOrderWithinClade` | src/org/ithinktree/becky/TreeAnnotatorInitializer.java:108-127 | every clade registered for a subtree is a nonempty part of its root's clade |
| `Clades.RegisterDense` | src/org/ithinktree/becky/TreeAnnotatorInitializer.java:119-120 | a new clade gets the next id: the numbering stays dense and old entries stay |
| `Clades.RegisterAllDense` | src/org/ithinktree/becky/TreeAnnotatorInitializer.java:119-122 | registering a list keeps the numbering dense, never renumbers, and adds exactly the new clades |
| `Clades.RegisterAllAppend` | src/org/ithinktree/becky/TreeAnnotatorInitializer.java:119-120 | registering two lists in turn is registering their concatenation |
| `Clades.RegisterExtendsAll` | src/org/ithinktree/becky/TreeAnnotatorInitializer.java:119-120 | registering never removes or renumbers a clade |
| `Clades.FirstSeenOrder` | src/org/ithinktree/becky/TreeAnnotatorInitializer.java:119-120 | ids follow first-seen order |
| `TreeAnnotator.CladeAnnotator.constructor` | src/org/ithinktree/becky/TreeAnnotatorInitializer.java:102 | a fresh annotator knows no clade |
| `TreeAnnotator.CladeAnnotator.AddNewClades` | src/org/ithinktree/becky/TreeAnnotatorInitializer.java:108-127 | registers the subtree's clades in post-order, renumbers each node to its clade's id, and records old to new numbers in the table |
| `TreeAnnotator.CladeAnnotator.AddChildren` | src/org/ithinktree/becky/TreeAnnotatorInitializer.java:114-116 | the loop over the children annotates each child's subtree in order |
| `TreeAnnotator.CladeAnnotator.AddChild` | src/org/ithinktree/code/phylo/becky/TreeAnnotatorInitializer.java:111-113 | one turn of that loop annotates child `i` and adds its clade |
| `TreeAnnotator.CladeAnnotator.RemapHosts` | src/org/ithinktree/becky/TreeAnnotatorInitializer.java:72-75 | every symbiont node's `host.nodeRef` is rewritten through the table, up to the first reference outside it, where the loop stops as the throw does; it succeeds exactly when every reference is in the table |
| `TreeAnnotator.CladeAnnotator.AnnotatePair` | src/org/ithinktree/code/phylo/becky/TreeAnnotatorInitializer.java:69-75 | a fresh table sized by the host tree, the host annotated, the symbiont remapped; it fails exactly when a symbiont reference is outside the table |
| `TreeAnnotator.CladeAnnotator.ProcessPair` | src/org/ithinktree/code/phylo/becky/TreeAnnotatorInitializer.java:66-75 | one turn of the main loop on an imported pair, succeeding exactly when every symbiont reference is in the table |
| `TreeAnnotator.CladeAnnotator.Initialize` | src/org/ithinktree/becky/TreeAnnotatorInitializer.java:65-86 | pairs are processed until either list runs out or a symbiont reference is outside its table, which stops the run after the pairs before it; each processed host tree is annotated by clade and each symbiont's hosts are renumbered to match |
| `TreeAnnotator.RecordedLookup` | src/org/ithinktree/becky/TreeAnnotatorInitializer.java:123 | the table maps every original `nodeRef` in the tree to the id of that node's clade |
| `TreeAnnotator.MissingRefUntouched` | src/org/ithinktree/becky/TreeAnnotatorInitializer.java:74 | when the search finds nothing, no host node had that `nodeRef` |
| `TreeAnnotator.FoundCladeRegistered` | src/org/ithinktree/becky/TreeAnnotatorInitializer.java:119-122 | the clade found by a `nodeRef` is one of the registered clades |
| `TreeAnnotator.TableLookup` | src/org/ithinktree/becky/TreeAnnotatorInitializer.java:69-70 | with distinct host `nodeRef`s, the table holds the clade id for every entry |
| `TreeAnnotator.AllPostOrdersStep` | src/org/ithinktree/becky/TreeAnnotatorInitializer.java:65-71 | the registrations of the first `k + 1` host trees continue those of the first `k` |
| `TreeAnnotator.PairsStep` | src/org/ithinktree/becky/TreeAnnotatorInitializer.java:65-75 | processing one more pair keeps the earlier pairs' annotations and host ids |
| `TreeAnnotator.PairsKept` | src/org/ithinktree/becky/TreeAnnotatorInitializer.java:65-75 | registering another host tree, even one whose symbiont then fails, leaves the earlier pairs' annotations and host ids as they were |
| `TreeAnnotator.CladeAnnotator.NextPair` | src/org/ithinktree/becky/TreeAnnotatorInitializer.java:65-75 | one turn of the main loop: the next host tree's clades registered, success exactly when its symbiont refers inside the table, earlier pairs kept and the new pair done when it succeeds |
| `TreeAnnotator.HostIdStable` | src/org/ithinktree/becky/TreeAnnotatorInitializer.java:65-86 | a processed symbiont's host id survives the processing of later pairs |
| `Coevaluate.PutAllLast` | src/org/ithinktree/becky/tools/Coevaluate.java:97-98 | a key ends with the value of its last put; a key never put keeps its old value |
| `Coevaluate.PutAllKeys` | src/org/ithinktree/becky/tools/Coevaluate.java:97-98 | the keys after the puts are the old keys and the keys put |
| `Coevaluate.TreeToBitSet` | src/org/ithinktree/becky/tools/Coevaluate.java:88-100 | returns the clade of the subtree and puts each node's (attribute, clade) pairs into the maps, in post-order |
| `Coevaluate.ChildToBitSet` | src/org/ithinktree/becky/tools/Coevaluate.java:93-94 | one turn of the loop over the children |
| `Coevaluate.RootPutLast` | src/org/ithinktree/becky/tools/Coevaluate.java:96-98 | the root is put last, so the whole tree's clade maps to the root's attribute |
| `Coevaluate.NodeLookup` | src/org/ithinktree/becky/tools/Coevaluate.java:88-100 | with distinct attributes and distinct clades, the two maps are inverse to each other on the tree's nodes |
| `Coevaluate.TranslationTable` | src/org/ithinktree/becky/tools/Coevaluate.java:54-56 | the table fills entry by entry and fails on the first simulated `nodeRef` that is missing or names an unknown clade |
| `Coevaluate.TableTranslatesClade` | src/org/ithinktree/becky/tools/Coevaluate.java:53-56 | a simulated host node's `nodeRef` translates to the real host node with the same clade |
| `Coevaluate.CountCorrect` | src/org/ithinktree/becky/tools/Coevaluate.java:75-79 | counts the symbiont clades whose host equals the translated simulated host; fails when a simulated clade is missing |
| `Coevaluate.Evaluate` | src/org/ithinktree/becky/tools/Coevaluate.java:35-82 | the four trees are evaluated up to the printed figure |
| `Coevaluate.PercentBounded` | src/org/ithinktree/becky/tools/Coevaluate.java:81 | the intended figure lies between 0 and 100, and is 100 exactly when every clade agrees |
| `Coevaluate.PercentAsWrittenExceeds` | src/org/ithinktree/becky/tools/Coevaluate.java:81 | as written, the figure exceeds 100 whenever more clades agree than the simulated host tree has nodes |
| `Hypothetical.ObservedTree` | src/org/ithinktree/becky/SimpleHypotheticalTree.java:44-46 | the observed tree exists exactly when some leaf carries a taxon; its leaves are those leaves, in order |
| `Hypothetical.ObservedKeepsLeaves` | src/org/ithinktree/becky/SimpleHypotheticalTree.java:48-77 | a lineage is null exactly when no leaf carries a taxon; otherwise its leaves are the taxon-bearing leaves |
| `Hypothetical.FullyObservedUnchanged` | src/org/ithinktree/becky/SimpleHypotheticalTree.java:48-77 | a tree whose leaves all carry taxa is its own observed tree |
| `Hypothetical.ObservedIdempotent` | src/org/ithinktree/becky/SimpleHypotheticalTree.java:48-77 | pruning twice prunes nothing more |
| `Hypothetical.ObservedInnerNodes` | src/org/ithinktree/becky/SimpleHypotheticalTree.java:59-72 | the inner nodes kept are exactly those where two observed lineages meet, so no unary node survives |
| `Hypothetical.ObservedSize` | src/org/ithinktree/becky/SimpleHypotheticalTree.java:48-77 | the observed tree has one inner node fewer than observed leaves |
| `JPrimeWrapper.GetParent` | src/org/ithinktree/becky/jprimewrappers/JPrIMERBTreeWrapperForBEASTTree.java:134-137 | the parent's number, or NULL for the root |
| `JPrimeWrapper.IsRoot` | src/org/ithinktree/becky/jprimewrappers/JPrIMERBTreeWrapperForBEASTTree.java:150-152 | holds exactly for the node without a parent |
| `JPrimeWrapper.IsLeaf` | src/org/ithinktree/becky/jprimewrappers/JPrIMERBTreeWrapperForBEASTTree.java:145-147 | holds exactly for an external node |
| `JPrimeWrapper.ArcIsChildLink` | src/org/ithinktree/becky/jprimewrappers/JPrIMERBTreeWrapperForBEASTTree.java:160-162 | an arc runs exactly from a child to its parent, and from the root only to NULL |
| `JPrimeWrapper.LeftChild` | src/org/ithinktree/becky/jprimewrappers/JPrIMERBTreeWrapperForBEASTTree.java:23-25 | a child of the node, different from the right child |
| `JPrimeWrapper.RightChild` | src/org/ithinktree/becky/jprimewrappers/JPrIMERBTreeWrapperForBEASTTree.java:28-30 | a child of the node |
| `JPrimeWrapper.GetSibling` | src/org/ithinktree/becky/jprimewrappers/JPrIMERBTreeWrapperForBEASTTree.java:33-40 | NULL for the root; otherwise the parent's other child |
| `JPrimeWrapper.SiblingInvolutive` | src/org/ithinktree/becky/jprimewrappers/JPrIMERBTreeWrapperForBEASTTree.java:33-40 | the sibling of a sibling is the node itself |
| `JPrimeWrapper.Chain` | src/org/ithinktree/becky/jprimewrappers/JPrIMERBTreeWrapperForBEASTTree.java:43-49 | one entry per proper ancestor, so at least one for every node but the root |
| `JPrimeWrapper.ChainAbove` | src/org/ithinktree/becky/jprimewrappers/JPrIMERBTreeWrapperForBEASTTree.java:43-49 | each chain entry is a proper ancestor, one step further than its position |
| `JPrimeWrapper.ChainComplete` | src/org/ithinktree/becky/jprimewrappers/JPrIMERBTreeWrapperForBEASTTree.java:43-49 | every proper ancestor is in the chain |
| `JPrimeWrapper.ChainEndsAtRoot` | src/org/ithinktree/becky/jprimewrappers/JPrIMERBTreeWrapperForBEASTTree.java:43-49 | the chain of a node other than the root ends at the root |
| `JPrimeWrapper.GetAncestors` | src/org/ithinktree/becky/jprimewrappers/JPrIMERBTreeWrapperForBEASTTree.java:43-49 | the loop returns the chain, preceded by the node when asked |
| `JPrimeWrapper.NoOfAncestors` | src/org/ithinktree/becky/jprimewrappers/JPrIMERBTreeWrapperForBEASTTree.java:109-111 | the length of that list |
| `JPrimeWrapper.HasPath` | src/org/ithinktree/becky/jprimewrappers/JPrIMERBTreeWrapperForBEASTTree.java:165-171 | holds exactly when the first node is a proper ancestor of the second |
| `JPrimeWrapper.GetChildren` | src/org/ithinktree/becky/jprimewrappers/JPrIMERBTreeWrapperForBEASTTree.java:52-59 | exactly the node's child list, in order, each child being a node of the tree |
| `JPrimeWrapper.NoOfChildren` | src/org/ithinktree/becky/jprimewrappers/JPrIMERBTreeWrapperForBEASTTree.java:114-116 | the number of nodes whose parent is the node |
| `JPrimeWrapper.GetLeaves` | src/org/ithinktree/becky/jprimewrappers/JPrIMERBTreeWrapperForBEASTTree.java:100-106 | the external nodes in the tree's external-node order: every leaf, each once |
| `JPrimeWrapper.NoOfLeaves` | src/org/ithinktree/becky/jprimewrappers/JPrIMERBTreeWrapperForBEASTTree.java:129-131 | the number of external nodes |
| `JPrimeWrapper.PreOrder` | src/org/ithinktree/becky/jprimewrappers/JPrIMERBTreeWrapperForBEASTTree.java:71-82 | the pre-order of a subtree starts with the node itself |
| `JPrimeWrapper.CollectDescendants` | src/org/ithinktree/becky/jprimewrappers/JPrIMERBTreeWrapperForBEASTTree.java:78-82 | the recursive helper appends the subtree in pre-order to the list |
| `JPrimeWrapper.GetDescendants` | src/org/ithinktree/becky/jprimewrappers/JPrIMERBTreeWrapperForBEASTTree.java:71-76 | the subtree in pre-order, without the node itself when asked |
| `JPrimeWrapper.NoOfDescendants` | src/org/ithinktree/becky/jprimewrappers/JPrIMERBTreeWrapperForBEASTTree.java:124-126 | the length of that list |
| `JPrimeWrapper.PreOrderBelow` | src/org/ithinktree/becky/jprimewrappers/JPrIMERBTreeWrapperForBEASTTree.java:71-82 | every node listed is the node or lies below it |
| `JPrimeWrapper.BelowInPreOrder` | src/org/ithinktree/becky/jprimewrappers/JPrIMERBTreeWrapperForBEASTTree.java:71-82 | every proper descendant is listed |
| `JPrimeWrapper.GetDescendantLeaves` | src/org/ithinktree/becky/jprimewrappers/JPrIMERBTreeWrapperForBEASTTree.java:62-68 | the node first unless asked not to, then the external nodes below it, each once |
| `JPrimeWrapper.ExternalNodesBelow` | src/org/ithinktree/becky/jprimewrappers/JPrIMERBTreeWrapperForBEASTTree.java:62-68 | the external nodes below a node, each once |
| `JPrimeWrapper.NoOfDescendantLeaves` | src/org/ithinktree/becky/jprimewrappers/JPrIMERBTreeWrapperForBEASTTree.java:119-121 | the length of the `getDescendantLeaves` list |
| `JPrimeWrapper.LeafIsOwnLeaf` | src/org/ithinktree/becky/jprimewrappers/JPrIMERBTreeWrapperForBEASTTree.java:62-68 | a leaf is its own only leaf, so the list for a leaf names it twice unless asked not to |
| `TransmissionTree.Construct` | src/dr/evomodel/epidemiology/casetocase/TransmissionTreeOperator.java:32-41 | the constructor refuses exactly an extended painting, with the runtime exception (`ExtendedPainting`), not the operator's checked failure |
| `TransmissionTree.ParentsOf` | src/dr/evomodel/epidemiology/casetocase/TransmissionTreeOperator.java:157-167 | one entry per node, each -1 or a node number |
| `TransmissionTree.GetParentsArray` | src/dr/evomodel/epidemiology/casetocase/TransmissionTreeOperator.java:157-167 | a fresh array holding -1 exactly for the root and parentless nodes, the parent for every other node, equal to `ParentsOf` |
| `TransmissionTree.ChangedExactly` | src/dr/evomodel/epidemiology/casetocase/TransmissionTreeOperator.java:55-59 | exactly the nodes whose parent changed, each once, in ascending order |
| `TransmissionTree.ChangedNodes` | src/dr/evomodel/epidemiology/casetocase/TransmissionTreeOperator.java:55-59 | the loop collects exactly those nodes |
| `TransmissionTree.Run` | src/dr/evomodel/epidemiology/casetocase/TransmissionTreeOperator.java:145-155 | only nodes painted with the old case are taken |
| `TransmissionTree.Repainted` | src/dr/evomodel/epidemiology/casetocase/TransmissionTreeOperator.java:145-155 | `paintUp` as a value: one case per node (what changes is stated by the lemmas below) |
| `TransmissionTree.RepaintedAncestors` | src/dr/evomodel/epidemiology/casetocase/TransmissionTreeOperator.java:145-155 | only proper ancestors change, each to the new case, and only if painted the old case all the way down |
| `TransmissionTree.RepaintedRun` | src/dr/evomodel/epidemiology/casetocase/TransmissionTreeOperator.java:145-155 | conversely, an ancestor painted the old case all the way down is repainted |
| `TransmissionTree.PaintUp` | src/dr/evomodel/epidemiology/casetocase/TransmissionTreeOperator.java:145-155 | the walk leaves the array equal to `Repainted` |
| `TransmissionTree.RepaintedFrame` | src/dr/evomodel/epidemiology/casetocase/TransmissionTreeOperator.java:145-155 | repainting changes only proper ancestors of where the walk starts |
| `TransmissionTree.FirstMoved` | src/dr/evomodel/epidemiology/casetocase/TransmissionTreeOperator.java:83-90 | the first node whose height changed, or -1 |
| `TransmissionTree.FindMovedNode` | src/dr/evomodel/epidemiology/casetocase/TransmissionTreeOperator.java:83-90 | the loop finds `FirstMoved` |
| `TransmissionTree.NewChildUpTo` | src/dr/evomodel/epidemiology/casetocase/TransmissionTreeOperator.java:91-100 | -1, or a changed node other than the moved one whose new parent is the moved node |
| `TransmissionTree.OldChildUpTo` | src/dr/evomodel/epidemiology/casetocase/TransmissionTreeOperator.java:91-100 | -1, or a changed node other than the moved one whose new parent is not the moved node |
| `TransmissionTree.ClassifyChanged` | src/dr/evomodel/epidemiology/casetocase/TransmissionTreeOperator.java:91-100 | the loop sorts the changed nodes into the new and the old child |
| `TransmissionTree.OtherChildUpTo` | src/dr/evomodel/epidemiology/casetocase/TransmissionTreeOperator.java:104-112 | -1, or a child of the moved node other than the new child |
| `TransmissionTree.FindOtherChild` | src/dr/evomodel/epidemiology/casetocase/TransmissionTreeOperator.java:104-112 | the loop finds that child |
| `TransmissionTree.ExchangeOutcome` | src/dr/evomodel/epidemiology/casetocase/TransmissionTreeOperator.java:61-76 | the node-swap repainting; a successful one has one case per node |
| `TransmissionTree.ExchangeFrame` | src/dr/evomodel/epidemiology/casetocase/TransmissionTreeOperator.java:61-76 | a swap repaints only proper ancestors of the two swapped nodes |
| `TransmissionTree.ExchangeRepaint` | src/dr/evomodel/epidemiology/casetocase/TransmissionTreeOperator.java:61-76 | the swap branch leaves the new map equal to `ExchangeOutcome`, or reports its failure |
| `TransmissionTree.TransplantOutcome` | src/dr/evomodel/epidemiology/casetocase/TransmissionTreeOperator.java:78-130 | the transplant repainting; a successful one has one case per node |
| `TransmissionTree.TransplantFrame` | src/dr/evomodel/epidemiology/casetocase/TransmissionTreeOperator.java:78-130 | a transplant repaints only the moved node and proper ancestors of the old child or of the moved node |
| `TransmissionTree.TransplantRepaint` | src/dr/evomodel/epidemiology/casetocase/TransmissionTreeOperator.java:78-130 | the transplant branch leaves the new map equal to `TransplantOutcome`, or reports its failure |
| `TransmissionTree.NoChangeKeepsPainting` | src/dr/evomodel/epidemiology/casetocase/TransmissionTreeOperator.java:47-140 | when no parent changed, the painting stays exactly as it was |
| `TransmissionTree.UnknownMoveFails` | src/dr/evomodel/epidemiology/casetocase/TransmissionTreeOperator.java:131-136 | a move of another kind fails as soon as it changed a parent |
| `TransmissionTree.DoOperation` | src/dr/evomodel/epidemiology/casetocase/TransmissionTreeOperator.java:47-140 | when the inner move throws, its `OperatorFailed` passes through and nothing changes; otherwise, on success the likelihood gets the repainted map, is dirty, and the inner ratio is returned, and on failure nothing changes |
| `SimulatorArguments.SplitShape` | src/dr/app/bss/BeagleSequenceSimulatorConsoleApp.java:173-184 | the closed segments hold no separator, one per separator seen, and they and the open rest rebuild the arguments |
| `SimulatorArguments.SplitSkip` | src/dr/app/bss/BeagleSequenceSimulatorConsoleApp.java:176-183 | arguments that are not separators, position by position, leave the split state alone |
| `SimulatorArguments.SplitJoin` | src/dr/app/bss/BeagleSequenceSimulatorConsoleApp.java:173-184 | splitting joined segments gives the segments back, with nothing open |
| `SimulatorArguments.SplitJoinRest` | src/dr/app/bss/BeagleSequenceSimulatorConsoleApp.java:173-196 | joined segments followed by separator-free arguments leave those arguments open |
| `SimulatorArguments.SplitPartitions` | src/dr/app/bss/BeagleSequenceSimulatorConsoleApp.java:173-184 | the split loop computes the segments and where the leftovers start |
| `SimulatorArguments.Accepted` | src/dr/app/bss/BeagleSequenceSimulatorConsoleApp.java:186-199 | an accepted command line is separator-free segments, one per separator, then at most the limit of leftovers |
| `SimulatorArguments.AcceptedJoin` | src/dr/app/bss/BeagleSequenceSimulatorConsoleApp.java:186-199 | conversely, such a command line is accepted with exactly those segments and leftovers |
| `SimulatorArguments.CheckArguments` | src/dr/app/bss/BeagleSequenceSimulatorConsoleApp.java:173-199 | the checks up to the per-partition parsing: help, empty, too many leftovers, or the partitions; the leftover limit is the intended 3, not the source's 2 (see Findings) |
| `SimulatorArguments.SettingsRoundTrip` | src/dr/app/bss/BeagleSequenceSimulatorConsoleApp.java:529-550 | every accepted leftover reaches a setting, and with none the output file is `output.fasta` |
| `SimulatorArguments.AsWrittenNeverParallel` | src/dr/app/bss/BeagleSequenceSimulatorConsoleApp.java:196-199 | as written, the parallel flag can never be set |
| `SimulatorArguments.AsWrittenRejectsParallel` | src/dr/app/bss/BeagleSequenceSimulatorConsoleApp.java:196-199 | as written, output file, seed and flag are refused, naming the flag |
| `SimulatorArguments.ParallelReached` | src/dr/app/bss/BeagleSequenceSimulatorConsoleApp.java:548-550 | with three leftovers allowed, the same command line is accepted and the flag reaches its setting |
| `SimulatorArguments.Reach` | src/dr/app/bss/BeagleSequenceSimulatorConsoleApp.java:571-619 | the first position the scatter loop cannot complete, or the row's length |
| `SimulatorArguments.ScatterUntouched` | src/dr/app/bss/BeagleSequenceSimulatorConsoleApp.java:571-619 | positions the index row does not name keep their value |
| `SimulatorArguments.ScatterWritten` | src/dr/app/bss/BeagleSequenceSimulatorConsoleApp.java:571-619 | a named position holds the value of the last entry naming it |
| `SimulatorArguments.ScatterDistinct` | src/dr/app/bss/BeagleSequenceSimulatorConsoleApp.java:571-619 | with distinct indices, exactly the named positions change, each to its own value |
| `SimulatorArguments.ParseValues` | src/dr/app/bss/BeagleSequenceSimulatorConsoleApp.java:571-619 | the loop scatters the values; it succeeds exactly when it completes the row, and what it wrote before a failure stays |

## Left out

- Reading the command-line options, the host and symbiont files and the
  association file, and writing the merged document
  (tools/SetupCophylogenyAnalysis.py:1-89, 103, 107, 345-348). The documents
  arrive parsed and the association file arrives as its lines. The parser
  drops comments, so `Merge.Merge` requires a host root without comments.
- The choice between lxml and `xml.etree` at the top of the script. Only
  the behaviour they share is modelled, plus one place where they differ.
  There, lxml's `extend` moves elements, so only the last tree log of a
  side keeps the traits (see Findings). `Merge.TreeLogsAsWritten` models
  that loop as written. The rest of the merge uses the intended flush.
- Merge.Merge, Merge.Assemble, Merge.Flush, Merge.FlushTreeLogs,
  Merge.Flushed and Merge.FlushedTreeLogs model the intended flush, which is
  also what `xml.etree` does: every tree log of a side receives every trait
  of that side. Under lxml only the last tree log keeps them. That as-written
  behaviour is `Merge.TreeLogsAsWritten`, with `Merge.FirstTreeLogLosesTraits`.
- Merge.LocateHost looks up all the host containers before any symbiont
  container. The script finds the host's `operators`, `prior` and
  `likelihood` as `None` without raising, and raises only when it first
  appends to them (tools/SetupCophylogenyAnalysis.py:272-279, 314-330). So
  when the host lacks one of these and the symbiont also lacks a container,
  the script's error names the symbiont's container and the model's names
  the host's. Which documents fail is the same.
- SimpleModel.SimpleCophylogenyModel.ReconstructNode requires the node's
  host to be a host node. With a null host the source throws a
  NullPointerException when it reads the host's height
  (SimpleCophylogenyModel.java:282), and that throw is not modelled.
  `hostChild` is the child of the host that the source reads, or NULL when the
  host is a leaf. A parent array does not record the order of children, so
  the model cannot say that it is child 0.
- The exception the annotators throw when a symbiont's `host.nodeRef` is
  NO_HOST or too large for the table
  (src/org/ithinktree/becky/TreeAnnotatorInitializer.java:74). The model
  reports it as a failure result instead. The trees processed before the
  failure stay written, as they would after the throw.
- SimulatorArguments.CheckArguments models the intended leftover limit of 3
  (output file, seed, parallel flag). The source rejects more than 2
  (BeagleSequenceSimulatorConsoleApp.java:196-199). The as-written limit is
  `SimulatorArguments.AsWrittenNeverParallel` and
  `SimulatorArguments.AsWrittenRejectsParallel` (see Findings).
- Floating-point likelihood values. `calculateLogLikelihood`,
  `likelihoodEvent`, the event-probability integrals and the partial
  likelihoods of `calculateNodeLogLikelihood` become real-valued parameters.
  `Likelihood.CophylogenyLikelihood.GetLogLikelihood` takes the computed
  value as an argument.
- `likelihoodLossesAlongLineages` and the numeric factors the reconstruction
  multiplies. `SimpleModel.SimpleCophylogenyModel.ReconstructNode` records
  which events happen, not how likely they are.
- Random draws: `MathUtils.nextInt`, `MathUtils.shuffle` and
  `MathUtils.shuffled` become parameters (the node drawn, the order drawn).
- File and Nexus I/O, progress output and `main` in both
  `TreeAnnotatorInitializer`s and in `Coevaluate`. Trees arrive imported.
- The older `TreeAnnotatorInitializer` reads its symbiont trees from the host
  file's reader (src/org/ithinktree/code/phylo/becky/TreeAnnotatorInitializer.java:46).
  What that yields depends on the Nexus importer's buffering, which is not
  part of this model. Both copies are modelled with separate tree lists.
- Hypothetical.ObservedTree: when no leaf carries a taxon, the source hands
  null to `SimpleTree`. The model returns `None` instead of modelling that
  constructor.
- JPrIME queries that throw or depend on code not shown: `getHeight` (both
  forms), `getTopologicalOrdering`, `getComponents`, `setName`, and `getLCA`,
  which calls a utility that is not part of this model
  (JPrIMERBTreeWrapperForBEASTTree.java:85-97, 155-157, 174-197). Also left
  out are `getName`, `toString`, `getNoOfVertices` and `getRoot`, which pass
  straight through to the BEAST tree.
- Clades.CladeOf, Coevaluate.TreeToBitSet and
  TreeAnnotator.CladeAnnotator.AddNewClades assume away two failures that
  they cannot see. First, a leaf whose taxon is not in the taxon list:
  `getTaxonIndex` returns -1, and `BitSet.set(-1)` throws
  (src/org/ithinktree/becky/tools/Coevaluate.java:91,
  src/org/ithinktree/becky/TreeAnnotatorInitializer.java:112,
  src/org/ithinktree/code/phylo/becky/TreeAnnotatorInitializer.java:109). A
  leaf's taxon is a `nat` index here. Second, a node without the node-number
  attribute: its null `Integer` is stored, and unboxing it throws later
  (Coevaluate.java:56, 77). `Coevaluate.Labelled` requires every node to
  carry the attribute.
- JPrimeWrapper.ExternalNodesBelow states the members and that each
  appears once, not their order. `Tree.Utils.getExternalNodes` returns a
  set, whose iteration order is not specified.
- The transmission tree's inner operator. Its move arrives as the trees and
  heights before and after it. Whether it throws is the `innerFailed` input
  of `TransmissionTree.DoOperation`, and its Hastings ratio is the `hr`
  input. `getHeightsArray` is an input too, and so are
  the coercion and parser methods. Cases are compared by identity and are
  modelled as integers.
- Per-partition option parsing in the simulator
  (BeagleSequenceSimulatorConsoleApp.java:202-517), including the exit on an
  empty segment. Also left out are tree import, the simulation itself,
  `Long.parseLong`, `Boolean.parseBoolean`, `MathUtils.setSeed`, the usage
  text and writing the output file. `PartitionData` is not part of this
  model, so its index tables become a parameter of
  `SimulatorArguments.ParseValues`.

## Findings

| source | as written | input that shows it | evidently intended | confidence | as-written member | corrected member |
|---|---|---|---|---|---|---|
| tools/SetupCophylogenyAnalysis.py:335-343 | `log.extend(traits)` hands the same trait elements to each tree log in turn. An lxml element has one parent, so each log takes the traits from the one before it. | A host document with two `logTree` elements and one queued trait: after the loop only the second log holds the trait. | Every tree log of a side holds every trait of that side. | not executed | `Merge.FirstTreeLogLosesTraits` | `Merge.FlushedTraits` |
| src/org/ithinktree/becky/tools/Coevaluate.java:81 | The agreeing count is divided by the node count of `tr`, which by then holds the simulated host tree, not the symbiont tree. | A four-leaf symbiont tree (seven clades) and an identical simulated copy, over three-leaf host trees (five nodes): all seven agree and it prints 140%. | The count is divided by the number of symbiont clades compared. | not executed | `Coevaluate.PercentAsWrittenExceeds` | `Coevaluate.PercentBounded` |
| src/dr/app/bss/BeagleSequenceSimulatorConsoleApp.java:196-199 | More than two leftover arguments exit with "Unrecognized option", so lines 548-550, which read the third leftover as the parallel flag, are never reached. | `-treeFile t.tree : out.fasta 42 true` exits with "Unrecognized option true". | Up to three leftovers (output file, seed, parallel flag), as the usage line at line 634 advertises. | not executed | `SimulatorArguments.AsWrittenRejectsParallel` | `SimulatorArguments.ParallelReached` |

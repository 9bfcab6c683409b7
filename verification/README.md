# Verified model of the dataset platform

A Dafny model of the platform's protocol and algorithms, with machine-checked proofs. `dafny verify dfyconfig.toml`
checks all of it.

## What is modelled

- **The generation protocol** (`Protocol`, `ProtocolProofs`, `ProtocolRuns`, `Retries`, `JobRow`, `ReviewRaces`,
  `Stragglers`). The gateway's start request, concurrent review decisions, signals and cancels, the workflow and the
  attempts of its activities, as one transition system whose steps are the effects between two awaits. Every attempt may
  fail after any part of its effects and is retried up to three times; the gateway's own save of the job may land
  anywhere. `Stragglers` adds attempts that time out and run on beside their retries. The theorems are about all runs;
  where something cannot be promised, they say exactly when it holds.
- **The graph pipeline.** `Topology` and `Procedural` project abstract graphs onto typed relations, `LlmGraph` filters
  arbitrary parsed model output, `Shards` plans and merges, `GraphPipeline` and `LlmPipeline` put plan,
  generation and merge together for the two engines. `Validator` and `Judge` are the two independently written
  checkers; `CheckerAgreement` says where they agree.
- **Graph perturbation.** `Selection`, `Rewiring`, `Dropout` and `Violations`, proved for every legal random draw, up to
  the theorem that every injected violation is caught by the judge.
- **Streaming loops and encoders.** `TextPipeline` (accept loop and stateful deduplicator against a declarative
  pipeline), `Cypher` (escaping passes against a reader), `Gnn` (arrays against a decoder).
- **Exact arithmetic.** `Bias` (row resampling), `ConceptDrift` (category rotation), `Media` (per-index plans under
  sharding), `Aggregator` (weighted renormalisation).

`Sequences`, `Ordering`, `Strings`, `Arithmetic` and `GraphModels` hold the shared vocabulary.

Loops that update variables are methods with invariants, in-place updates work on arrays, and the deduplicator and the
manifest fragment store are classes; each is proved against a function, and the lemmas are about that function. Random
draws are parameters: a choice without replacement is any legal list of ranks, an integer draw is any stream of words
reduced modulo the range. Faker, synthesis, coercion, `repr`, `str`, model responses, media providers and the abstract
random graphs are parameters too.

## Where the code and its documentation differ

- `perturb.py` documents output independent of input order and an exact no-op at intensity 0. Plain rewiring and edge
  violations read their draws in list order (`Rewiring.RewireOrderExact` and `Violations.EdgeStageOrderExact` say
  exactly when that matters). Elements are ranked by id, and edge ids restart in every shard, so merged graphs repeat
  them; ties then follow list order, and what a dropout or a swap leaves can depend on it
  (`Dropout.DropoutOrderExact`, `Rewiring.SwapsDependOnOrder`). Node dropout at intensity 0 still removes edges that
  were dangling on input (`Dropout.ZeroIntensityIff`).
- `map_edges` calls itself domain and range aware. An undirected relation also accepts its reverse, and an edge is named
  after a relation of its types while the validator reads the first relation of that name, which can join other types
  (ontologies learned from samples repeat names). The validator rejects both kinds of edge and no other
  (`Topology.ProjectionPassesIff`, `Topology.DirectedPassesIff`).
- `ProceduralTopologyGenerator.generate` says that assembly never merges distinct nodes. It can when a shard holds more
  nodes than its count, as an explicit `blocks` list allows (`Shards.OverrunMerges`,
  `Procedural.ExplicitBlocksLoseNodes`). A merge can also invalidate an edge when an earlier node, of its own or an
  earlier shard, holds an endpoint's id under another type (`GraphPipeline.MergedPassesIff`; for model-driven shards
  `LlmPipeline.PairsPassIff`).
- `set_status` says that the gateway creates the job up front. The workflow is started before the job is saved
  (`JobRow.SaveKeepsSuccessIff` and `JobRow.SaveKeepsIdIff` say when that does no harm).
- An attempt that times out after ten minutes is retried and may run on. What is published survives that, and nothing
  happens before an approval (`Stragglers.SucceededMeansStored`, `Stragglers.NothingBeforeApprovalLate`). The job row
  and a shard can still change after completion (`Stragglers.SuccessKeptLateIff`, `Stragglers.TimedOutPutLands`), so
  `ProtocolProofs.ProgressFallsOnlyAtSave`, the theorems of `JobRow` and the equality of artifact and stored shards in
  `ProtocolProofs.SucceededMeansPublished` are about runs without such attempts.
- The image handler's shards add their number to the seed, so image bytes depend on the shard size although labels and
  prompts do not (`Media.ImageSeedsFollowShards`).

## Model

| member | source | states |
|---|---|---|
| ProtocolProofs.SucceededMeansPublished | packages/anodyne-workflows/src/anodyne_workflows/workflow.py:43-59 | In every interleaving of gateway, decision requests and activity attempts (each retried up to 3 times, each failed attempt after any part of its effects): a persisted "succeeded" means the artifact key holds the in-order assembly of all shards, and 1 to 3 versions exist with one uri, format and row count and different ids |
| ProtocolProofs.EveryRun | packages/anodyne-workflows/src/anodyne_workflows/activities.py:174-247 | The invariant behind it holds after every run: what the attempt in progress has done to the store, the job row, the versions and the review desk |
| ProtocolProofs.NothingBeforeApproval | apps/api-gateway/src/api_gateway/app.py:648-694 | On a review-gated job nothing is planned, generated, assembled or registered, and the row never reads running or succeeded, until some approve request has sent the signal |
| ProtocolProofs.DecisionAfterEffect | apps/api-gateway/src/api_gateway/hitl_routes.py:77-102 | A persisted APPROVED or REJECTED was preceded by the signal or the cancel of the very request whose decision is stored |
| ProtocolProofs.StoredDecisionExact | apps/api-gateway/src/api_gateway/hitl_routes.py:48-52 | In every run the stored review reads APPROVED, REJECTED or CHANGES_REQUESTED exactly when the request that saved last was an approval, a rejection or a request for changes, with that request's comment; it is pending exactly when none has saved |
| ProtocolProofs.OnlyDecisionsSteer | apps/api-gateway/src/api_gateway/hitl_routes.py:77-102 | A cancel was asked for exactly when a reject request has acted, a workflow reads cancelled only then, and on a gated job the signal was sent exactly when an approve request has acted |
| ProtocolProofs.SavedDecisionsOverlap | apps/api-gateway/src/api_gateway/hitl_routes.py:216-222 | Every decision that is ever saved was taken on a task loaded before the first decision was saved |
| ProtocolProofs.SerialRunsSettle | apps/api-gateway/src/api_gateway/hitl_routes.py:216-222 | With requests handled one at a time at most one decision is saved and none is in flight after it |
| ProtocolProofs.SerialDecisionsFreeze | apps/api-gateway/src/api_gateway/hitl_routes.py:219-221 | With requests handled one at a time a task leaves PENDING at most once and never changes again |
| ProtocolProofs.ProgressFallsOnlyAtSave | packages/anodyne-workflows/src/anodyne_workflows/activities.py:226-244 | The row's progress never falls except in the step where the gateway's own save lands; after that it only grows |
| JobRow.CompletedReadsSucceededIff | packages/anodyne-workflows/src/anodyne_workflows/workflow.py:55-59 | In every run that completes the job row reads succeeded exactly when a worker wrote it after the gateway's save; otherwise it reads as the gateway saved it |
| JobRow.SaveKeepsSuccessIff | apps/api-gateway/src/api_gateway/app.py:665-682 | When the gateway is about to save: every continuation that completes reads succeeded exactly when the workflow is not yet past its last write of the row |
| JobRow.SuccessKeptIff | apps/api-gateway/src/api_gateway/app.py:681-682 | A completed job that reads succeeded keeps reading it in every continuation exactly when the gateway is not still to save |
| JobRow.RowSettled | packages/anodyne-workflows/src/anodyne_workflows/activities.py:225-244 | Once the workflow is complete and the gateway no longer about to save, the row never changes again |
| JobRow.WorkflowIdLostIff | packages/anodyne-workflows/src/anodyne_workflows/activities.py:229-244 | In every run in which the gateway has saved: the row lacks the workflow id exactly when the attempt that stood between reading and writing the row at the save went on to write; otherwise it has the id |
| JobRow.SaveKeepsIdIff | packages/anodyne-workflows/src/anodyne_workflows/activities.py:237-244 | When the gateway is about to save: every continuation keeps the workflow id exactly when no attempt stands between its read and its write of the row |
| JobRow.CleanSaveSurvives | packages/anodyne-workflows/src/anodyne_workflows/activities.py:229-233 | A save taken while no attempt stands between reading and writing the row, in particular before the worker's first read, never loses the workflow id |
| Protocol.KeysDistinct | packages/anodyne-workflows/src/anodyne_workflows/handlers.py:45-56 | A retried put hits the same key; different shards, and a shard and the artifact, never share one |
| Protocol.JobsApart | packages/anodyne-workflows/src/anodyne_workflows/handlers.py:45-56 | The keys of different jobs never meet, as long as ids hold no slash |
| ProtocolRuns.SuccessReachable | packages/anodyne-workflows/src/anodyne_workflows/workflow.py:43-59 | The model can succeed: an ungated job has a run that completes with "succeeded" persisted and one version |
| Retries.FailedIff | packages/anodyne-workflows/src/anodyne_workflows/workflow.py:45-48 | In every run the workflow reads failed exactly when some scheduled activity failed three times with no report in between |
| Retries.FailureRetries | packages/anodyne-workflows/src/anodyne_workflows/workflow.py:45-48 | After a first or second failure the workflow stays open at the same activity, which starts over as the next attempt with everything stored kept; the third fails it |
| Retries.CompletesIff | packages/anodyne-workflows/src/anodyne_workflows/workflow.py:43-59 | Whatever has failed so far, an open workflow has a completing continuation exactly when the signal was sent or some request can still send it; every ungated one has |
| JobRow.LateSaveErasesSuccess | apps/api-gateway/src/api_gateway/app.py:665-682 | A run in which the gateway's save lands last: workflow complete, version registered, and the job pending at progress 0 in every continuation |
| JobRow.DirtySaveLosesWorkflowId | packages/anodyne-workflows/src/anodyne_workflows/activities.py:237-244 | A run in which the save lands between a worker's read and its write: the saved row loses its workflow id |
| ProtocolRuns.OverlappingDecisionsBothSave | apps/api-gateway/src/api_gateway/hitl_routes.py:216-221 | A run in which two overlapping requests both decide one task: approved and signalled, then overwritten by a rejection |
| ReviewRaces.OverlapSavesTwiceIff | apps/api-gateway/src/api_gateway/hitl_routes.py:216-221 | From any reachable state, two requests that have both loaded a pending task can both save their decision exactly when each can still act; on an open workflow they always can |
| ReviewRaces.EndedNeverSaves | apps/api-gateway/src/api_gateway/hitl_routes.py:216-222 | A request that was refused or failed saves no decision in any continuation |
| Stragglers.SucceededMeansStored | packages/anodyne-workflows/src/anodyne_workflows/workflow.py:45-48 | With attempts that time out and run on beside their retries: a persisted "succeeded" still means that all shards and the artifact are stored, the artifact assembles blobs put for the shards in order, and 1 to 3 uniform versions exist; it assembles the shards as stored when no shard was put with two contents |
| Stragglers.EveryRunSound | packages/anodyne-workflows/src/anodyne_workflows/workflow.py:45-59 | The invariant behind it, for every run with stragglers; the review desk and the approval gate keep theirs |
| Stragglers.NothingBeforeApprovalLate | apps/api-gateway/src/api_gateway/app.py:648-694 | Stragglers do nothing before an approval either |
| Stragglers.SuccessKeptLateIff | packages/anodyne-workflows/src/anodyne_workflows/activities.py:225-244 | With stragglers a completed job that reads succeeded keeps reading it in every continuation exactly when the gateway is not still to save and no straggler of an earlier status is still to write |
| Stragglers.RowSettledLate | packages/anodyne-workflows/src/anodyne_workflows/activities.py:225-244 | Once the workflow is complete and neither the gateway nor a straggler is to write the row, it never changes again |
| Stragglers.TimedOutWriteStays | packages/anodyne-workflows/src/anodyne_workflows/activities.py:237-244 | In any completing run an attempt that failed between reading and writing the row could have timed out instead: its earlier status lands at the end and stays |
| Stragglers.TimedOutPutLands | packages/anodyne-workflows/src/anodyne_workflows/handlers.py:45-56 | Likewise a failed attempt's shard put can land at the end; the artifact then assembles the stored shards exactly when the handler maps the changed list to the same blob |
| GraphModels.FirstNamedFinds | packages/anodyne-graph/src/anodyne_graph/models.py:70-74 | The type lookups return a declared type of that name, and none exactly when no type bears it |
| GraphModels.PiiExactly | packages/anodyne-graph/src/anodyne_graph/properties.py:29-34 | Personal data are exactly the flagged properties and those whose name holds a keyword, at any place and in any case |
| GraphModels.NumbersCompare | packages/anodyne-evaluation/src/anodyne_evaluation/graph_judges/ontology.py:45-47 | A choice equals a value of equal magnitude whatever the number type, and no other kind of value |
| GraphModels.ValueEqTransitive | packages/anodyne-evaluation/src/anodyne_evaluation/graph_judges/ontology.py:45-47 | Equality of values, nested lists and objects included, is transitive; likewise reflexive and symmetric |
| GraphModels.DictionariesAgree | packages/anodyne-graph/src/anodyne_graph/constraints.py:78 | The id-to-type dictionary and the judge's id-to-node dictionary have the same keys and agree on types, also under repeated ids |
| GraphModels.CountByType | packages/anodyne-graph/src/anodyne_graph/models.py:108-125 | The per-type counters equal the multiplicities of the type names, with exactly those names as keys |
| Validator.CheckEdges | packages/anodyne-graph/src/anodyne_graph/constraints.py:88-117 | The edge pass reports exactly the specified finding of each edge, in order |
| Validator.CheckProperties | packages/anodyne-graph/src/anodyne_graph/constraints.py:119-149 | The property pass reports exactly the specified findings, including the exception a malformed bound raises |
| Validator.CheckNumericRange | packages/anodyne-graph/src/anodyne_graph/constraints.py:250-267 | Raises exactly when the value is numeric and a bound is present that is not; reports a wrong type exactly for a non-numeric value, and each bound exactly when the value is beyond it |
| Validator.RangeEmptyIff | packages/anodyne-graph/src/anodyne_graph/constraints.py:250-267 | Nothing is reported exactly when the value is numeric and each bound is absent or converts to a number the value respects |
| Validator.CheckCardinality | packages/anodyne-graph/src/anodyne_graph/constraints.py:151-173 | A rule reports exactly the sources whose out-degree in the relation exceeds its limit, once each |
| Validator.SourcesCounted | packages/anodyne-graph/src/anodyne_graph/constraints.py:161-164 | A source's out-degree is the number of edges of the type that leave it |
| Validator.CheckRule | packages/anodyne-graph/src/anodyne_graph/constraints.py:155-173 | A rule that is not a dictionary or has no limit reports nothing; a limit that does not convert raises exactly when some edge has the type; otherwise exactly the sources over the limit are reported, once each |
| Validator.Check | packages/anodyne-graph/src/anodyne_graph/constraints.py:74-86 | The report is the structural findings followed by each rule's; it raises exactly when a structural pass or a rule does |
| Validator.InjectViolations | packages/anodyne-graph/src/anodyne_graph/constraints.py:270-293 | Injection appends exactly n edges copied from drawn templates with missing targets, and nothing when n <= 0 or there are no edges |
| Validator.InjectionExact | packages/anodyne-graph/src/anodyne_graph/constraints.py:270-293 | With no node named like a missing target, injection raises the violation count by exactly the number of added edges, whatever is drawn |
| Judge.TallyNode | packages/anodyne-evaluation/src/anodyne_evaluation/graph_judges/ontology.py:71-90 | The inner loop charges a node exactly its specified checks, passes and violations |
| Judge.TallyEdges | packages/anodyne-evaluation/src/anodyne_evaluation/graph_judges/ontology.py:92-105 | Each edge passes or is one violation, by the domain/range rule |
| Judge.Compute | packages/anodyne-evaluation/src/anodyne_evaluation/graph_judges/ontology.py:60-112 | Not applicable exactly on an empty graph; otherwise the score is passed over checks of the specified tally |
| Judge.TallyBalances | packages/anodyne-evaluation/src/anodyne_evaluation/graph_judges/ontology.py:65-105 | Every check passes or is exactly one violation of one kind |
| Judge.PerfectScore | packages/anodyne-evaluation/src/anodyne_evaluation/graph_judges/ontology.py:107-112 | The score lies in [0, 1] and is 1 exactly when no violation is counted |
| CheckerAgreement.CheckersAgree | packages/anodyne-graph/src/anodyne_graph/constraints.py:88-128 | On every dataset the validator's edge violations equal the judge's, and its unknown node types equal the judge's node-type violations |
| CheckerAgreement.PerfectScoreConforms | packages/anodyne-graph/src/anodyne_graph/constraints.py:119-149 | With numeric bounds a judge score of 1 implies the validator conforms; the two are equivalent when values have their declared datatypes and constraints are ones both read alike |
| CheckerAgreement.PerfectScoreConformsIff | packages/anodyne-graph/src/anodyne_graph/constraints.py:250-267 | Whatever the bounds: on a dataset the judge scores 1 the validator conforms exactly when each bound that is neither absent nor a number converts and admits every value of its numeric property |
| CheckerAgreement.ConformingScoresOneIff | packages/anodyne-evaluation/src/anodyne_evaluation/graph_judges/ontology.py:31-54 | Conversely a dataset the validator reports nothing on scores 1 exactly when every present value has its declared datatype, none has an empty choice list, and the bounds of non-numeric properties admit the numbers they hold |
| CheckerAgreement.TextBoundEscapesJudge | packages/anodyne-evaluation/src/anodyne_evaluation/graph_judges/ontology.py:48-54 | An input at which it fails: a lone value under a text minimum scores 1 and breaches the minimum |
| Topology.EdgeTypeIndex | packages/anodyne-graph/src/anodyne_graph/topology.py:206-212 | The endpoint-type dictionary answers every lookup as a first-match scan of the ontology |
| Topology.Orient | packages/anodyne-graph/src/anodyne_graph/topology.py:226-236 | An edge is tried as given, then reversed |
| Topology.MapEdges | packages/anodyne-graph/src/anodyne_graph/topology.py:215-249 | The emitted signatures are the first occurrences of the edges' placements, ids carry the position, and placements plus dropped is every edge |
| Topology.DroppedWhenUnfit | packages/anodyne-graph/src/anodyne_graph/topology.py:227-235 | An edge is dropped exactly when no relation fits its endpoint types in either order |
| Topology.EmittedPlusDropped | packages/anodyne-graph/src/anodyne_graph/topology.py:215-249 | On a simple graph with distinct node ids emitted plus dropped is the number of edges, and no signature repeats |
| Topology.PlacedTypes | packages/anodyne-graph/src/anodyne_graph/topology.py:227-232 | An emitted edge's endpoint types match its relation's declared pair, in order or, for an undirected relation, swapped |
| Topology.ProjectionPassesIff | packages/anodyne-graph/src/anodyne_graph/topology.py:215-249 | For every ontology the projection passes the validator's edge check exactly when no edge is carried by an undirected relation declared the other way round or by a relation whose name an earlier one bears |
| Topology.ReadBack | packages/anodyne-graph/src/anodyne_graph/models.py:73-74 | The relation the validator reads under the chosen one's name declares the pair's types exactly when the lookup is neither reversed nor shadowed |
| Topology.AlwaysPassesIff | packages/anodyne-graph/src/anodyne_graph/topology.py:206-249 | Every projection of every graph passes exactly when each relation's declared pair, and an undirected one's swapped pair, is looked up undistorted |
| Topology.DirectedPassesIff | packages/anodyne-graph/src/anodyne_graph/from_sample.py:149-151 | Over directed relations, as learned from a sample, every projection passes exactly when each relation that is the first to join its types is also the first of its name |
| Topology.RepeatedNameFails | packages/anodyne-graph/src/anodyne_graph/from_sample.py:116-127 | Two directed relations of one name into one type: no lookup is reversed, yet the projection of a single edge fails |
| Topology.UniqueNamesMisreadIff | packages/anodyne-graph/src/anodyne_graph/topology.py:206-212 | With unique relation names only a reversed pair fails |
| Topology.NeverReversibleReadsBack | packages/anodyne-graph/src/anodyne_graph/topology.py:208-212 | Unique names and relations that are directed or join equal types are enough for every projection to pass |
| Topology.DistortedPairFails | packages/anodyne-graph/src/anodyne_graph/topology.py:208-232 | Every projection of an edge between a pair of types that is looked up reversed or shadowed fails |
| Topology.PairProjected | packages/anodyne-graph/src/anodyne_graph/topology.py:208-232 | And there is one, on two vertices |
| Procedural.DefaultBlocksKeepBudget | packages/anodyne-graph/src/anodyne_graph/topology.py:50-57 | Without an explicit list there are as many blocks as asked for, between 1 and the node count; they are positive, differ by at most one and add up to the node budget |
| Procedural.AssignedTypes | packages/anodyne-graph/src/anodyne_graph/topology.py:184-203 | Every vertex gets a declared type |
| Procedural.RoundRobin | packages/anodyne-graph/src/anodyne_graph/topology.py:203 | Without communities the declared types follow one another, round and round |
| Procedural.CommunitiesTyped | packages/anodyne-graph/src/anodyne_graph/topology.py:199-202 | One community is one type; with no more communities than node types, under distinct names, different communities are different types |
| Procedural.ExplicitBlocksLoseNodes | packages/anodyne-graph/src/anodyne_graph/topology.py:50-57 | Over one node type, shards that share an explicit block list lose nodes in the merge exactly when the blocks add up to more than the shard size |
| Procedural.PairInOneRowShards | packages/anodyne-graph/src/anodyne_graph/topology.py:276-295 | Such an input: a block of two nodes in shards of one row |
| Procedural.MintNodes | packages/anodyne-graph/src/anodyne_graph/topology.py:287-303 | Node i of a shard has the id `type:start+i` and the assigned type |
| Procedural.GenerateShard | packages/anodyne-graph/src/anodyne_graph/topology.py:261-312 | A shard on any simple graph: emitted plus dropped is every edge, it is closed with distinct signatures, and it passes the edge check exactly when no edge of the graph is misread |
| Shards.PlanShards | packages/anodyne-workflows/src/anodyne_workflows/activities.py:163-171 | The loop computes the plan, one empty shard when there is nothing to plan |
| Shards.PlanTiles | packages/anodyne-workflows/src/anodyne_workflows/activities.py:145-171 | A positive target is tiled contiguously from 0 by shards of 1 to shard_rows rows, all but the last full |
| Shards.Assemble | packages/anodyne-workflows/src/anodyne_workflows/handlers.py:559-583 | The merge keeps the first shard's ontology, the first node under each id and the first edge under each signature, in order |
| Shards.MergeKeepsFirst | packages/anodyne-workflows/src/anodyne_workflows/handlers.py:567-573 | For any shards the merge has unique ids and signatures, loses no id or signature, and a node survives exactly when it is the first of its id |
| Shards.MergeClosed | packages/anodyne-workflows/src/anodyne_workflows/handlers.py:567-573 | Closed shards merge into a closed graph |
| Shards.ShardingIsDisjointUnion | packages/anodyne-graph/src/anodyne_graph/topology.py:290-305 | Shards within their budgets merge without losing a node or an edge, and full shards give exactly the target number of nodes |
| Shards.OverrunMerges | packages/anodyne-graph/src/anodyne_graph/topology.py:292-295 | The merge loses nodes exactly when two shards number nodes of one type alike, against the comment there |
| GraphPipeline.MergedPassesIff | packages/anodyne-workflows/src/anodyne_workflows/handlers.py:559-583 | Shards that each pass the validator's edge check pass it once merged exactly when no edge has an endpoint whose id an earlier node, of its own or an earlier shard, holds under another type |
| GraphPipeline.MergedPasses | packages/anodyne-workflows/src/anodyne_workflows/handlers.py:559-583 | In particular when equal ids carry equal types |
| GraphPipeline.AgreeingMergePassesIff | packages/anodyne-workflows/src/anodyne_workflows/handlers.py:559-583 | And then closed shards pass once merged exactly when each passes on its own: merging hides no bad edge |
| GraphPipeline.RetypedEndpointFails | packages/anodyne-workflows/src/anodyne_workflows/handlers.py:567-570 | An input at which it fails: an earlier shard holds an endpoint's id under another type |
| GraphPipeline.BlocksFill | packages/anodyne-graph/src/anodyne_graph/topology.py:50-57 | Default blocks give a shard the nodes it was asked for; an explicit list does exactly when it adds up to them |
| GraphPipeline.GenerateDataset | packages/anodyne-workflows/src/anodyne_workflows/handlers.py:512-583 | The procedural run for any ontology, abstract graphs and target: distinct ids and signatures, no dangling edge, and no edge violation exactly when no edge of the graphs is misread; when every graph has the nodes asked for, exactly target nodes (one for an empty budget) and every drawn edge present or counted dropped |
| GraphPipeline.ReadsBackReadsAll | packages/anodyne-graph/src/anodyne_graph/topology.py:206-212 | An ontology that reads back misreads no edge of any graph |
| LlmPipeline.GenerateLlmDataset | packages/anodyne-workflows/src/anodyne_workflows/handlers.py:512-583 | The model-driven run for any responses: an error exactly when some shard is unusable, else at most target nodes of declared types, distinct ids and signatures, no dangling edge, and no edge violation unless a relation is exposed |
| LlmPipeline.PairsPassIff | packages/anodyne-workflows/src/anodyne_workflows/handlers.py:559-583 | The merge of the shards of any two responses passes the edge check exactly when no usable relation has an endpoint type whose ids can be those of another declared type |
| LlmPipeline.UnambiguousNotExposed | packages/anodyne-graph/src/anodyne_graph/generator.py:207-213 | Only ambiguous type names expose a relation |
| LlmGraph.NodeProperties | packages/anodyne-graph/src/anodyne_graph/generator.py:216-233 | The property loop fakes, coerces or synthesizes each declared property as specified |
| LlmGraph.FilledNames | packages/anodyne-graph/src/anodyne_graph/generator.py:223-233 | A node carries exactly the property names its type declares |
| LlmGraph.PiiNeverTrusted | packages/anodyne-graph/src/anodyne_graph/generator.py:226-228 | A personal-data property has the faked value whatever the model supplied |
| LlmGraph.PropertySourced | packages/anodyne-graph/src/anodyne_graph/generator.py:225-232 | The last property of its name holds the model's value, coerced, when it is not personal data and the model gave one that is not null, and a synthesized one exactly when it gave none |
| LlmGraph.ShardValues | packages/anodyne-graph/src/anodyne_graph/generator.py:192-232 | Every node of a generated shard comes from the first item of its type and key, whose values fill it so |
| LlmGraph.BuildNodes | packages/anodyne-graph/src/anodyne_graph/generator.py:183-214 | The node loop with its early exit computes the specified fold over the raw items |
| LlmGraph.NodesSound | packages/anodyne-graph/src/anodyne_graph/generator.py:183-214 | For every parsed output: at most count nodes, declared types, exactly the declared properties, distinct (type, key) pairs |
| LlmGraph.NodesComplete | packages/anodyne-graph/src/anodyne_graph/generator.py:196-213 | A typed item with a key is in the shard unless the shard is full |
| LlmGraph.UnambiguousIdsUnique | packages/anodyne-graph/src/anodyne_graph/generator.py:205-213 | Node ids are distinct unless one type name followed by a colon starts another |
| LlmGraph.ColonFreeUnambiguous | packages/anodyne-graph/src/anodyne_graph/generator.py:210 | Colon-free type names are never ambiguous |
| LlmGraph.AmbiguousIdsCollide | packages/anodyne-graph/src/anodyne_graph/generator.py:207-213 | Any ambiguous pair of type names has a two-item output whose node ids collide |
| LlmGraph.TypesOfEqualIds | packages/anodyne-graph/src/anodyne_graph/generator.py:205-213 | Nodes of declared types that share an id share their type unless one type name, followed by a colon, starts the other |
| LlmGraph.BuildEdges | packages/anodyne-graph/src/anodyne_graph/generator.py:267-314 | The edge loop emits the first occurrence of each resolved signature, with positional ids |
| LlmGraph.EdgesSound | packages/anodyne-graph/src/anodyne_graph/generator.py:278-314 | For every parsed output edges have distinct signatures and ids, and the validator finds nothing unknown, dangling or of the wrong types |
| LlmGraph.EdgesComplete | packages/anodyne-graph/src/anodyne_graph/generator.py:289-298 | With unique node ids the domain/range re-check never fires: an edge is kept exactly when both endpoints resolve |
| LlmGraph.Generate | packages/anodyne-graph/src/anodyne_graph/generator.py:159-170 | The whole filter: a sound shard, or an error exactly when the node list is not a list, the budget is empty, or no item has a declared type |
| Selection.RoundBounds | packages/anodyne-graph/src/anodyne_graph/perturb.py:54-55 | Half-even rounding gives the nearest integer, the even one on a tie, and stays within the range |
| Selection.RoundsUniquely | packages/anodyne-graph/src/anodyne_graph/perturb.py:54-55 | There is exactly one such integer |
| Selection.Affected | packages/anodyne-graph/src/anodyne_graph/perturb.py:50-55 | The share intensity * total, rounded to the nearest integer (the even one on a tie) for intensities in [0, 1]; none at 0 or below, all at 1 or above |
| Selection.SelectedSize | packages/anodyne-graph/src/anodyne_graph/perturb.py:58-69 | Exactly as many positions are selected as ranks were drawn |
| Selection.SelectionIgnoresOrder | packages/anodyne-graph/src/anodyne_graph/perturb.py:58-69 | With distinct ids the same draw selects the same ids however the list is ordered |
| Rewiring.DegreePreservingSwaps | packages/anodyne-graph/src/anodyne_graph/perturb.py:143-155 | On two or more edges the in-place loop performs every drawn swap over the id-sorted ranking; on fewer it does nothing |
| Rewiring.SwapsKeepDegrees | packages/anodyne-graph/src/anodyne_graph/perturb.py:143-155 | Any number of swaps keeps every node's in- and out-degree, the multiset of targets, and all of each edge but its target |
| Rewiring.SwapsIgnoreOrder | packages/anodyne-graph/src/anodyne_graph/perturb.py:148-154 | With distinct ids an edge ends with the same target however the input list is ordered |
| Rewiring.SwapsDependOnOrder | packages/anodyne-graph/src/anodyne_graph/perturb.py:58-69 | An input with a repeated id where it fails: after one swap a third edge's target depends on which of the two comes first |
| Rewiring.PicksAnother | packages/anodyne-graph/src/anodyne_graph/perturb.py:132-140 | A different endpoint is picked exactly when there is one, and it is an existing id |
| Rewiring.PicksThird | packages/anodyne-graph/src/anodyne_graph/perturb.py:132-140 | While a third id exists no self-loop is picked, and every third id can be picked |
| Rewiring.PlainRewire | packages/anodyne-graph/src/anodyne_graph/perturb.py:123-129 | The in-place loop rewires exactly the selected positions, consuming draws in list order |
| Rewiring.RewireExact | packages/anodyne-graph/src/anodyne_graph/perturb.py:111-140 | With two node ids exactly intensity * edges, rounded, change target, each to an existing node and not to a self-loop while a third node exists; out-degrees stay |
| Rewiring.RewireOrderExact | packages/anodyne-graph/src/anodyne_graph/perturb.py:124-128 | Plain rewiring gives an edge one target in two arrangements, over all streams, exactly when it has no candidate or both treat it alike: unselected, or selected with one candidate or in its turn (the module documentation claims it always) |
| Rewiring.RewiringDependsOnOrder | packages/anodyne-graph/src/anodyne_graph/perturb.py:124-128 | An input at which it differs: two parallel edges over four nodes, in either order |
| Rewiring.Rewire | packages/anodyne-graph/src/anodyne_graph/perturb.py:111-129 | The two modes and their inputs, including the empty edge list |
| Dropout.DropoutInduced | packages/anodyne-graph/src/anodyne_graph/perturb.py:161-180 | Node dropout removes exactly the rounded share and keeps, in order, exactly the induced closed subgraph; edge dropout removes the rounded share of what is left |
| Dropout.DropoutShare | packages/anodyne-graph/src/anodyne_graph/perturb.py:171-179 | For intensities in [0, 1] each stage removes intensity * size of its list, rounded |
| Dropout.TargetText | packages/anodyne-graph/src/anodyne_graph/perturb.py:168-170 | What "nodes", "edges", "both" and any other target text remove |
| Dropout.ZeroIntensityIff | packages/anodyne-graph/src/anodyne_graph/perturb.py:23-24 | Intensity 0 changes nothing exactly when nodes are not targeted or the input had no dangling edge (the documentation claims it always) |
| Dropout.DropoutOrderExact | packages/anodyne-graph/src/anodyne_graph/perturb.py:161-180 | With the same draws every reordering of the input leaves the same nodes and edges exactly when neither stage drops one of two different elements with one id and leaves the other |
| Dropout.DropOrderExact | packages/anodyne-graph/src/anodyne_graph/perturb.py:58-69 | The same for one draw over any list of elements with ids |
| Dropout.DropoutIgnoresOrder | packages/anodyne-graph/src/anodyne_graph/perturb.py:161-180 | So with distinct ids reordering the input leaves the same nodes and edges |
| Violations.ViolateNodeCorrupts | packages/anodyne-graph/src/anodyne_graph/perturb.py:220-251 | A corrupted node has a foreign type or one declared property that now fails, and agrees with the original elsewhere |
| Violations.LadderExact | packages/anodyne-graph/src/anodyne_graph/perturb.py:220-251 | The first possible kind is applied (out of range, bad choice, missing, wrong datatype) to the least named property that allows it and is not personal data, the first declared on equal names; nothing else of the node changes; the node is retyped exactly when its type is unknown or no kind is possible |
| Violations.RetypedIff | packages/anodyne-graph/src/anodyne_graph/perturb.py:229-251 | The type changes exactly when it is unknown or no property other than personal data has a numeric bound, a choice list, non-nullability or a known datatype |
| Violations.CorruptionCharged | packages/anodyne-graph/src/anodyne_graph/perturb.py:220-251 | The judge charges a corrupted node at least once, and a previously conforming one exactly once |
| Violations.PiiUntouched | packages/anodyne-graph/src/anodyne_graph/perturb.py:24-25 | Corruption never writes or removes a personal-data property |
| Violations.NodeStageIgnoresOrder | packages/anodyne-graph/src/anodyne_graph/perturb.py:194-195 | The node stage treats a node the same wherever it stands in the list |
| Violations.ViolatedEdgeFails | packages/anodyne-graph/src/anodyne_graph/perturb.py:254-263 | A repointed edge always breaks its relation's rule |
| Violations.WrongTargetsExact | packages/anodyne-graph/src/anodyne_graph/perturb.py:259-262 | An edge may be repointed exactly to the ids of nodes of another type than its relation's target, in sorted order |
| Violations.EdgeStageOrderExact | packages/anodyne-graph/src/anodyne_graph/perturb.py:196-197 | The edge stage leaves an edge alike in two arrangements, over all streams, exactly when it is selected in neither; in both, with at most one wrong target or in its turn; or in one only, with itself as its one outcome |
| Violations.EdgeStageDependsOnOrder | packages/anodyne-graph/src/anodyne_graph/perturb.py:254-263 | An input at which it differs: two parallel edges among two people and a place, in either order |
| Violations.ViolateNodes | packages/anodyne-graph/src/anodyne_graph/perturb.py:194-195 | The in-place node loop corrupts exactly the selected positions |
| Violations.ViolateEdges | packages/anodyne-graph/src/anodyne_graph/perturb.py:196-197 | The in-place edge loop repoints exactly the selected positions, consuming draws in list order |
| Violations.OntologyViolation | packages/anodyne-graph/src/anodyne_graph/perturb.py:186-198 | Nodes first, then edges against the corrupted nodes |
| Violations.InjectionIsCaught | packages/anodyne-graph/src/anodyne_graph/perturb.py:186-263 | For every draw the judge charges at least one violation for each of the intensity * nodes and intensity * edges, rounded, that are selected; on a conforming input exactly the rounded share of nodes, and exactly the selected edges plus those touching a retyped node |
| Strings.StripExact | packages/anodyne-text/src/anodyne_text/quality.py:21-26 | Stripping removes nothing but space, from both ends, until none is left there |
| Strings.StripUnique | packages/anodyne-text/src/anodyne_text/quality.py:37-43 | Texts that are equal up to outer space strip alike |
| TextPipeline.Deduplicator.IsDuplicate | packages/anodyne-text/src/anodyne_text/quality.py:37-43 | Answers whether the key was seen and records it |
| TextPipeline.ExtractRows | packages/anodyne-text/src/anodyne_text/generator.py:37-51 | Fails exactly on unparseable or non-list output; otherwise the rows are the objects holding every field as a string |
| TextPipeline.RowsInOrder | packages/anodyne-text/src/anodyne_text/generator.py:45-51 | One row for each item that is an object with a string under every target field, in order and with exactly those strings |
| TextPipeline.Absorb | packages/anodyne-text/src/anodyne_text/generator.py:111-119 | The inner loop with its early exit extends the sifted prefix, keeping the deduplicator in step |
| TextPipeline.Generate | packages/anodyne-text/src/anodyne_text/generator.py:82-126 | For any responses: the first count rows of the sifted concatenation of all batches, an error exactly when that is empty, and exactly as many calls as it takes to reach count within max_attempts |
| TextPipeline.TableSound | packages/anodyne-text/src/anodyne_text/quality.py:6-24 | Every row holds the strings of an item of some response, its stripped primary text has 1 to 20000 characters, and no two rows share one |
| TextPipeline.PoolComplete | packages/anodyne-text/src/anodyne_text/generator.py:111-119 | The stripped text of every row of acceptable length is represented in the sifted result |
| Cypher.PassesAreOneMap | packages/anodyne-graph/src/anodyne_graph/export.py:285-291 | The six rewriting passes equal one per-character escape map |
| Cypher.RoundTrip | packages/anodyne-graph/src/anodyne_graph/export.py:285-292 | Reading the literal by openCypher 9's EscapedChar gives every string back and stops exactly at the closing quote |
| Cypher.NoRawControls | packages/anodyne-graph/src/anodyne_graph/export.py:286-292 | The literal holds no raw control character |
| Cypher.LiteralsInjective | packages/anodyne-graph/src/anodyne_graph/export.py:316-318 | Two literals are equal exactly when the strings are, so an endpoint match on `_nid` compares the ids themselves |
| Gnn.DecodesBack | packages/anodyne-graph/src/anodyne_graph/export.py:369-393 | Every index is in range, and decoding gives back all node ids and types and exactly the edges with both endpoints present, in order, even with repeated ids |
| Gnn.VocabulariesExact | packages/anodyne-graph/src/anodyne_graph/export.py:371-384 | The vocabularies are sorted, duplicate-free and exactly the types in use |
| Gnn.Export | packages/anodyne-graph/src/anodyne_graph/export.py:376-378 | The feature matrix has the right shape and each row is 1 exactly at its node's type |
| Bias.ColumnChosen | packages/anodyne-perturbation/src/anodyne_perturbation/tabular.py:207-209 | The named column is the chosen one, the first column when no column has the name |
| Bias.DistinctInOrder | packages/anodyne-perturbation/src/anodyne_perturbation/tabular.py:211-219 | The candidates for the most frequent value stand in the order of their first occurrences |
| Bias.TopIsFirstMaximum | packages/anodyne-perturbation/src/anodyne_perturbation/tabular.py:218-219 | The default target is the first value of highest count |
| Bias.Shuffle | packages/anodyne-perturbation/src/anodyne_perturbation/tabular.py:228-229 | The in-place shuffle performs the drawn swaps from the top down |
| Bias.ShuffleKeeps | packages/anodyne-perturbation/src/anodyne_perturbation/tabular.py:229 | A shuffle is a rearrangement |
| Bias.ShuffleReaches | packages/anodyne-perturbation/src/anodyne_perturbation/tabular.py:228-229 | Every rearrangement arises from some draws |
| Bias.BiasReindex | packages/anodyne-perturbation/src/anodyne_perturbation/tabular.py:192-230 | The method computes the specified order, the identity on degenerate columns, or the size error |
| Bias.ResamplingExact | packages/anodyne-perturbation/src/anodyne_perturbation/tabular.py:206-230 | For every draw: n rows in range, exactly round(ratio*n) carrying the target; the size error exactly when that count leaves 0..n on a non-degenerate column |
| Bias.ResamplingReaches | packages/anodyne-perturbation/src/anodyne_perturbation/tabular.py:224-230 | Conversely every order of n rows with that many carriers is returned for some draws |
| Bias.BiasedTable | packages/anodyne-perturbation/src/anodyne_perturbation/tabular.py:85-87 | With a ratio in [0, 1] the table keeps its row count, each output row is a whole input row, and exactly round(ratio*n) rows carry the target |
| Ordering.StrLeAtDifference | packages/anodyne-perturbation/src/anodyne_perturbation/tabular.py:140 | Texts sort by the code points at their first difference, and after their prefixes |
| ConceptDrift.RotatedCell | packages/anodyne-perturbation/src/anodyne_perturbation/tabular.py:139-144 | Nulls stay null; every other cell becomes the next observed category in sorted order, the last wrapping to the first |
| ConceptDrift.RotationInjective | packages/anodyne-perturbation/src/anodyne_perturbation/tabular.py:142-144 | Cells are equal after the rotation exactly when they were before |
| ConceptDrift.ObservedUnchanged | packages/anodyne-perturbation/src/anodyne_perturbation/tabular.py:140-144 | The set of observed categories is unchanged |
| ConceptDrift.HistogramShifts | packages/anodyne-perturbation/src/anodyne_perturbation/tabular.py:143-144 | Each category's count becomes the next category's; the number of nulls stays |
| ConceptDrift.RotatedTimesCell | packages/anodyne-perturbation/src/anodyne_perturbation/tabular.py:139-144 | Repeated drift moves every cell that many places along the same cycle |
| ConceptDrift.FullCycleRestores | packages/anodyne-perturbation/src/anodyne_perturbation/tabular.py:139-144 | Repeated drift restores the column exactly at multiples of the number of categories |
| Media.ShardingInvisible | packages/anodyne-workflows/src/anodyne_workflows/activities.py:163-171 | Whatever the shard size, the concatenated shards hold items 0..N-1 exactly once, in order |
| Media.FragmentStore.Put | packages/anodyne-workflows/src/anodyne_workflows/handlers.py:336-339 | The next shard's fragment is stored under its own key and no other object changes |
| Media.FragmentStore.Assemble | packages/anodyne-workflows/src/anodyne_workflows/handlers.py:432-436 | The fragments in key order, sorted by index; an error exactly when one is missing |
| Media.Manifest | packages/anodyne-workflows/src/anodyne_workflows/handlers.py:342-358 | Assembling the stored shards gives the unsharded list, so the final sort is the identity |
| Media.PlanItems | packages/anodyne-audio/src/anodyne_audio/generator.py:37-66 | Each plan is a function of its index: the given prompt, else the sentence seeded by the index |
| Media.AudioShard | packages/anodyne-workflows/src/anodyne_workflows/handlers.py:320-335 | One shard's entries are its plans, each synthesized and keyed by its index |
| Media.ClipKeysDistinct | packages/anodyne-workflows/src/anodyne_workflows/handlers.py:320-335 | No two clips of a job are stored under one key, whatever their formats |
| Media.AudioManifest | packages/anodyne-workflows/src/anodyne_workflows/handlers.py:302-358 | Plan, generate and assemble: the audio manifest does not depend on sharding, for a provider that is a function of its request |
| Media.GenerateItems | packages/anodyne-video/src/anodyne_video/generator.py:36-70 | Each clip is a function of its index |
| Media.VideoShard | packages/anodyne-workflows/src/anodyne_workflows/handlers.py:405-418 | One shard's entries are its clips under the keys they are uploaded to |
| Media.VideoManifest | packages/anodyne-workflows/src/anodyne_workflows/handlers.py:378-445 | Plan, generate and assemble: the video manifest does not depend on sharding |
| Media.SeedsDistinct | packages/anodyne-video/src/anodyne_video/generator.py:50-54 | Clip seeds are distinct within a job, and across base seeds while indices stay below the stride |
| Media.PromptsDistinct | packages/anodyne-video/src/anodyne_video/generator.py:20-30 | Different indices never get the same prompt |
| Media.Build | packages/anodyne-image/src/anodyne_image/prompts.py:20-31 | Each label and prompt is a function of its index |
| Media.LabelsFrom | packages/anodyne-image/src/anodyne_image/prompts.py:33-42 | Labels come from the first categorical field that lists choices, else from the labels directive |
| Media.PromptMentions | packages/anodyne-image/src/anodyne_image/prompts.py:44-55 | A prompt mentions the description, the label and every directive that is set; with none of them it is the default text |
| Media.ImageManifest | packages/anodyne-workflows/src/anodyne_workflows/image_activities.py:67-91 | Image labels and prompts do not depend on sharding |
| Media.ImageSeedsFollowShards | packages/anodyne-workflows/src/anodyne_workflows/image_activities.py:56-59 | Image seeds do depend on sharding: index plus its quotient by the shard size; within a job they are distinct |
| Aggregator.AppliedWeights | packages/anodyne-evaluation/src/anodyne_evaluation/aggregator.py:44-58 | Applied weights add up to 1 and the overall score is their weighted sum; they are non-negative when no weight is negative or the total is not positive |
| Aggregator.OverallBetweenIff | packages/anodyne-evaluation/src/anodyne_evaluation/aggregator.py:44-58 | Whatever experts of given distinct dimensions score, the overall score lies between the least and the greatest exactly when no weight is negative or the total is not positive |
| Aggregator.OverallBetween | packages/anodyne-evaluation/src/anodyne_evaluation/aggregator.py:44-58 | Under that condition it lies between any bounds on the scores |
| Aggregator.OverallMonotoneIff | packages/anodyne-evaluation/src/anodyne_evaluation/aggregator.py:44-58 | Under that condition, and only then, raising scores never lowers the overall score |
| Aggregator.ScaleInvariant | packages/anodyne-evaluation/src/anodyne_evaluation/aggregator.py:44-58 | Scaling all weights by a positive factor changes nothing in the report |
| Aggregator.DroppingAnExpert | packages/anodyne-evaluation/src/anodyne_evaluation/aggregator.py:3-7 | An expert that did not apply drops out of both sums: total*overall = score*weight + (total-weight)*overall of the rest |
| Aggregator.NegativeWeightEscapes | packages/anodyne-evaluation/src/anodyne_evaluation/aggregator.py:56-58 | An input outside the condition: weights 2 and -1 take scores 1 and 0 to an overall score of 2 |

## Left out

- Media.ImageManifest: its entries leave out the object key and mime type, which come from the provider's bytes.
- Rewiring.SwapsIgnoreOrder: is stated for distinct ids; for repeated ids there is a failing input (`Rewiring.SwapsDependOnOrder`) but no exact condition, which would be one on the permutation the drawn swaps compose to.
- The from-sample engine around `map_edges`: learning the ontology, degrees and attributes, and the verbatim-overlap guard; `Topology.DirectedPassesIff` is about every directed ontology it can learn.
- Edits of the dataset spec during a run: handler, target and format are fixed per job.
- A class for the workflow and for the review task: the protocol is a transition system on values, because its claims are about interleavings of steps and not about one object's methods.
- Objects a handler stores beside its shards and artifact (clips, images, the text manifest), and publishing progress.
- Temporal, SQL, S3, Redis, authentication and the failure modes inside them; a database or store call is one atomic step.
- A "failed" status of the job, exactly one version per run, and unique edge ids after a merge: the code promises none of them.
- The detail strings of violations; the texts that `float` and `int` accept are parameters.
- SHACL validation, RDF, OWL, GraphML, CSV and Parquet exports, and the sanitised names the Cypher script uses for labels and keys.
- `subclass_of` and properties of edge types: no modelled code reads them.
- Values are JSON values with reals for floats: NaN, infinities, rounding of sums and products, and comparisons of integers too large for a float are not modelled; the aggregator's final rounding to six digits is omitted.
- Strings are sequences of Unicode scalar values: lone surrogates are not modelled, and `lower()` folds ASCII letters only.
- Cypher.RoundTrip: reads `\u` with four hexadecimal digits and `\U` with eight; the grammar's case-insensitive spelling would also allow other readings.
- JSON parsing and the extraction of fenced blocks: a model response enters as the parsed value, or as unparseable.
- Prompts of the text and graph generators: responses are arbitrary, so nothing depends on them.
- The remaining perturbation families of tabular and text data (noise, covariate and temporal drift, outliers, edge cases, relabelling): pointwise arithmetic or lookups.
- Statistical judges, synthesizers and graph generators from libraries.

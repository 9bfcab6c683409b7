/** Plan, generate and merge: a sharded graph dataset as a whole against the validator. */
module GraphPipeline {
  import opened Sequences
  import opened Strings
  import opened GraphModels
  import opened Validator
  import opened Topology
  import opened Shards
  import opened Procedural

  // Merging shards that pass the edge check

  lemma TypeOfUnique(nodes: seq<Node>, n: Node)
    requires UniqueIds(nodes) && n in nodes
    ensures n.id in TypesById(nodes) && TypesById(nodes)[n.id] == n.typ
  {
    hide NodesById, TypesById;
    var i :| 0 <= i < |nodes| && nodes[i] == n;
    LookupOfUnique(nodes, i);
    DictionariesAgree(nodes);
  }

  /** The merge gives an id the type of its first holder. */
  lemma SurvivorType(nodes: seq<Node>, id: string)
    requires HasId(nodes, id)
    ensures FirstNamed(nodes, NodeId, id).Some? && id in TypesById(FirstOccurrences(nodes, NodeId))
    ensures TypesById(FirstOccurrences(nodes, NodeId))[id] == FirstNamed(nodes, NodeId, id).value.typ
  {
    hide FirstNamed, FirstOccurrences, TypesById;
    FirstNamedFinds(nodes, NodeId, id);
    var h :| 0 <= h < |nodes| && NodeId(nodes[h]) == id;
    assert nodes[h] in nodes;
    var n := FirstNamed(nodes, NodeId, id).value;
    var i := FirstNamedAt(nodes, NodeId, id);
    assert NodeId(n) !in KeySet(nodes[..i], NodeId);
    FirstOccurrencesMember(nodes, NodeId, n);
    FirstOccurrencesKeys(nodes, NodeId);
    TypeOfUnique(FirstOccurrences(nodes, NodeId), n);
  }

  /** The shard's own dictionary gives the id the type that its first holder over all shards has. */
  ghost predicate KeepsType(shards: seq<Dataset>, i: nat, id: string)
    requires i < |shards|
  {
    var first := FirstNamed(NodesOf(shards, |shards|), NodeId, id);
    && id in TypesById(shards[i].nodes)
    && first.Some? && first.value.typ == TypesById(shards[i].nodes)[id]
  }

  /** No edge has an endpoint whose id an earlier node, of its own or an earlier shard, holds under another type. */
  ghost predicate EndpointsKept(shards: seq<Dataset>) {
    forall i, e :: 0 <= i < |shards| && e in shards[i].edges ==>
      KeepsType(shards, i, e.source) && KeepsType(shards, i, e.target)
  }

  ghost predicate ShardsPass(ont: Ontology, shards: seq<Dataset>) {
    forall i :: 0 <= i < |shards| ==>
      EdgeFindings(ont, TypesById(shards[i].nodes), shards[i].edges, |shards[i].edges|) == []
  }

  ghost predicate MergedFrom(merged: Dataset, shards: seq<Dataset>) {
    && merged.nodes == FirstOccurrences(NodesOf(shards, |shards|), NodeId)
    && merged.edges == FirstOccurrences(EdgesOf(shards, |shards|), EdgeSignature)
  }

  /** An edge that passes under one dictionary passes under another exactly when both give its endpoints one type. */
  lemma PassesUnderBoth(ont: Ontology, own: map<string, string>, other: map<string, string>, e: Edge, f: Edge)
    requires EdgeFinding(ont, own, e) == [] && EdgeSignature(e) == EdgeSignature(f)
    ensures e.source in own && e.target in own
    ensures EdgeFinding(ont, other, f) == [] <==>
            && e.source in other && e.target in other
            && other[e.source] == own[e.source] && other[e.target] == own[e.target]
  {
    hide Ontology.EdgeTypeNamed;
  }

  lemma {:induction false} NodeInUnion(shards: seq<Dataset>, k: nat, i: nat, n: Node)
    requires i < k <= |shards| && n in shards[i].nodes
    ensures n in NodesOf(shards, k)
  {
    if i < k - 1 {
      NodeInUnion(shards, k - 1, i, n);
    }
  }

  lemma {:induction false} EdgeInUnion(shards: seq<Dataset>, k: nat, i: nat, e: Edge)
    requires i < k <= |shards| && e in shards[i].edges
    ensures e in EdgesOf(shards, k)
  {
    if i < k - 1 {
      EdgeInUnion(shards, k - 1, i, e);
    }
  }

  /** Under the merged dictionary an endpoint has its shard's type exactly when the shard's type is kept. */
  lemma KeptInMerge(shards: seq<Dataset>, merged: Dataset, i: nat, id: string)
    requires MergedFrom(merged, shards) && i < |shards| && id in TypesById(shards[i].nodes)
    ensures id in TypesById(merged.nodes)
    ensures TypesById(merged.nodes)[id] == TypesById(shards[i].nodes)[id] <==> KeepsType(shards, i, id)
  {
    hide FirstOccurrences, TypesById, FirstNamed, NodesOf, NodesById;
    DictionariesAgree(shards[i].nodes);
    var n := NodesById(shards[i].nodes)[id];
    NodeInUnion(shards, |shards|, i, n);
    var all := NodesOf(shards, |shards|);
    var h :| 0 <= h < |all| && all[h] == n;
    assert NodeId(all[h]) == id;
    SurvivorType(all, id);
  }

  /** One edge of one shard against its representative in the merge. */
  lemma RepresentativePasses(ont: Ontology, shards: seq<Dataset>, merged: Dataset, i: nat, e: Edge, f: Edge)
    requires MergedFrom(merged, shards) && ShardsPass(ont, shards)
    requires i < |shards| && e in shards[i].edges && EdgeSignature(e) == EdgeSignature(f)
    ensures EdgeFinding(ont, TypesById(merged.nodes), f) == [] <==>
            KeepsType(shards, i, e.source) && KeepsType(shards, i, e.target)
  {
    hide MergedFrom, TypesById, EdgeFindings, EdgeFinding, KeepsType;
    var own := TypesById(shards[i].nodes);
    NoFindings(ont, own, shards[i].edges, |shards[i].edges|);
    PassesUnderBoth(ont, own, TypesById(merged.nodes), e, f);
    KeptInMerge(shards, merged, i, e.source);
    KeptInMerge(shards, merged, i, e.target);
  }

  lemma PassingKeeps(ont: Ontology, shards: seq<Dataset>, merged: Dataset)
    requires MergedFrom(merged, shards) && ShardsPass(ont, shards)
    requires forall j :: 0 <= j < |merged.edges| ==> EdgeFinding(ont, TypesById(merged.nodes), merged.edges[j]) == []
    ensures EndpointsKept(shards)
  {
    hide ShardsPass, KeepsType, EdgeFindings, EdgeFinding, TypesById, FirstOccurrences, KeySet, NodesOf, EdgesOf;
    MergeKeepsFirst(shards, merged);
    hide MergedFrom;
    forall i, e | 0 <= i < |shards| && e in shards[i].edges
      ensures KeepsType(shards, i, e.source) && KeepsType(shards, i, e.target)
    {
      EdgeInUnion(shards, |shards|, i, e);
      var j := Representative(shards, merged, e);
      RepresentativePasses(ont, shards, merged, i, e, merged.edges[j]);
    }
  }

  lemma KeepingPasses(ont: Ontology, shards: seq<Dataset>, merged: Dataset)
    requires MergedFrom(merged, shards) && ShardsPass(ont, shards) && EndpointsKept(shards)
    ensures forall j :: 0 <= j < |merged.edges| ==> EdgeFinding(ont, TypesById(merged.nodes), merged.edges[j]) == []
  {
    hide ShardsPass, KeepsType, EdgeFindings, EdgeFinding, TypesById, FirstOccurrences, KeySet, NodesOf, EdgesOf;
    forall j | 0 <= j < |merged.edges| ensures EdgeFinding(ont, TypesById(merged.nodes), merged.edges[j]) == [] {
      var e := merged.edges[j];
      FirstOccurrencesMember(EdgesOf(shards, |shards|), EdgeSignature, e);
      var i := EdgeOrigin(shards, |shards|, e);
      RepresentativePasses(ont, shards, merged, i, e, e);
    }
  }

  /**
   * Shards that each pass the validator's edge check pass it once merged exactly when no edge has an endpoint whose
   * id an earlier node, of its own or an earlier shard, holds under another type.
   */
  lemma {:induction false} MergedPassesIff(ont: Ontology, shards: seq<Dataset>, merged: Dataset)
    requires MergedFrom(merged, shards) && ShardsPass(ont, shards)
    ensures EdgeFindings(ont, TypesById(merged.nodes), merged.edges, |merged.edges|) == [] <==> EndpointsKept(shards)
  {
    hide MergedFrom, ShardsPass, EndpointsKept, EdgeFindings, EdgeFinding, TypesById;
    NoFindings(ont, TypesById(merged.nodes), merged.edges, |merged.edges|);
    if EndpointsKept(shards) {
      KeepingPasses(ont, shards, merged);
    } else if forall j :: 0 <= j < |merged.edges| ==> EdgeFinding(ont, TypesById(merged.nodes), merged.edges[j]) == [] {
      PassingKeeps(ont, shards, merged);
    }
  }

  /** Every edge of the union is represented in the merge. */
  lemma Representative(shards: seq<Dataset>, merged: Dataset, e: Edge) returns (j: nat)
    requires KeySet(merged.edges, EdgeSignature) == KeySet(EdgesOf(shards, |shards|), EdgeSignature)
    requires e in EdgesOf(shards, |shards|)
    ensures j < |merged.edges| && EdgeSignature(merged.edges[j]) == EdgeSignature(e)
  {
    var all := EdgesOf(shards, |shards|);
    var h :| 0 <= h < |all| && all[h] == e;
    assert EdgeSignature(all[h]) in KeySet(all, EdgeSignature);
    j :| 0 <= j < |merged.edges| && EdgeSignature(merged.edges[j]) == EdgeSignature(e);
  }

  /** Equal ids carry equal types, within a shard and across shards. */
  ghost predicate TypesAgree(nodes: seq<Node>) {
    forall i, j :: 0 <= i < |nodes| && 0 <= j < |nodes| && nodes[i].id == nodes[j].id ==> nodes[i].typ == nodes[j].typ
  }

  lemma AgreeingKept(shards: seq<Dataset>, i: nat, id: string)
    requires TypesAgree(NodesOf(shards, |shards|)) && i < |shards| && id in TypesById(shards[i].nodes)
    ensures KeepsType(shards, i, id)
  {
    hide TypesById, NodesById, FirstNamed, NodesOf;
    var all := NodesOf(shards, |shards|);
    DictionariesAgree(shards[i].nodes);
    var n := NodesById(shards[i].nodes)[id];
    NodeInUnion(shards, |shards|, i, n);
    FirstNamedFinds(all, NodeId, id);
    var h :| 0 <= h < |all| && all[h] == n;
    assert NodeId(n) == id;
    var first := FirstNamed(all, NodeId, id).value;
    var k :| 0 <= k < |all| && all[k] == first;
    assert NodeId(first) == id;
  }

  lemma AgreeingEdgeKept(ont: Ontology, shards: seq<Dataset>, i: nat, e: Edge)
    requires TypesAgree(NodesOf(shards, |shards|)) && i < |shards| && e in shards[i].edges
    requires EdgeFindings(ont, TypesById(shards[i].nodes), shards[i].edges, |shards[i].edges|) == []
    ensures KeepsType(shards, i, e.source) && KeepsType(shards, i, e.target)
  {
    hide EdgeFindings, EdgeFinding, TypesById, KeepsType, NodesOf, TypesAgree;
    var own := TypesById(shards[i].nodes);
    NoFindings(ont, own, shards[i].edges, |shards[i].edges|);
    PassesUnderBoth(ont, own, own, e, e);
    AgreeingKept(shards, i, e.source);
    AgreeingKept(shards, i, e.target);
  }

  /** So when equal ids carry equal types, shards that pass the edge check on their own still pass it once merged. */
  lemma {:induction false} MergedPasses(ont: Ontology, shards: seq<Dataset>, merged: Dataset)
    requires MergedFrom(merged, shards) && ShardsPass(ont, shards)
    requires TypesAgree(NodesOf(shards, |shards|))
    ensures EdgeFindings(ont, TypesById(merged.nodes), merged.edges, |merged.edges|) == []
  {
    hide MergedFrom, EdgeFindings, TypesById, KeepsType, NodesOf, TypesAgree;
    MergedPassesIff(ont, shards, merged);
    forall i, e | 0 <= i < |shards| && e in shards[i].edges
      ensures KeepsType(shards, i, e.source) && KeepsType(shards, i, e.target)
    {
      AgreeingEdgeKept(ont, shards, i, e);
    }
  }

  /** An edge's representative has its verdict when equal ids carry equal types and the edge does not dangle. */
  lemma AgreeingVerdict(ont: Ontology, shards: seq<Dataset>, merged: Dataset, i: nat, e: Edge, f: Edge)
    requires MergedFrom(merged, shards) && TypesAgree(NodesOf(shards, |shards|))
    requires i < |shards| && Closed(shards[i].nodes, shards[i].edges) && e in shards[i].edges
    requires EdgeSignature(e) == EdgeSignature(f) && EdgeFinding(ont, TypesById(merged.nodes), f) == []
    ensures EdgeFinding(ont, TypesById(shards[i].nodes), e) == []
  {
    hide MergedFrom, TypesById, NodesById, EdgeFinding, KeepsType, NodesOf, TypesAgree, KeySet;
    var own := TypesById(shards[i].nodes);
    DictionariesAgree(shards[i].nodes);
    AgreeingKept(shards, i, e.source);
    AgreeingKept(shards, i, e.target);
    KeptInMerge(shards, merged, i, e.source);
    KeptInMerge(shards, merged, i, e.target);
    PassesUnderBoth(ont, TypesById(merged.nodes), own, f, e);
  }

  /** And then closed shards whose merge passes pass on their own: merging hides no bad edge. */
  lemma {:induction false} AgreeingMergePassesIff(ont: Ontology, shards: seq<Dataset>, merged: Dataset)
    requires MergedFrom(merged, shards) && TypesAgree(NodesOf(shards, |shards|))
    requires forall i :: 0 <= i < |shards| ==> Closed(shards[i].nodes, shards[i].edges)
    ensures EdgeFindings(ont, TypesById(merged.nodes), merged.edges, |merged.edges|) == [] <==> ShardsPass(ont, shards)
  {
    hide EdgeFindings, EdgeFinding, TypesById, NodesOf, EdgesOf, TypesAgree, Closed, KeySet, FirstOccurrences;
    if ShardsPass(ont, shards) {
      MergedPasses(ont, shards, merged);
    } else if EdgeFindings(ont, TypesById(merged.nodes), merged.edges, |merged.edges|) == [] {
      MergeKeepsFirst(shards, merged);
      NoFindings(ont, TypesById(merged.nodes), merged.edges, |merged.edges|);
      hide MergedFrom;
      forall i | 0 <= i < |shards|
        ensures EdgeFindings(ont, TypesById(shards[i].nodes), shards[i].edges, |shards[i].edges|) == []
      {
        var own, es := TypesById(shards[i].nodes), shards[i].edges;
        NoFindings(ont, own, es, |es|);
        forall k | 0 <= k < |es| ensures EdgeFinding(ont, own, es[k]) == [] {
          EdgeInUnion(shards, |shards|, i, es[k]);
          var j := Representative(shards, merged, es[k]);
          AgreeingVerdict(ont, shards, merged, i, es[k], merged.edges[j]);
        }
      }
    }
  }

  /**
   * They need not pass otherwise: here a shard's edge joins two nodes of type `b`, and an earlier shard holds the
   * source's id under another type.
   */
  lemma {:induction false} RetypedEndpointFails(ont: Ontology, a: string, b: string, x: Node, y: Node, z: Node, e: Edge,
                                                shards: seq<Dataset>, merged: Dataset)
    requires |shards| == 2 && MergedFrom(merged, shards) && a != b
    requires ont.EdgeTypeNamed(e.typ) == Some(EdgeType(e.typ, b, b, true))
    requires x == Node("x", a, map[]) && y == Node("x", b, map[]) && z == Node("y", b, map[])
    requires e.source == "x" && e.target == "y"
    requires |shards[0].nodes| == 1 && shards[0].nodes[0] == x && |shards[0].edges| == 0
    requires |shards[1].nodes| == 2 && shards[1].nodes[0] == y && shards[1].nodes[1] == z
    requires |shards[1].edges| == 1 && shards[1].edges[0] == e
    ensures ShardsPass(ont, shards)
    ensures EdgeFindings(ont, TypesById(merged.nodes), merged.edges, |merged.edges|) != []
  {
    hide TypesById, EdgeFindings, MergedFrom, Ontology.EdgeTypeNamed, FirstNamed, NodesOf;
    assert "x"[0] != "y"[0];
    var own := TypesById(shards[1].nodes);
    assert UniqueIds(shards[1].nodes);
    assert y in shards[1].nodes && z in shards[1].nodes;
    TypeOfUnique(shards[1].nodes, y);
    TypeOfUnique(shards[1].nodes, z);
    forall i | 0 <= i < 2
      ensures EdgeFindings(ont, TypesById(shards[i].nodes), shards[i].edges, |shards[i].edges|) == []
    {
      NoFindings(ont, TypesById(shards[i].nodes), shards[i].edges, |shards[i].edges|);
    }
    MergedPassesIff(ont, shards, merged);
    FirstOfTwo(shards, x);
    assert e in shards[1].edges;
    assert !KeepsType(shards, 1, e.source);
  }

  lemma FirstOfTwo(shards: seq<Dataset>, x: Node)
    requires |shards| == 2 && |shards[0].nodes| == 1 && shards[0].nodes[0] == x
    ensures FirstNamed(NodesOf(shards, |shards|), NodeId, x.id) == Some(x)
  {
    NodesOfAt(shards, 2, 0, 0);
    assert NodesOf(shards, 0) == [];
  }

  // The procedural engine

  /** What one shard is built from: its nodes' types, its abstract graph, its property values. */
  datatype ShardInput = ShardInput(typeOf: seq<string>, graph: seq<(nat, nat)>, props: nat -> Properties)

  ghost predicate WellFormed(input: ShardInput) {
    InRange(input.graph, |input.typeOf|) && Simple(input.graph)
  }

  /** The abstract graph has as many nodes as were asked for: the count, and one for an empty budget. */
  ghost predicate Fills(input: ShardInput, chunk: (nat, nat)) {
    |input.typeOf| == if chunk.1 == 0 then 1 else chunk.1
  }

  /** Types assigned over block sizes fill the chunk exactly when the blocks add up; default blocks always do. */
  lemma BlocksFill(input: ShardInput, chunk: (nat, nat), explicit: seq<int>, nBlocks: int, types: seq<NodeType>,
                   communities: Option<seq<nat>>, total: nat)
    requires |types| > 0 && (communities.Some? ==> |communities.value| == total)
    requires var sizes := BlockSizes(explicit, nBlocks, if chunk.1 == 0 then 1 else chunk.1);
             total == Sum(sizes, |sizes|)
    requires input.typeOf == AssignedTypes(total, types, communities)
    ensures explicit == [] ==> Fills(input, chunk)
    ensures explicit != [] && (forall x :: x in explicit ==> x > 0) ==>
              (Fills(input, chunk) <==> Sum(explicit, |explicit|) == if chunk.1 == 0 then 1 else chunk.1)
  {
    hide Sum, AssignedTypes;
    DefaultBlocksKeepBudget(nBlocks, if chunk.1 == 0 then 1 else chunk.1);
  }

  ghost predicate Reads(ont: Ontology, input: ShardInput)
    requires WellFormed(input)
  {
    ReadsGraph(ont, input.typeOf, input.graph)
  }

  /** No edge of any of the abstract graphs is misread. */
  ghost predicate ReadsAll(ont: Ontology, inputs: seq<ShardInput>)
    requires forall i :: 0 <= i < |inputs| ==> WellFormed(inputs[i])
  {
    forall i :: 0 <= i < |inputs| ==> Reads(ont, inputs[i])
  }

  /** An ontology that reads back misreads nothing. */
  lemma ReadsBackReadsAll(ont: Ontology, inputs: seq<ShardInput>)
    requires ReadsBack(ont) && forall i :: 0 <= i < |inputs| ==> WellFormed(inputs[i])
    ensures ReadsAll(ont, inputs)
  {
    hide ReadsBack, ReadsGraph, Simple;
    forall i | 0 <= i < |inputs| ensures Reads(ont, inputs[i]) {
      NothingMisread(ont, inputs[i].typeOf, inputs[i].graph);
    }
  }

  /** The edges of the first `k` abstract graphs. */
  function Drawn(inputs: seq<ShardInput>, k: nat): int
    requires k <= |inputs|
  {
    if k == 0 then 0 else Drawn(inputs, k - 1) + |inputs[k - 1].graph|
  }

  lemma {:induction false} UnionEdges(shards: seq<Dataset>, inputs: seq<ShardInput>, drops: seq<nat>, k: nat)
    requires k <= |shards| == |inputs| == |drops|
    requires forall i :: 0 <= i < k ==> |shards[i].edges| + drops[i] == |inputs[i].graph|
    ensures |EdgesOf(shards, k)| + Sum(drops, k) == Drawn(inputs, k)
  {
    if k > 0 {
      UnionEdges(shards, inputs, drops, k - 1);
    }
  }

  /** The ids `type:index` carry their types, also where shards overlap. */
  lemma NumberedAgree(shards: seq<Dataset>, starts: seq<nat>)
    requires |starts| == |shards| && forall k :: 0 <= k < |shards| ==> Numbered(shards[k].nodes, starts[k])
    ensures TypesAgree(NodesOf(shards, |shards|))
  {
    hide NodesOf, Decimal;
    var all := NodesOf(shards, |shards|);
    forall p, q | 0 <= p < |all| && 0 <= q < |all| && all[p].id == all[q].id ensures all[p].typ == all[q].typ {
      var k, i := NodeOrigin(shards, |shards|, p);
      var l, j := NodeOrigin(shards, |shards|, q);
      assert Numbered(shards[k].nodes, starts[k]) && Numbered(shards[l].nodes, starts[l]);
      SameNumbered(shards[k].nodes[i], starts[k] + i, shards[l].nodes[j], starts[l] + j);
    }
  }

  ghost predicate BuiltFrom(shard: Dataset, dropped: nat, ont: Ontology, input: ShardInput, start: nat) {
    && WellFormed(input) && shard.ontology == ont
    && |shard.nodes| == |input.typeOf|
    && ShardWithin(shard, (start, |input.typeOf|))
    && |shard.edges| + dropped == |input.graph|
    && (EdgeFindings(ont, TypesById(shard.nodes), shard.edges, |shard.edges|) == [] <==> Reads(ont, input))
  }

  /**
   * The whole procedural run, for any ontology and any abstract graphs: distinct ids and signatures, no dangling edge,
   * and no finding of the validator's edge pass exactly when no edge of the graphs is misread.  When every graph has
   * the nodes it was asked for, the dataset has exactly `target` nodes (one for an empty budget) and every drawn edge
   * is present or counted as dropped.
   */
  method GenerateDataset(ont: Ontology, target: int, rows: nat, inputs: seq<ShardInput>)
    returns (merged: Dataset, ghost drops: seq<nat>)
    requires rows > 0 && |inputs| == |Plan(target, rows)|
    requires forall i :: 0 <= i < |inputs| ==> WellFormed(inputs[i])
    ensures merged.ontology == ont && UniqueIds(merged.nodes)
    ensures Closed(merged.nodes, merged.edges) && DistinctKeys(merged.edges, EdgeSignature)
    ensures EdgeFindings(ont, TypesById(merged.nodes), merged.edges, |merged.edges|) == [] <==> ReadsAll(ont, inputs)
    ensures |drops| == |inputs|
    ensures (forall i :: 0 <= i < |inputs| ==> Fills(inputs[i], Plan(target, rows)[i])) ==>
              && |merged.nodes| == (if target <= 0 then 1 else target)
              && |merged.edges| + Sum(drops, |inputs|) == Drawn(inputs, |inputs|)
  {
    hide ShardWithin, EdgeFindings, TypesById, ReadsGraph, DistinctKeys, FirstOccurrences, Closed, Sum, Drawn, NodesOf,
         EdgesOf, Fills;
    var plan := PlanShards(target, rows);
    var shards: seq<Dataset> := [];
    drops := [];
    for i := 0 to |plan|
      invariant |shards| == |drops| == i
      invariant forall k :: 0 <= k < i ==> BuiltFrom(shards[k], drops[k], ont, inputs[k], plan[k].0)
    {
      var shard, dropped := GenerateShard(ont, inputs[i].typeOf, plan[i].0, inputs[i].graph, inputs[i].props);
      assert BuiltFrom(shard, dropped, ont, inputs[i], plan[i].0) by {
        var chunk := (plan[i].0, |inputs[i].typeOf|);
        assert chunk.0 == plan[i].0 && |inputs[i].typeOf| <= chunk.1;
      }
      shards, drops := shards + [shard], drops + [dropped];
    }
    merged := Assemble(shards);
    WholeRun(ont, target, rows, inputs, shards, drops, merged);
    if forall i :: 0 <= i < |inputs| ==> Fills(inputs[i], Plan(target, rows)[i]) {
      FullRun(ont, target, rows, inputs, shards, drops, merged);
    }
  }

  lemma WholeRun(ont: Ontology, target: int, rows: nat, inputs: seq<ShardInput>, shards: seq<Dataset>,
                 drops: seq<nat>, merged: Dataset)
    requires rows > 0 && |shards| == |drops| == |inputs| == |Plan(target, rows)|
    requires forall i :: 0 <= i < |inputs| ==> WellFormed(inputs[i])
    requires forall k :: 0 <= k < |shards| ==> BuiltFrom(shards[k], drops[k], ont, inputs[k], Plan(target, rows)[k].0)
    requires merged.ontology == if |shards| == 0 then Ontology([], []) else shards[0].ontology
    requires MergedFrom(merged, shards)
    ensures merged.ontology == ont && UniqueIds(merged.nodes)
    ensures Closed(merged.nodes, merged.edges) && DistinctKeys(merged.edges, EdgeSignature)
    ensures EdgeFindings(ont, TypesById(merged.nodes), merged.edges, |merged.edges|) == [] <==> ReadsAll(ont, inputs)
  {
    hide EdgeFindings, TypesById, ReadsGraph, DistinctKeys, FirstOccurrences, NodesOf, EdgesOf, Plan, Numbered, Simple;
    PlanNotEmpty(target, rows);
    assert forall k :: 0 <= k < |shards| ==> Closed(shards[k].nodes, shards[k].edges);
    var starts := Starts(Plan(target, rows));
    assert forall k :: 0 <= k < |shards| ==> Numbered(shards[k].nodes, starts[k]);
    hide ShardWithin;
    MergeKeepsFirst(shards, merged);
    MergeClosed(shards, merged);
    NumberedAgree(shards, starts);
    hide Closed;
    AgreeingMergePassesIff(ont, shards, merged);
  }

  /** An empty budget is planned as one empty shard, for which the generator makes one node. */
  lemma FullRun(ont: Ontology, target: int, rows: nat, inputs: seq<ShardInput>, shards: seq<Dataset>,
                drops: seq<nat>, merged: Dataset)
    requires rows > 0 && |shards| == |drops| == |inputs| == |Plan(target, rows)|
    requires forall k :: 0 <= k < |shards| ==> BuiltFrom(shards[k], drops[k], ont, inputs[k], Plan(target, rows)[k].0)
    requires forall k :: 0 <= k < |inputs| ==> Fills(inputs[k], Plan(target, rows)[k])
    requires MergedFrom(merged, shards)
    ensures |merged.nodes| == (if target <= 0 then 1 else target)
    ensures |merged.edges| + Sum(drops, |inputs|) == Drawn(inputs, |inputs|)
  {
    hide EdgeFindings, TypesById, ReadsGraph, ShardWithin, DistinctKeys, FirstOccurrences, Sum, Drawn, NodesOf,
         EdgesOf, Plan, Simple;
    var nodes := if target <= 0 then 1 else target;
    OneForNone(target, rows);
    forall k | 0 <= k < |shards|
      ensures |shards[k].nodes| == Plan(nodes, rows)[k].1 && ShardWithin(shards[k], Plan(nodes, rows)[k])
    {
      FullShard(shards[k], drops[k], ont, inputs[k], Plan(target, rows)[k], Plan(nodes, rows)[k]);
    }
    forall k | 0 <= k < |shards| ensures |shards[k].edges| + drops[k] == |inputs[k].graph| {
      assert BuiltFrom(shards[k], drops[k], ont, inputs[k], Plan(target, rows)[k].0);
    }
    hide BuiltFrom, Fills;
    ShardingIsDisjointUnion(shards, nodes, rows, merged);
    UnionEdges(shards, inputs, drops, |shards|);
  }

  lemma FullShard(shard: Dataset, dropped: nat, ont: Ontology, input: ShardInput, planned: (nat, nat),
                  filled: (nat, nat))
    requires BuiltFrom(shard, dropped, ont, input, planned.0) && Fills(input, planned)
    requires filled.0 == planned.0 && filled.1 == if planned.1 == 0 then 1 else planned.1
    ensures |shard.nodes| == filled.1 && ShardWithin(shard, filled)
  {
    hide ShardWithin;
    assert filled == (planned.0, |input.typeOf|);
  }

  lemma OneForNone(target: int, rows: nat)
    requires rows > 0
    ensures var nodes := if target <= 0 then 1 else target;
            && |Plan(nodes, rows)| == |Plan(target, rows)|
            && forall k :: 0 <= k < |Plan(target, rows)| ==>
                 && Plan(nodes, rows)[k].0 == Plan(target, rows)[k].0
                 && Plan(nodes, rows)[k].1 == (if Plan(target, rows)[k].1 == 0 then 1 else Plan(target, rows)[k].1)
  {
    if target > 0 {
      PlanTiles(target, rows);
    } else {
      assert Chunks(1, 0, rows) == [];
    }
  }

  lemma PlanNotEmpty(target: int, rows: nat)
    requires rows > 0
    ensures |Plan(target, rows)| > 0
  {
    if target > 0 { PlanTiles(target, rows); }
  }
}

/** Plan, generate and merge for the model-driven engine. */
module LlmPipeline {
  import opened Sequences
  import opened Strings
  import opened GraphModels
  import opened Validator
  import opened Topology
  import opened Shards
  import opened GraphPipeline
  import LlmGraph

  ghost predicate LlmShard(ont: Ontology, shard: Dataset, count: nat) {
    && shard.ontology == ont && |shard.nodes| <= count
    && (forall n :: n in shard.nodes ==> LlmGraph.NodeFits(ont, n) && LlmGraph.Typed(n))
    && EdgeFindings(ont, TypesById(shard.nodes), shard.edges, |shard.edges|) == []
  }

  /** The relation the generator and the validator find under its name, with declared endpoint types. */
  predicate Usable(ont: Ontology, et: EdgeType) {
    && ont.EdgeTypeNamed(et.name) == Some(et)
    && ont.NodeTypeNamed(et.sourceType).Some? && ont.NodeTypeNamed(et.targetType).Some?
  }

  /** Nodes of another declared type can bear the ids of one of the relation's endpoints. */
  ghost predicate ExposedBy(ont: Ontology, et: EdgeType, q: string) {
    && Usable(ont, et) && ont.NodeTypeNamed(q).Some?
    && (LlmGraph.Confusable(q, et.sourceType) || LlmGraph.Confusable(q, et.targetType))
  }

  ghost predicate Exposed(ont: Ontology) {
    exists et, q :: et in ont.edgeTypes && ExposedBy(ont, et, q)
  }

  /** Only ambiguous type names expose a relation. */
  lemma {:induction false} UnambiguousNotExposed(ont: Ontology)
    requires !LlmGraph.Ambiguous(ont)
    ensures !Exposed(ont)
  {
    hide Ontology.NodeTypeNamed, Ontology.EdgeTypeNamed;
    if et, q :| et in ont.edgeTypes && ExposedBy(ont, et, q) {
      LlmGraph.TypeFound(ont, q);
      LlmGraph.TypeFound(ont, et.sourceType);
      LlmGraph.TypeFound(ont, et.targetType);
      assert false;
    }
  }

  /** The response yields no valid node, or the shard has no budget. */
  ghost predicate Unusable(ont: Ontology, data: Properties, count: nat) {
    !Get(data, "nodes").List? || count <= 0 || LlmGraph.AllUntyped(ont, Get(data, "nodes").items)
  }

  /**
   * The whole model-driven run, for any responses: an error exactly when some shard is unusable; otherwise at most
   * `target` nodes of declared types with their declared properties, distinct ids and signatures, no dangling edge,
   * and, unless a relation is exposed, no finding of the validator's edge pass.
   */
  method GenerateLlmDataset(ont: Ontology, target: int, rows: nat, srcs: seq<LlmGraph.Sources>, data: seq<Properties>)
    returns (merged: Option<Dataset>)
    requires rows > 0 && |srcs| == |data| == |Plan(target, rows)|
    ensures merged.None? <==> exists i :: 0 <= i < |data| && Unusable(ont, data[i], Plan(target, rows)[i].1)
    ensures merged.Some? ==>
              && merged.value.ontology == ont && |merged.value.nodes| <= target
              && (forall n :: n in merged.value.nodes ==> LlmGraph.NodeFits(ont, n))
              && UniqueIds(merged.value.nodes) && DistinctKeys(merged.value.edges, EdgeSignature)
              && Closed(merged.value.nodes, merged.value.edges)
              && (!Exposed(ont) ==>
                    EdgeFindings(ont, TypesById(merged.value.nodes), merged.value.edges, |merged.value.edges|) == [])
  {
    hide EdgeFindings, TypesById, DistinctKeys, FirstOccurrences, NodesOf, EdgesOf, LlmGraph.NodeFits, LlmGraph.Typed,
         Exposed, LlmGraph.AllUntyped, Get, LlmGraph.Generated, Closed;
    var plan := PlanShards(target, rows);
    var shards: seq<Dataset> := [];
    for i := 0 to |plan|
      invariant |shards| == i
      invariant forall k :: 0 <= k < i ==> LlmShard(ont, shards[k], plan[k].1) && !Unusable(ont, data[k], plan[k].1)
    {
      var shard := LlmGraph.Generate(ont, srcs[i], data[i], plan[i].1);
      if shard.None? {
        assert Unusable(ont, data[i], plan[i].1);
        return None;
      }
      assert forall n :: n in shard.value.nodes ==> LlmGraph.NodeFits(ont, n) && LlmGraph.Typed(n);
      shards := shards + [shard.value];
    }
    var whole := Assemble(shards);
    LlmRun(ont, target, rows, data, shards, whole);
    return Some(whole);
  }

  lemma {:induction false} UnionAtMost(shards: seq<Dataset>, plan: seq<(nat, nat)>, target: nat, rows: nat, k: nat)
    requires |shards| == |plan| && Tiles(plan, 0, target, rows) && 0 < k <= |shards|
    requires forall i :: 0 <= i < |shards| ==> |shards[i].nodes| <= plan[i].1
    ensures |NodesOf(shards, k)| <= plan[k - 1].0 + plan[k - 1].1
  {
    if k > 1 {
      UnionAtMost(shards, plan, target, rows, k - 1);
      assert plan[k - 2 + 1].0 == plan[k - 2].0 + rows;
    }
  }

  lemma UnionMember(shards: seq<Dataset>, n: Node) returns (k: nat)
    requires n in NodesOf(shards, |shards|)
    ensures k < |shards| && n in shards[k].nodes
  {
    var all := NodesOf(shards, |shards|);
    var p :| 0 <= p < |all| && all[p] == n;
    var j: nat;
    k, j := NodeOrigin(shards, |shards|, p);
  }

  lemma LlmRun(ont: Ontology, target: int, rows: nat, data: seq<Properties>, shards: seq<Dataset>, merged: Dataset)
    requires rows > 0 && |shards| == |data| == |Plan(target, rows)|
    requires forall k :: 0 <= k < |shards| ==>
               LlmShard(ont, shards[k], Plan(target, rows)[k].1) && !Unusable(ont, data[k], Plan(target, rows)[k].1)
    requires merged.ontology == if |shards| == 0 then Ontology([], []) else shards[0].ontology
    requires MergedFrom(merged, shards)
    ensures merged.ontology == ont && |merged.nodes| <= target
    ensures forall n :: n in merged.nodes ==> LlmGraph.NodeFits(ont, n)
    ensures UniqueIds(merged.nodes) && DistinctKeys(merged.edges, EdgeSignature)
    ensures Closed(merged.nodes, merged.edges)
    ensures !Exposed(ont) ==>
              EdgeFindings(ont, TypesById(merged.nodes), merged.edges, |merged.edges|) == []
  {
    hide EdgeFindings, TypesById, DistinctKeys, FirstOccurrences, NodesOf, EdgesOf, LlmGraph.NodeFits, LlmGraph.Typed,
         Exposed, LlmGraph.AllUntyped, Get, Closed;
    PlanNotEmpty(target, rows);
    assert !Unusable(ont, data[0], Plan(target, rows)[0].1);
    assert target > 0;
    PlanTiles(target, rows);
    hide Plan, Unusable;
    UnionAtMost(shards, Plan(target, rows), target, rows, |shards|);
    var all := NodesOf(shards, |shards|);
    FirstOccurrencesLength(all, NodeId);
    MergeKeepsFirst(shards, merged);
    forall n | n in all ensures LlmGraph.NodeFits(ont, n) && LlmGraph.Typed(n) {
      var k := UnionMember(shards, n);
    }
    forall n | n in merged.nodes ensures n in all {
      FirstOccurrencesMember(all, NodeId, n);
    }
    PassingLlmShards(ont, shards, Plan(target, rows));
    hide LlmShard;
    MergeClosed(shards, merged);
    if !Exposed(ont) {
      UnexposedPasses(ont, shards, merged);
    }
  }

  lemma PassingLlmShards(ont: Ontology, shards: seq<Dataset>, plan: seq<(nat, nat)>)
    requires |shards| == |plan| && forall k :: 0 <= k < |shards| ==> LlmShard(ont, shards[k], plan[k].1)
    ensures ShardsPass(ont, shards)
    ensures forall k :: 0 <= k < |shards| ==> Closed(shards[k].nodes, shards[k].edges)
    ensures forall k, n :: 0 <= k < |shards| && n in shards[k].nodes ==> NodeDeclared(ont, n)
  {
    hide EdgeFindings, TypesById, Closed;
    forall k | 0 <= k < |shards| ensures Closed(shards[k].nodes, shards[k].edges) {
      PassingClosed(ont, shards[k]);
    }
  }

  /** A node of a declared type whose id starts with its type's name. */
  ghost predicate NodeDeclared(ont: Ontology, n: Node) { LlmGraph.NodeFits(ont, n) && LlmGraph.Typed(n) }

  /** A graph without findings has no dangling edge. */
  lemma PassingClosed(ont: Ontology, shard: Dataset)
    requires EdgeFindings(ont, TypesById(shard.nodes), shard.edges, |shard.edges|) == []
    ensures Closed(shard.nodes, shard.edges)
  {
    hide EdgeFindings, EdgeFinding, TypesById, NodesById, KeySet;
    var own := TypesById(shard.nodes);
    DictionariesAgree(shard.nodes);
    NoFindings(ont, own, shard.edges, |shard.edges|);
    forall e | e in shard.edges ensures HasId(shard.nodes, e.source) && HasId(shard.nodes, e.target) {
      PassesUnderBoth(ont, own, own, e, e);
    }
  }

  // Relations that are not exposed

  /** An endpoint of a passing edge keeps its type in the merge when its type cannot be confused. */
  lemma UnconfusedKept(ont: Ontology, shards: seq<Dataset>, i: nat, id: string)
    requires forall k, n :: 0 <= k < |shards| && n in shards[k].nodes ==> NodeDeclared(ont, n)
    requires i < |shards| && id in TypesById(shards[i].nodes)
    requires forall q :: ont.NodeTypeNamed(q).Some? ==> !LlmGraph.Confusable(q, TypesById(shards[i].nodes)[id])
    ensures KeepsType(shards, i, id)
    ensures ont.NodeTypeNamed(TypesById(shards[i].nodes)[id]).Some?
  {
    hide TypesById, NodesById, FirstNamed, NodesOf, Ontology.NodeTypeNamed, LlmGraph.Confusable;
    var all := NodesOf(shards, |shards|);
    DictionariesAgree(shards[i].nodes);
    var n := NodesById(shards[i].nodes)[id];
    NodeInUnion(shards, |shards|, i, n);
    FirstNamedFinds(all, NodeId, id);
    assert NodeId(n) == id;
    var m := FirstNamed(all, NodeId, id).value;
    assert NodeId(m) == id;
    var k := UnionMember(shards, m);
    assert NodeDeclared(ont, m) && NodeDeclared(ont, n);
    LlmGraph.TypesOfEqualIds(ont, m, n);
  }

  lemma DeclaredTypes(ont: Ontology, nodes: seq<Node>, id: string)
    requires (forall n :: n in nodes ==> NodeDeclared(ont, n)) && id in TypesById(nodes)
    ensures ont.NodeTypeNamed(TypesById(nodes)[id]).Some?
  {
    hide TypesById, NodesById, Ontology.NodeTypeNamed;
    DictionariesAgree(nodes);
    assert NodeDeclared(ont, NodesById(nodes)[id]);
  }

  /** The relation of an edge that passes under a dictionary. */
  lemma PassingRelation(ont: Ontology, own: map<string, string>, e: Edge) returns (et: EdgeType)
    requires EdgeFinding(ont, own, e) == []
    ensures et in ont.edgeTypes && ont.EdgeTypeNamed(et.name) == Some(et)
    ensures e.source in own && e.target in own && own[e.source] == et.sourceType && own[e.target] == et.targetType
  {
    hide FirstNamed;
    FirstNamedFinds(ont.edgeTypes, EdgeTypeNameOf, e.typ);
    et := ont.EdgeTypeNamed(e.typ).value;
  }

  lemma UnexposedEdgeKept(ont: Ontology, shards: seq<Dataset>, i: nat, e: Edge)
    requires forall k, n :: 0 <= k < |shards| && n in shards[k].nodes ==> NodeDeclared(ont, n)
    requires i < |shards| && e in shards[i].edges && !Exposed(ont)
    requires EdgeFindings(ont, TypesById(shards[i].nodes), shards[i].edges, |shards[i].edges|) == []
    ensures KeepsType(shards, i, e.source) && KeepsType(shards, i, e.target)
  {
    hide EdgeFindings, EdgeFinding, TypesById, KeepsType, NodeDeclared, Ontology.NodeTypeNamed, Ontology.EdgeTypeNamed,
         LlmGraph.Confusable;
    var own := TypesById(shards[i].nodes);
    NoFindings(ont, own, shards[i].edges, |shards[i].edges|);
    var et := PassingRelation(ont, own, e);
    DeclaredTypes(ont, shards[i].nodes, e.source);
    DeclaredTypes(ont, shards[i].nodes, e.target);
    forall q | ont.NodeTypeNamed(q).Some?
      ensures !LlmGraph.Confusable(q, et.sourceType) && !LlmGraph.Confusable(q, et.targetType)
    {
      assert !ExposedBy(ont, et, q);
    }
    UnconfusedKept(ont, shards, i, e.source);
    UnconfusedKept(ont, shards, i, e.target);
  }

  lemma UnexposedPasses(ont: Ontology, shards: seq<Dataset>, merged: Dataset)
    requires MergedFrom(merged, shards) && ShardsPass(ont, shards) && !Exposed(ont)
    requires forall k, n :: 0 <= k < |shards| && n in shards[k].nodes ==> NodeDeclared(ont, n)
    ensures EdgeFindings(ont, TypesById(merged.nodes), merged.edges, |merged.edges|) == []
  {
    hide MergedFrom, EdgeFindings, TypesById, KeepsType, NodeDeclared, Exposed;
    MergedPassesIff(ont, shards, merged);
    forall i, e | 0 <= i < |shards| && e in shards[i].edges
      ensures KeepsType(shards, i, e.source) && KeepsType(shards, i, e.target)
    {
      UnexposedEdgeKept(ont, shards, i, e);
    }
  }

  // Exposed relations

  /** A response's node: a type name and a key. */
  function NodeItem(typ: string, key: string): Value { Dict(map["type" := Str(typ), "key" := Str(key)]) }

  function EdgeItem(typ: string, source: string, target: string): Value {
    Dict(map["type" := Str(typ), "source" := Str(source), "target" := Str(target)])
  }

  function Response(nodes: seq<Value>, edges: seq<Value>): Properties {
    map["nodes" := List(nodes), "edges" := List(edges)]
  }

  lemma ReadsItems(typ: string, key: string, source: string, target: string, nodes: seq<Value>, edges: seq<Value>)
    ensures var n := NodeItem(typ, key).entries; Get(n, "type") == Str(typ) && Get(n, "key") == Str(key)
    ensures var e := EdgeItem(typ, source, target).entries;
            Get(e, "type") == Str(typ) && Get(e, "source") == Str(source) && Get(e, "target") == Str(target)
    ensures var r := Response(nodes, edges); Get(r, "nodes") == List(nodes) && Get(r, "edges") == List(edges)
  {
    assert "type"[0] == 't' && "key"[0] == 'k' && "source"[0] == 's' && "target"[1] == 'a' && "type"[1] == 'y';
    assert "nodes"[0] == 'n' && "edges"[0] == 'e';
  }

  /** One item of a declared type gives one node. */
  lemma OneItem(ont: Ontology, src: LlmGraph.Sources, count: int, items: seq<Value>, typ: string, key: string)
    requires |items| == 1 && items[0] == NodeItem(typ, key) && ont.NodeTypeNamed(typ).Some? && count >= 1
    ensures var nodes := LlmGraph.NodesAfter(ont, src, count, items, 1).nodes;
            |nodes| == 1 && nodes[0].id == typ + ":" + key && nodes[0].typ == typ
  {
    hide Ontology.NodeTypeNamed, Get, LlmGraph.Filled, Decimal;
    ReadsItems(typ, key, "", "", [], []);
    LlmGraph.TypeFound(ont, typ);
    assert LlmGraph.NodesAfter(ont, src, count, items, 0) == LlmGraph.NOTHING;
  }

  /** Two items with different ids give two nodes, each found under its type and key. */
  lemma TwoItems(ont: Ontology, src: LlmGraph.Sources, count: int, items: seq<Value>, s: string, x: string, t: string,
                 y: string)
    requires |items| == 2 && items[0] == NodeItem(s, x) && items[1] == NodeItem(t, y) && count >= 2
    requires ont.NodeTypeNamed(s).Some? && ont.NodeTypeNamed(t).Some? && s + ":" + x != t + ":" + y
    ensures var b := LlmGraph.NodesAfter(ont, src, count, items, 2);
            && |b.nodes| == 2
            && b.nodes[0].id == s + ":" + x && b.nodes[0].typ == s
            && b.nodes[1].id == t + ":" + y && b.nodes[1].typ == t
            && (s, x) in b.idOf && b.idOf[(s, x)] == s + ":" + x
            && (t, y) in b.idOf && b.idOf[(t, y)] == t + ":" + y
  {
    hide Ontology.NodeTypeNamed, Get, LlmGraph.Filled, Decimal;
    ReadsItems(s, x, "", "", [], []);
    ReadsItems(t, y, "", "", [], []);
    LlmGraph.TypeFound(ont, s);
    LlmGraph.TypeFound(ont, t);
    assert LlmGraph.NodesAfter(ont, src, count, items, 0) == LlmGraph.NOTHING;
    var b := LlmGraph.NodesAfter(ont, src, count, items, 1);
    assert |b.nodes| == 1 && b.idOf.Keys == {(s, x)};
  }

  /** The edge item between them is resolved. */
  lemma OneEdge(ont: Ontology, src: LlmGraph.Sources, et: EdgeType, x: string, y: string, b: LlmGraph.Built,
                items: seq<Value>)
    requires Usable(ont, et) && |items| == 1 && items[0] == EdgeItem(et.name, x, y)
    requires |b.nodes| == 2 && UniqueIds(b.nodes)
    requires b.nodes[0].typ == et.sourceType && b.nodes[1].typ == et.targetType
    requires (et.sourceType, x) in b.idOf && b.idOf[(et.sourceType, x)] == b.nodes[0].id
    requires (et.targetType, y) in b.idOf && b.idOf[(et.targetType, y)] == b.nodes[1].id
    ensures LlmGraph.Resolved(ont, src, TypesById(b.nodes), b.idOf, items, 1)
              == [Signature(et.name, b.nodes[0].id, b.nodes[1].id)]
  {
    hide Ontology.EdgeTypeNamed, Ontology.NodeTypeNamed, Get, TypesById;
    ReadsItems(et.name, "", x, y, [], []);
    TypeOfUnique(b.nodes, b.nodes[0]);
    TypeOfUnique(b.nodes, b.nodes[1]);
    assert LlmGraph.Resolved(ont, src, TypesById(b.nodes), b.idOf, items, 0) == [];
  }

  /** Two shards of one job, each from its own response, and their merge. */
  datatype Pair = Pair(first: Properties, second: Properties, shards: seq<Dataset>, merged: Dataset) {
    ghost predicate Of(ont: Ontology, src: LlmGraph.Sources, count: int) {
      && |shards| == 2 && MergedFrom(merged, shards)
      && LlmGraph.Generated(ont, src, first, count, shards[0])
      && LlmGraph.Generated(ont, src, second, count, shards[1])
    }

    ghost predicate Passes(ont: Ontology) {
      EdgeFindings(ont, TypesById(merged.nodes), merged.edges, |merged.edges|) == []
    }
  }

  /** The first shard holds one node of type `q`, under the id of an endpoint of the second one's only edge. */
  lemma RetypedFails(ont: Ontology, src: LlmGraph.Sources, count: int, et: EdgeType, q: string, p: Pair)
    requires p.Of(ont, src, count) && |p.shards[0].nodes| == 1 && p.shards[0].nodes[0].typ == q
    requires |p.shards[1].nodes| == 2 && UniqueIds(p.shards[1].nodes) && |p.shards[1].edges| == 1
    requires p.shards[1].nodes[0].typ == et.sourceType && p.shards[1].nodes[1].typ == et.targetType
    requires p.shards[1].edges[0].source == p.shards[1].nodes[0].id
          && p.shards[1].edges[0].target == p.shards[1].nodes[1].id
    requires var id := p.shards[0].nodes[0].id;
             || (id == p.shards[1].nodes[0].id && q != et.sourceType)
             || (id == p.shards[1].nodes[1].id && q != et.targetType)
    ensures !p.Passes(ont)
  {
    hide LlmGraph.Generated, MergedFrom, EdgeFindings, TypesById, NodesOf, FirstNamed;
    var shards, e := p.shards, p.shards[1].edges[0];
    assert ShardsPass(ont, shards) by {
      LlmGraph.GeneratedEdges(ont, src, p.first, count, shards[0]);
      LlmGraph.GeneratedEdges(ont, src, p.second, count, shards[1]);
    }
    MergedPassesIff(ont, shards, p.merged);
    FirstOfTwo(shards, shards[0].nodes[0]);
    TypeOfUnique(shards[1].nodes, shards[1].nodes[0]);
    TypeOfUnique(shards[1].nodes, shards[1].nodes[1]);
    assert e in shards[1].edges;
    assert !KeepsType(shards, 1, e.source) || !KeepsType(shards, 1, e.target);
  }

  lemma NoEdgeItems(ont: Ontology, src: LlmGraph.Sources, b: LlmGraph.Built)
    ensures MapSeq(EdgeSignature, [])
              == FirstOccurrences(LlmGraph.Resolved(ont, src, TypesById(b.nodes), b.idOf, [], 0), Identity)
  {
    hide TypesById;
    LlmGraph.NoneYet([]);
  }

  lemma OneSignature(edges: seq<Edge>, sig: Signature)
    requires |edges| == 1 && EdgeSignature(edges[0]) == sig
    ensures MapSeq(EdgeSignature, edges) == FirstOccurrences([sig], Identity)
  {
    FirstOccurrencesOfDistinct([sig], Identity);
  }

  /** The shards and the merge of a response with one node and a response with one edge. */
  lemma PairOf(ont: Ontology, src: LlmGraph.Sources, count: int, et: EdgeType, q: string, k: string, x: string,
               y: string)
    returns (p: Pair)
    requires Usable(ont, et) && ont.NodeTypeNamed(q).Some? && count >= 2
    requires et.sourceType + ":" + x != et.targetType + ":" + y
    ensures p.Of(ont, src, count) && |p.shards[0].nodes| == 1 && p.shards[0].nodes[0].typ == q
    ensures |p.shards[1].nodes| == 2 && UniqueIds(p.shards[1].nodes) && |p.shards[1].edges| == 1
    ensures p.shards[1].nodes[0].typ == et.sourceType && p.shards[1].nodes[1].typ == et.targetType
    ensures p.shards[1].edges[0].source == p.shards[1].nodes[0].id
         && p.shards[1].edges[0].target == p.shards[1].nodes[1].id
    ensures p.shards[0].nodes[0].id == q + ":" + k
    ensures p.shards[1].nodes[0].id == et.sourceType + ":" + x && p.shards[1].nodes[1].id == et.targetType + ":" + y
  {
    hide Ontology.EdgeTypeNamed, Ontology.NodeTypeNamed, Get, TypesById, LlmGraph.NodesAfter, LlmGraph.Resolved,
         FirstOccurrences, Response;
    var one := [NodeItem(q, k)];
    var two := [NodeItem(et.sourceType, x), NodeItem(et.targetType, y)];
    var link := [EdgeItem(et.name, x, y)];
    ReadsItems("", "", "", "", one, []);
    ReadsItems("", "", "", "", two, link);
    OneItem(ont, src, count, one, q, k);
    TwoItems(ont, src, count, two, et.sourceType, x, et.targetType, y);
    var a := LlmGraph.NodesAfter(ont, src, count, one, |one|);
    var b := LlmGraph.NodesAfter(ont, src, count, two, |two|);
    OneEdge(ont, src, et, x, y, b, link);
    var edges := [Edge(et.name + ":" + Decimal(0), et.name, b.nodes[0].id, b.nodes[1].id, map[])];
    NoEdgeItems(ont, src, a);
    OneSignature(edges, EdgeSignature(edges[0]));
    var shards := [Dataset(ont, a.nodes, []), Dataset(ont, b.nodes, edges)];
    p := Pair(Response(one, []), Response(two, link), shards,
              Dataset(ont, FirstOccurrences(NodesOf(shards, 2), NodeId),
                      FirstOccurrences(EdgesOf(shards, 2), EdgeSignature)));
  }

  /**
   * The merge of any two responses' shards passes the validator's edge check exactly when no usable relation has an
   * endpoint type that can be confused with another declared type.
   */
  lemma {:induction false} PairsPassIff(ont: Ontology, src: LlmGraph.Sources, count: int)
    requires count >= 2
    ensures (forall p: Pair :: p.Of(ont, src, count) ==> p.Passes(ont)) <==> !Exposed(ont)
  {
    hide Usable, LlmGraph.Confusable, Pair.Of, Pair.Passes;
    if et, q :| et in ont.edgeTypes && ExposedBy(ont, et, q) {
      var p := ExposedPair(ont, src, count, et, q);
    } else {
      forall p: Pair | p.Of(ont, src, count) ensures p.Passes(ont) {
        UnexposedPair(ont, src, count, p);
      }
    }
  }

  lemma ExposedPair(ont: Ontology, src: LlmGraph.Sources, count: int, et: EdgeType, q: string) returns (p: Pair)
    requires ExposedBy(ont, et, q) && count >= 2
    ensures p.Of(ont, src, count) && !p.Passes(ont)
  {
    hide Usable, LlmGraph.Confusable, Pair.Of, Pair.Passes, Ontology.NodeTypeNamed;
    var k, x, y: string;
    if LlmGraph.Confusable(q, et.sourceType) {
      k, x := LlmGraph.SharedId(q, et.sourceType);
      y := OtherKey(et.sourceType + ":" + x, et.targetType);
    } else {
      k, y := LlmGraph.SharedId(q, et.targetType);
      x := OtherKey(et.targetType + ":" + y, et.sourceType);
    }
    p := PairOf(ont, src, count, et, q, k, x, y);
    RetypedFails(ont, src, count, et, q, p);
  }

  lemma OtherKey(id: string, typ: string) returns (key: string)
    ensures typ + ":" + key != id
  {
    key := if |typ| + 1 == |id| then "0" else "";
    assert |typ + ":" + key| == |typ| + 1 + |key|;
  }

  lemma UnexposedPair(ont: Ontology, src: LlmGraph.Sources, count: int, p: Pair)
    requires p.Of(ont, src, count) && !Exposed(ont)
    ensures p.Passes(ont)
  {
    hide LlmGraph.Generated, MergedFrom, EdgeFindings, TypesById, Exposed, LlmGraph.NodeFits, LlmGraph.Typed;
    LlmGraph.GeneratedNodes(ont, src, p.first, count, p.shards[0]);
    LlmGraph.GeneratedNodes(ont, src, p.second, count, p.shards[1]);
    LlmGraph.GeneratedEdges(ont, src, p.first, count, p.shards[0]);
    LlmGraph.GeneratedEdges(ont, src, p.second, count, p.shards[1]);
    forall k, n | 0 <= k < 2 && n in p.shards[k].nodes ensures NodeDeclared(ont, n) {
      var i :| 0 <= i < |p.shards[k].nodes| && p.shards[k].nodes[i] == n;
    }
    UnexposedPasses(ont, p.shards, p.merged);
  }
}

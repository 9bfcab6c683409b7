/** The GNN array export: edge indices, type ids and a one-hot feature matrix. */
module Gnn {
  import opened Sequences
  import opened Ordering
  import opened GraphModels

  datatype Arrays = Arrays(nodeIds: seq<string>, nodeTypeNames: seq<string>, nodeTypeIds: seq<nat>,
                           sources: seq<nat>, targets: seq<nat>,
                           edgeTypeNames: seq<string>, edgeTypeIds: seq<nat>)

  /** `{x: i for i, x in enumerate(names)}`: a repeated name keeps its last position. */
  function IndexOf(names: seq<string>, k: nat): map<string, nat>
    requires k <= |names|
  {
    if k == 0 then map[] else IndexOf(names, k - 1)[names[k - 1] := k - 1]
  }

  lemma {:induction false} IndexOfFinds(names: seq<string>, k: nat, x: string)
    requires k <= |names|
    ensures x in IndexOf(names, k) <==> x in names[..k]
    ensures x in IndexOf(names, k) ==>
              && IndexOf(names, k)[x] < k
              && names[IndexOf(names, k)[x]] == x
              && forall j :: IndexOf(names, k)[x] < j < k ==> names[j] != x
  {
    if k > 0 {
      IndexOfFinds(names, k - 1, x);
      assert names[..k] == names[..k - 1] + [names[k - 1]];
    }
  }

  function EdgeTyp(e: Edge): string { e.typ }

  function Vocabulary(names: seq<string>): seq<string> {
    SortedSet(names, |names|)
  }

  function Positions(names: seq<string>): map<string, nat> {
    IndexOf(names, |names|)
  }

  lemma PositionInVocabulary(names: seq<string>, i: nat)
    requires i < |names|
    ensures var vocabulary := Vocabulary(names);
            && names[i] in Positions(vocabulary)
            && Positions(vocabulary)[names[i]] < |vocabulary|
            && forall j :: 0 <= j < |vocabulary| ==>
                 (vocabulary[j] == names[i] <==> j == Positions(vocabulary)[names[i]])
  {
    hide SortedSet, IndexOf;
    var vocabulary := Vocabulary(names);
    SortedSetExact(names, |names|);
    IndexOfFinds(vocabulary, |vocabulary|, names[i]);
    assert names[..|names|] == names && vocabulary[..|vocabulary|] == vocabulary;
  }

  /** The edges whose endpoints are both in the node list; the exporter drops the others. */
  function ValidEdges(nodes: seq<Node>, edges: seq<Edge>): seq<Edge> {
    Joined(edges, Positions(NodeIds(nodes)).Keys, |edges|)
  }

  lemma {:induction false} JoinedEndpoints(edges: seq<Edge>, kept: set<string>, k: nat)
    requires k <= |edges|
    ensures forall i :: 0 <= i < |Joined(edges, kept, k)| ==>
              Joined(edges, kept, k)[i].source in kept && Joined(edges, kept, k)[i].target in kept
  {
    if k > 0 {
      JoinedEndpoints(edges, kept, k - 1);
    }
  }

  function NodeTypes(nodes: seq<Node>): (types: seq<string>)
    ensures |types| == |nodes|
  {
    MapSeq(NodeTypeName, nodes)
  }

  function Encode(nodes: seq<Node>, edges: seq<Edge>): Arrays {
    var indexOf := Positions(NodeIds(nodes));
    var types := Vocabulary(NodeTypes(nodes));
    var typeIndex := Positions(types);
    var valid := ValidEdges(nodes, edges);
    var edgeTypes := Vocabulary(MapSeq(EdgeTyp, valid));
    var edgeTypeIndex := Positions(edgeTypes);
    Arrays(
      NodeIds(nodes), types, Looked(typeIndex, NodeTypes(nodes)),
      Looked(indexOf, MapSeq(EdgeSource, valid)), Looked(indexOf, MapSeq(EdgeTarget, valid)),
      edgeTypes, Looked(edgeTypeIndex, MapSeq(EdgeTyp, valid)))
  }

  /** `[index[x] for x in xs]`; a name outside the index does not occur here. */
  function Looked(index: map<string, nat>, xs: seq<string>): (r: seq<nat>)
    ensures |r| == |xs|
    ensures forall i :: 0 <= i < |xs| && xs[i] in index ==> r[i] == index[xs[i]]
  {
    seq(|xs|, i requires 0 <= i < |xs| => if xs[i] in index then index[xs[i]] else 0)
  }

  datatype Link = Link(typ: string, source: string, target: string)

  function LinkOf(e: Edge): Link { Link(e.typ, e.source, e.target) }

  /** Every index refers to an entry of its vocabulary, and the parallel arrays have equal lengths. */
  ghost predicate WellFormed(a: Arrays) {
    && |a.nodeTypeIds| == |a.nodeIds|
    && |a.sources| == |a.targets| == |a.edgeTypeIds|
    && (forall i :: 0 <= i < |a.nodeTypeIds| ==> a.nodeTypeIds[i] < |a.nodeTypeNames|)
    && (forall i :: 0 <= i < |a.sources| ==> a.sources[i] < |a.nodeIds|)
    && (forall i :: 0 <= i < |a.targets| ==> a.targets[i] < |a.nodeIds|)
    && (forall i :: 0 <= i < |a.edgeTypeIds| ==> a.edgeTypeIds[i] < |a.edgeTypeNames|)
  }

  /** What a reader of the file sees: each column of `edge_index` looked up in `node_ids`. */
  ghost function DecodeLinks(a: Arrays): seq<Link>
    requires WellFormed(a)
  {
    seq(|a.sources|, i requires 0 <= i < |a.sources| =>
      Link(a.edgeTypeNames[a.edgeTypeIds[i]], a.nodeIds[a.sources[i]], a.nodeIds[a.targets[i]]))
  }

  ghost function DecodeNodeTypes(a: Arrays): seq<string>
    requires WellFormed(a)
  {
    seq(|a.nodeTypeIds|, i requires 0 <= i < |a.nodeTypeIds| => a.nodeTypeNames[a.nodeTypeIds[i]])
  }

  /** Decoding the arrays gives back every node's id and type and every valid edge, in order, even with repeated ids. */
  lemma DecodesBack(nodes: seq<Node>, edges: seq<Edge>)
    ensures var a := Encode(nodes, edges);
            && WellFormed(a)
            && a.nodeIds == NodeIds(nodes)
            && DecodeNodeTypes(a) == NodeTypes(nodes)
            && DecodeLinks(a) == MapSeq(LinkOf, Filter(edges, Joins(nodes)))
  {
    hide IndexOf, SortedSet, Joined, Vocabulary, Positions, Filter;
    var a := Encode(nodes, edges);
    var valid := ValidEdges(nodes, edges);
    EndpointIndices(nodes, edges);
    forall i | 0 <= i < |nodes|
      ensures a.nodeTypeIds[i] < |a.nodeTypeNames| && a.nodeTypeNames[a.nodeTypeIds[i]] == nodes[i].typ
    {
      PositionInVocabulary(NodeTypes(nodes), i);
    }
    forall i | 0 <= i < |valid|
      ensures a.edgeTypeIds[i] < |a.edgeTypeNames| && a.edgeTypeNames[a.edgeTypeIds[i]] == valid[i].typ
    {
      PositionInVocabulary(MapSeq(EdgeTyp, valid), i);
      assert MapSeq(EdgeTyp, valid)[i] == valid[i].typ;
    }
    assert DecodeLinks(a) == MapSeq(LinkOf, valid);
    ValidIsFilter(nodes, edges);
  }

  lemma EndpointIndices(nodes: seq<Node>, edges: seq<Edge>)
    ensures var a, valid := Encode(nodes, edges), ValidEdges(nodes, edges);
            && |a.sources| == |a.targets| == |a.edgeTypeIds| == |valid|
            && forall i :: 0 <= i < |valid| ==>
                 && a.sources[i] < |nodes| && nodes[a.sources[i]].id == valid[i].source
                 && a.targets[i] < |nodes| && nodes[a.targets[i]].id == valid[i].target
  {
    hide IndexOf, SortedSet, Joined, Vocabulary;
    var a, valid := Encode(nodes, edges), ValidEdges(nodes, edges);
    var ids := NodeIds(nodes);
    var indexOf := Positions(ids);
    JoinedEndpoints(edges, indexOf.Keys, |edges|);
    forall i | 0 <= i < |valid|
      ensures a.sources[i] < |nodes| && nodes[a.sources[i]].id == valid[i].source
      ensures a.targets[i] < |nodes| && nodes[a.targets[i]].id == valid[i].target
    {
      IndexOfFinds(ids, |ids|, valid[i].source);
      IndexOfFinds(ids, |ids|, valid[i].target);
      assert MapSeq(EdgeSource, valid)[i] in indexOf && MapSeq(EdgeTarget, valid)[i] in indexOf;
    }
  }

  ghost function Joins(nodes: seq<Node>): Edge -> bool {
    (e: Edge) => HasId(nodes, e.source) && HasId(nodes, e.target)
  }

  lemma IndexedIds(nodes: seq<Node>)
    ensures Positions(NodeIds(nodes)).Keys == KeySet(nodes, NodeId)
  {
    hide IndexOf;
    var ids := NodeIds(nodes);
    forall x ensures x in Positions(ids) <==> x in KeySet(nodes, NodeId) {
      IndexOfFinds(ids, |ids|, x);
      assert ids[..|ids|] == ids;
      if x in ids {
        var i :| 0 <= i < |ids| && ids[i] == x;
        assert NodeId(nodes[i]) == x;
      }
      if x in KeySet(nodes, NodeId) {
        var i :| 0 <= i < |nodes| && NodeId(nodes[i]) == x;
        assert ids[i] == x;
      }
    }
  }

  lemma ValidIsFilter(nodes: seq<Node>, edges: seq<Edge>)
    ensures ValidEdges(nodes, edges) == Filter(edges, Joins(nodes))
  {
    IndexedIds(nodes);
    JoinedIsFilter(nodes, edges, |edges|);
    assert edges[..|edges|] == edges;
  }

  lemma {:induction false} JoinedIsFilter(nodes: seq<Node>, edges: seq<Edge>, k: nat)
    requires k <= |edges|
    ensures Joined(edges, KeySet(nodes, NodeId), k) == Filter(edges[..k], Joins(nodes))
  {
    hide KeySet;
    if k > 0 {
      JoinedIsFilter(nodes, edges, k - 1);
      assert edges[..k][..k - 1] == edges[..k - 1];
    }
  }

  /** The vocabularies are what they claim: sorted, without repeats, and exactly the types in use. */
  lemma {:induction false} VocabulariesExact(nodes: seq<Node>, edges: seq<Edge>)
    ensures var a := Encode(nodes, edges);
            && SortedBy(a.nodeTypeNames, Identity, StrLe) && NoDuplicates(a.nodeTypeNames)
            && SortedBy(a.edgeTypeNames, Identity, StrLe) && NoDuplicates(a.edgeTypeNames)
            && (forall t :: t in a.nodeTypeNames <==> t in NodeTypes(nodes))
            && (forall t :: t in a.edgeTypeNames <==> t in MapSeq(EdgeTyp, ValidEdges(nodes, edges)))
  {
    hide SortedSet, StrLe;
    var types, edgeTypes := NodeTypes(nodes), MapSeq(EdgeTyp, ValidEdges(nodes, edges));
    SortedSetExact(types, |types|);
    SortedSetExact(edgeTypes, |edgeTypes|);
    assert types[..|types|] == types && edgeTypes[..|edgeTypes|] == edgeTypes;
  }

  /** The export, with its feature matrix filled in row by row. */
  method Export(nodes: seq<Node>, edges: seq<Edge>) returns (a: Arrays, features: array2<real>)
    ensures a == Encode(nodes, edges)
    ensures fresh(features) && features.Length0 == |nodes|
    ensures features.Length1 == if |a.nodeTypeNames| == 0 then 1 else |a.nodeTypeNames|
    ensures forall i, j :: 0 <= i < |nodes| && 0 <= j < |a.nodeTypeNames| ==>
              features[i, j] == if a.nodeTypeNames[j] == nodes[i].typ then 1.0 else 0.0
    ensures forall i :: 0 <= i < |nodes| ==> nodes[i].typ in a.nodeTypeNames
  {
    hide Vocabulary, Positions, ValidEdges;
    a := Encode(nodes, edges);
    var typeIndex := Positions(a.nodeTypeNames);
    var width := if |a.nodeTypeNames| == 0 then 1 else |a.nodeTypeNames|;
    features := new real[|nodes|, width]((i, j) => 0.0);
    for i := 0 to |nodes|
      invariant forall r, j :: i <= r < |nodes| && 0 <= j < width ==> features[r, j] == 0.0
      invariant forall r, j :: 0 <= r < i && 0 <= j < |a.nodeTypeNames| ==>
                  features[r, j] == if a.nodeTypeNames[j] == nodes[r].typ then 1.0 else 0.0
      invariant forall r :: 0 <= r < i ==> nodes[r].typ in a.nodeTypeNames
    {
      PositionInVocabulary(NodeTypes(nodes), i);
      features[i, typeIndex[nodes[i].typ]] := 1.0;
    }
  }
}

/** The procedural engine: projecting an abstract random graph onto the ontology's types. */
module Topology {
  import opened Sequences
  import opened Strings
  import opened GraphModels
  import opened Validator

  /** The `(type, source, target)` triple that identifies a relation instance. */
  datatype Signature = Signature(typ: string, source: string, target: string)

  function EdgeSignature(e: Edge): Signature { Signature(e.typ, e.source, e.target) }

  /** A relation can carry an edge from a node of type `a` to one of type `b`. */
  predicate Fits(et: EdgeType, a: string, b: string) {
    (et.sourceType == a && et.targetType == b) || (!et.directed && et.targetType == a && et.sourceType == b)
  }

  /** First-match scan over the first `k` relations of the ontology. */
  function FirstFit(types: seq<EdgeType>, a: string, b: string, k: nat): Option<EdgeType>
    requires k <= |types|
  {
    if k == 0 then None
    else if FirstFit(types, a, b, k - 1).Some? then FirstFit(types, a, b, k - 1)
    else if Fits(types[k - 1], a, b) then Some(types[k - 1])
    else None
  }

  lemma {:induction false} FirstFitFinds(types: seq<EdgeType>, a: string, b: string, k: nat)
    requires k <= |types|
    ensures var r := FirstFit(types, a, b, k);
      && (r.None? <==> forall i :: 0 <= i < k ==> !Fits(types[i], a, b))
      && (r.Some? ==> r.value in types && Fits(r.value, a, b))
  {
    hide Fits;
    if k > 0 { FirstFitFinds(types, a, b, k - 1); }
  }

  type Index = map<(string, string), EdgeType>

  function Lookup(index: Index, a: string, b: string): Option<EdgeType> {
    if (a, b) in index then Some(index[(a, b)]) else None
  }

  function SetDefault(index: Index, a: string, b: string, et: EdgeType): Index {
    if (a, b) in index then index else index[(a, b) := et]
  }

  ghost predicate Answers(index: Index, types: seq<EdgeType>, k: nat) {
    k <= |types| && forall a, b :: Lookup(index, a, b) == FirstFit(types, a, b, k)
  }

  /** The endpoint-type dictionary answers every lookup as a scan of the ontology would. */
  method EdgeTypeIndex(ont: Ontology) returns (index: Index)
    ensures Answers(index, ont.edgeTypes, |ont.edgeTypes|)
  {
    index := map[];
    var types := ont.edgeTypes;
    for i := 0 to |types|
      invariant Answers(index, types, i)
    {
      var et := types[i];
      index := SetDefault(index, et.sourceType, et.targetType, et);
      if !et.directed {
        index := SetDefault(index, et.targetType, et.sourceType, et);
      }
    }
  }

  /** A topology edge laid onto a relation, oriented from `s` to `t`. */
  datatype Placed = Placed(et: EdgeType, s: nat, t: nat)

  /** The relation and orientation chosen for the edge `u - v`, if any fits. */
  function Place(types: seq<EdgeType>, typeOf: seq<string>, u: nat, v: nat): (p: Option<Placed>)
    requires u < |typeOf| && v < |typeOf|
    ensures p.Some? ==> (p.value.s == u && p.value.t == v) || (p.value.s == v && p.value.t == u)
  {
    var forth := FirstFit(types, typeOf[u], typeOf[v], |types|);
    if forth.Some? then Some(Placed(forth.value, u, v))
    else
      var back := FirstFit(types, typeOf[v], typeOf[u], |types|);
      if back.Some? then Some(Placed(back.value, v, u)) else None
  }

  predicate InRange(graph: seq<(nat, nat)>, n: nat) {
    forall i :: 0 <= i < |graph| ==> graph[i].0 < n && graph[i].1 < n
  }

  function PlacedSignature(p: Placed, ids: seq<string>): Signature
    requires p.s < |ids| && p.t < |ids|
  {
    Signature(p.et.name, ids[p.s], ids[p.t])
  }

  /** The signatures of the edges among the first `k` that find a relation, in order. */
  function Placements(types: seq<EdgeType>, ids: seq<string>, typeOf: seq<string>, graph: seq<(nat, nat)>,
                      k: nat): seq<Signature>
    requires k <= |graph| && InRange(graph, |typeOf|) && |ids| == |typeOf|
  {
    if k == 0 then []
    else
      var before := Placements(types, ids, typeOf, graph, k - 1);
      match Place(types, typeOf, graph[k - 1].0, graph[k - 1].1)
      case None => before
      case Some(p) => before + [PlacedSignature(p, ids)]
  }

  /** Each id is the relation name and the position in the list; there are no properties. */
  ghost predicate EdgesNumbered(edges: seq<Edge>) {
    forall i :: 0 <= i < |edges| ==> NumberedAs(edges[i], i)
  }

  predicate NumberedAs(e: Edge, i: nat) {
    e.id == e.typ + ":" + Decimal(i) && e.properties == map[]
  }

  /** What `map_edges` emits: each distinct placement once, numbered in order. */
  ghost predicate Projected(edges: seq<Edge>, types: seq<EdgeType>, ids: seq<string>, typeOf: seq<string>,
                            graph: seq<(nat, nat)>)
    requires InRange(graph, |typeOf|) && |ids| == |typeOf|
  {
    && MapSeq(EdgeSignature, edges) == FirstOccurrences(Placements(types, ids, typeOf, graph, |graph|), Identity)
    && EdgesNumbered(edges)
  }

  /** Tries the edge as given, then reversed. */
  method Orient(index: Index, ghost types: seq<EdgeType>, typeOf: seq<string>, u: nat, v: nat)
    returns (p: Option<Placed>)
    requires Answers(index, types, |types|)
    requires u < |typeOf| && v < |typeOf|
    ensures p == Place(types, typeOf, u, v)
  {
    hide FirstFit;
    var et := Lookup(index, typeOf[u], typeOf[v]);
    if et.Some? {
      return Some(Placed(et.value, u, v));
    }
    et := Lookup(index, typeOf[v], typeOf[u]);
    if et.Some? {
      return Some(Placed(et.value, v, u));
    }
    return None;
  }

  method MapEdges(graph: seq<(nat, nat)>, ids: seq<string>, typeOf: seq<string>, ont: Ontology)
    returns (edges: seq<Edge>, dropped: nat)
    requires InRange(graph, |typeOf|) && |ids| == |typeOf|
    ensures Projected(edges, ont.edgeTypes, ids, typeOf, graph)
    ensures |Placements(ont.edgeTypes, ids, typeOf, graph, |graph|)| + dropped == |graph|
  {
    hide Answers;
    var index := EdgeTypeIndex(ont);
    edges, dropped := [], 0;
    var seen: set<Signature> := {};
    ghost var placed: seq<Signature> := [];
    for i := 0 to |graph|
      invariant placed == Placements(ont.edgeTypes, ids, typeOf, graph, i)
      invariant |placed| + dropped == i
      invariant seen == KeySet(placed, Identity)
      invariant MapSeq(EdgeSignature, edges) == FirstOccurrences(placed, Identity)
      invariant EdgesNumbered(edges)
    {
      hide KeySet, FirstOccurrences, Decimal, MapSeq, Place, EdgesNumbered;
      var place := Orient(index, ont.edgeTypes, typeOf, graph[i].0, graph[i].1);
      if place.None? {
        dropped := dropped + 1;
        continue;
      }
      var Placed(et, s, t) := place.value;
      var sig := Signature(et.name, ids[s], ids[t]);
      FirstOccurrencesPush(placed, sig);
      placed := placed + [sig];
      if sig in seen { continue; }
      seen := seen + {sig};
      var e := Edge(et.name + ":" + Decimal(|edges|), et.name, ids[s], ids[t], map[]);
      PushEdge(edges, e);
      edges := edges + [e];
    }
  }

  lemma PushEdge(edges: seq<Edge>, e: Edge)
    ensures MapSeq(EdgeSignature, edges + [e]) == MapSeq(EdgeSignature, edges) + [EdgeSignature(e)]
    ensures EdgesNumbered(edges) && NumberedAs(e, |edges|) ==> EdgesNumbered(edges + [e])
  {
    hide NumberedAs;
  }

  lemma FirstOccurrencesPush(xs: seq<Signature>, x: Signature)
    ensures KeySet(xs + [x], Identity) == KeySet(xs, Identity) + {x}
    ensures FirstOccurrences(xs + [x], Identity) ==
      FirstOccurrences(xs, Identity) + (if x in KeySet(xs, Identity) then [] else [x])
  {
    assert (xs + [x])[..|xs|] == xs;
    KeySetLast(xs + [x], Identity);
  }

  // What the projection keeps

  lemma {:induction false} PlacementFrom(types: seq<EdgeType>, ids: seq<string>, typeOf: seq<string>,
                                         graph: seq<(nat, nat)>, k: nat, sig: Signature)
    requires k <= |graph| && InRange(graph, |typeOf|) && |ids| == |typeOf|
    ensures sig in Placements(types, ids, typeOf, graph, k) <==>
      exists i :: 0 <= i < k && Place(types, typeOf, graph[i].0, graph[i].1).Some?
               && PlacedSignature(Place(types, typeOf, graph[i].0, graph[i].1).value, ids) == sig
  {
    hide Place;
    if k > 0 { PlacementFrom(types, ids, typeOf, graph, k - 1, sig); }
  }

  /** A topology edge is dropped exactly when no relation fits it in either direction. */
  lemma DroppedWhenUnfit(types: seq<EdgeType>, typeOf: seq<string>, u: nat, v: nat)
    requires u < |typeOf| && v < |typeOf|
    ensures Place(types, typeOf, u, v).None? <==>
      forall i :: 0 <= i < |types| ==> !Fits(types[i], typeOf[u], typeOf[v]) && !Fits(types[i], typeOf[v], typeOf[u])
  {
    hide FirstFit, Fits;
    FirstFitFinds(types, typeOf[u], typeOf[v], |types|);
    FirstFitFinds(types, typeOf[v], typeOf[u], |types|);
  }

  /** Each unordered pair of nodes is joined at most once. */
  ghost predicate Simple(graph: seq<(nat, nat)>) {
    forall i, j :: 0 <= i < j < |graph| ==> graph[i] != graph[j] && graph[i] != (graph[j].1, graph[j].0)
  }

  lemma {:induction false} PlacementsDistinct(types: seq<EdgeType>, ids: seq<string>, typeOf: seq<string>,
                                              graph: seq<(nat, nat)>, k: nat)
    requires k <= |graph| && InRange(graph, |typeOf|) && |ids| == |typeOf|
    requires NoDuplicates(ids) && Simple(graph)
    ensures DistinctKeys(Placements(types, ids, typeOf, graph, k), Identity)
  {
    hide FirstFit;
    if k > 0 {
      PlacementsDistinct(types, ids, typeOf, graph, k - 1);
      var p := Place(types, typeOf, graph[k - 1].0, graph[k - 1].1);
      if p.Some? {
        var sig := PlacedSignature(p.value, ids);
        PlacementFrom(types, ids, typeOf, graph, k - 1, sig);
        assert sig !in Placements(types, ids, typeOf, graph, k - 1);
      }
    }
  }

  /** On a simple graph with distinct node ids nothing is merged: emitted plus dropped is every edge. */
  lemma EmittedPlusDropped(edges: seq<Edge>, dropped: nat, types: seq<EdgeType>, ids: seq<string>, typeOf: seq<string>,
                           graph: seq<(nat, nat)>)
    requires InRange(graph, |typeOf|) && |ids| == |typeOf|
    requires NoDuplicates(ids) && Simple(graph)
    requires Projected(edges, types, ids, typeOf, graph)
    requires |Placements(types, ids, typeOf, graph, |graph|)| + dropped == |graph|
    ensures |edges| + dropped == |graph|
    ensures DistinctKeys(edges, EdgeSignature)
  {
    hide Placements;
    var placed := Placements(types, ids, typeOf, graph, |graph|);
    PlacementsDistinct(types, ids, typeOf, graph, |graph|);
    FirstOccurrencesOfDistinct(placed, Identity);
    forall i, j | 0 <= i < j < |edges| ensures EdgeSignature(edges[i]) != EdgeSignature(edges[j]) {
      assert Identity(placed[i]) != Identity(placed[j]);
    }
  }

  // The projection against the validator

  /** The chosen relation is undirected and declared the other way round. */
  predicate Reversed(types: seq<EdgeType>, a: string, b: string) {
    var et := FirstFit(types, a, b, |types|);
    et.Some? && (et.value.sourceType != a || et.value.targetType != b)
  }

  /** An earlier relation bears the chosen one's name, and the validator finds that one. */
  predicate Shadowed(ont: Ontology, a: string, b: string) {
    var et := FirstFit(ont.edgeTypes, a, b, |ont.edgeTypes|);
    et.Some? && ont.EdgeTypeNamed(et.value.name) != et
  }

  predicate Distorted(ont: Ontology, a: string, b: string) {
    Reversed(ont.edgeTypes, a, b) || Shadowed(ont, a, b)
  }

  /** An edge between nodes of types `a` and `b` is emitted, as given or turned round, and read back otherwise. */
  predicate Misread(ont: Ontology, a: string, b: string) {
    Distorted(ont, a, b) || (FirstFit(ont.edgeTypes, a, b, |ont.edgeTypes|).None? && Distorted(ont, b, a))
  }

  lemma {:induction false} FirstFitAt(types: seq<EdgeType>, a: string, b: string, k: nat) returns (i: nat)
    requires k <= |types| && FirstFit(types, a, b, k).Some?
    ensures i < k && types[i] == FirstFit(types, a, b, k).value && Fits(types[i], a, b)
    ensures forall j :: 0 <= j < i ==> !Fits(types[j], a, b)
  {
    hide Fits;
    if FirstFit(types, a, b, k - 1).Some? {
      i := FirstFitAt(types, a, b, k - 1);
    } else {
      FirstFitFinds(types, a, b, k - 1);
      i := k - 1;
    }
  }

  /** The relation the validator reads under the chosen one's name has the pair's types exactly without distortion. */
  lemma {:induction false} ReadBack(ont: Ontology, a: string, b: string)
    requires FirstFit(ont.edgeTypes, a, b, |ont.edgeTypes|).Some?
    ensures var named := ont.EdgeTypeNamed(FirstFit(ont.edgeTypes, a, b, |ont.edgeTypes|).value.name);
            && named.Some?
            && (named.value.sourceType == a && named.value.targetType == b <==> !Distorted(ont, a, b))
  {
    hide FirstFit, FirstNamed;
    var types := ont.edgeTypes;
    var et := FirstFit(types, a, b, |types|).value;
    FirstNamedFinds(types, EdgeTypeNameOf, et.name);
    var i := FirstFitAt(types, a, b, |types|);
    assert EdgeTypeNameOf(types[i]) == et.name;
    var h := FirstNamedAt(types, EdgeTypeNameOf, et.name);
    assert h <= i;
  }

  /** The nodes a shard mints for the graph's vertices. */
  ghost predicate Vertices(nodes: seq<Node>, ids: seq<string>, typeOf: seq<string>) {
    |nodes| == |ids| == |typeOf| && forall i :: 0 <= i < |nodes| ==> nodes[i].id == ids[i] && nodes[i].typ == typeOf[i]
  }

  lemma VertexTypes(nodes: seq<Node>, ids: seq<string>, typeOf: seq<string>, i: nat)
    requires Vertices(nodes, ids, typeOf) && NoDuplicates(ids) && i < |ids|
    ensures ids[i] in TypesById(nodes) && TypesById(nodes)[ids[i]] == typeOf[i]
  {
    hide NodesById, TypesById;
    assert UniqueIds(nodes);
    LookupOfUnique(nodes, i);
    DictionariesAgree(nodes);
  }

  /** Endpoint types match the relation's declared pair, in order or swapped. */
  lemma PlacedTypes(types: seq<EdgeType>, typeOf: seq<string>, u: nat, v: nat)
    requires u < |typeOf| && v < |typeOf|
    ensures var p := Place(types, typeOf, u, v);
      p.Some? ==>
        && p.value.et in types
        && {p.value.s, p.value.t} == {u, v}
        && Fits(p.value.et, typeOf[p.value.s], typeOf[p.value.t])
        && (Reversed(types, typeOf[u], typeOf[v]) <==>
              p.value.et.sourceType != typeOf[p.value.s] || p.value.et.targetType != typeOf[p.value.t])
  {
    hide FirstFit;
    FirstFitFinds(types, typeOf[u], typeOf[v], |types|);
    FirstFitFinds(types, typeOf[v], typeOf[u], |types|);
    var back := FirstFit(types, typeOf[v], typeOf[u], |types|);
    if FirstFit(types, typeOf[u], typeOf[v], |types|).None? && back.Some? {
      var i :| 0 <= i < |types| && types[i] == back.value;
      assert !Fits(types[i], typeOf[u], typeOf[v]);
    }
  }

  /** One emitted edge breaks the validator's rule exactly when its placement is misread. */
  lemma PlacedFinding(ont: Ontology, nodes: seq<Node>, ids: seq<string>, typeOf: seq<string>, u: nat, v: nat, e: Edge)
    requires Vertices(nodes, ids, typeOf) && NoDuplicates(ids) && u < |ids| && v < |ids|
    requires Place(ont.edgeTypes, typeOf, u, v).Some?
    requires EdgeSignature(e) == PlacedSignature(Place(ont.edgeTypes, typeOf, u, v).value, ids)
    ensures EdgeFinding(ont, TypesById(nodes), e) == [] <==> !Misread(ont, typeOf[u], typeOf[v])
  {
    hide FirstFit, TypesById, Distorted, FirstNamed;
    var p := Place(ont.edgeTypes, typeOf, u, v).value;
    VertexTypes(nodes, ids, typeOf, p.s);
    VertexTypes(nodes, ids, typeOf, p.t);
    ReadBack(ont, typeOf[p.s], typeOf[p.t]);
    if FirstFit(ont.edgeTypes, typeOf[u], typeOf[v], |ont.edgeTypes|).None? {
      NothingDistorted(ont, typeOf[u], typeOf[v]);
    }
  }

  lemma NothingDistorted(ont: Ontology, a: string, b: string)
    requires FirstFit(ont.edgeTypes, a, b, |ont.edgeTypes|).None?
    ensures !Distorted(ont, a, b)
  {
    hide FirstFit;
  }

  lemma {:induction false} NoFindings(ont: Ontology, types: map<string, string>, edges: seq<Edge>, k: nat)
    requires k <= |edges|
    ensures EdgeFindings(ont, types, edges, k) == [] <==>
            forall i :: 0 <= i < k ==> EdgeFinding(ont, types, edges[i]) == []
  {
    hide EdgeFinding;
    if k > 0 {
      NoFindings(ont, types, edges, k - 1);
      assert |EdgeFindings(ont, types, edges, k)|
          == |EdgeFindings(ont, types, edges, k - 1)| + |EdgeFinding(ont, types, edges[k - 1])|;
    }
  }

  /** No edge of the graph is misread. */
  ghost predicate ReadsGraph(ont: Ontology, typeOf: seq<string>, graph: seq<(nat, nat)>)
    requires InRange(graph, |typeOf|)
  {
    forall i :: 0 <= i < |graph| ==> !Misread(ont, typeOf[graph[i].0], typeOf[graph[i].1])
  }

  /**
   * The projection passes the validator's edge check exactly when no topology edge is carried by an undirected
   * relation declared the other way round, or by a relation whose name an earlier one bears.
   */
  lemma {:induction false} ProjectionPassesIff(ont: Ontology, nodes: seq<Node>, ids: seq<string>, typeOf: seq<string>,
                                               graph: seq<(nat, nat)>, edges: seq<Edge>)
    requires Vertices(nodes, ids, typeOf) && NoDuplicates(ids) && InRange(graph, |typeOf|)
    requires Projected(edges, ont.edgeTypes, ids, typeOf, graph)
    ensures EdgeFindings(ont, TypesById(nodes), edges, |edges|) == [] <==> ReadsGraph(ont, typeOf, graph)
  {
    hide Placements, EdgeFindings, EdgeFinding, TypesById, Place, Misread, FirstOccurrences, KeySet, Decimal,
         Ontology.EdgeTypeNamed;
    var types, tOf := ont.edgeTypes, TypesById(nodes);
    var placed := Placements(types, ids, typeOf, graph, |graph|);
    NoFindings(ont, tOf, edges, |edges|);
    if i :| 0 <= i < |graph| && Misread(ont, typeOf[graph[i].0], typeOf[graph[i].1]) {
      MisreadIsPlaced(ont, typeOf, graph[i].0, graph[i].1);
      var sig := PlacedSignature(Place(types, typeOf, graph[i].0, graph[i].1).value, ids);
      PlacementFrom(types, ids, typeOf, graph, |graph|, sig);
      var j := EmittedAt(edges, placed, sig);
      PlacedFinding(ont, nodes, ids, typeOf, graph[i].0, graph[i].1, edges[j]);
    } else {
      forall j | 0 <= j < |edges| ensures EdgeFinding(ont, tOf, edges[j]) == [] {
        var i := OriginOf(types, ids, typeOf, graph, edges, j);
        PlacedFinding(ont, nodes, ids, typeOf, graph[i].0, graph[i].1, edges[j]);
      }
    }
  }

  lemma MisreadIsPlaced(ont: Ontology, typeOf: seq<string>, u: nat, v: nat)
    requires u < |typeOf| && v < |typeOf| && Misread(ont, typeOf[u], typeOf[v])
    ensures Place(ont.edgeTypes, typeOf, u, v).Some?
  {
    hide FirstFit, Ontology.EdgeTypeNamed;
  }

  /** Every placement is emitted. */
  lemma EmittedAt(edges: seq<Edge>, placed: seq<Signature>, sig: Signature) returns (j: nat)
    requires MapSeq(EdgeSignature, edges) == FirstOccurrences(placed, Identity) && sig in placed
    ensures j < |edges| && EdgeSignature(edges[j]) == sig
  {
    hide FirstOccurrences;
    FirstOccurrencesKeys(placed, Identity);
    var i :| 0 <= i < |placed| && placed[i] == sig;
    assert Identity(placed[i]) in KeySet(placed, Identity);
    j :| 0 <= j < |edges| && Identity(FirstOccurrences(placed, Identity)[j]) == sig;
    assert MapSeq(EdgeSignature, edges)[j] == EdgeSignature(edges[j]);
  }

  /** Every emitted edge comes from a topology edge. */
  lemma OriginOf(types: seq<EdgeType>, ids: seq<string>, typeOf: seq<string>, graph: seq<(nat, nat)>, edges: seq<Edge>,
                 j: nat)
    returns (i: nat)
    requires InRange(graph, |typeOf|) && |ids| == |typeOf|
    requires Projected(edges, types, ids, typeOf, graph) && j < |edges|
    ensures i < |graph| && Place(types, typeOf, graph[i].0, graph[i].1).Some?
    ensures EdgeSignature(edges[j]) == PlacedSignature(Place(types, typeOf, graph[i].0, graph[i].1).value, ids)
  {
    hide FirstOccurrences, Placements, Place, KeySet, Decimal;
    var placed := Placements(types, ids, typeOf, graph, |graph|);
    var sig := EdgeSignature(edges[j]);
    assert MapSeq(EdgeSignature, edges)[j] == sig;
    FirstOccurrencesMember(placed, Identity, sig);
    PlacementFrom(types, ids, typeOf, graph, |graph|, sig);
    i :| 0 <= i < |graph| && Place(types, typeOf, graph[i].0, graph[i].1).Some?
         && PlacedSignature(Place(types, typeOf, graph[i].0, graph[i].1).value, ids) == sig;
  }

  // Ontologies whose projections always pass

  /** Each relation's declared pair, and for an undirected relation the swapped one, is looked up undistorted. */
  predicate ReadsBack(ont: Ontology) {
    forall i :: 0 <= i < |ont.edgeTypes| ==>
      var et := ont.edgeTypes[i];
      && !Distorted(ont, et.sourceType, et.targetType)
      && (!et.directed ==> !Distorted(ont, et.targetType, et.sourceType))
  }

  lemma DeclaredPairsSuffice(ont: Ontology, a: string, b: string)
    requires ReadsBack(ont)
    ensures !Distorted(ont, a, b)
  {
    hide FirstFit, Distorted;
    if FirstFit(ont.edgeTypes, a, b, |ont.edgeTypes|).Some? {
      var i := FirstFitAt(ont.edgeTypes, a, b, |ont.edgeTypes|);
    } else {
      NothingDistorted(ont, a, b);
    }
  }

  lemma NothingMisread(ont: Ontology, typeOf: seq<string>, graph: seq<(nat, nat)>)
    requires ReadsBack(ont) && InRange(graph, |typeOf|)
    ensures ReadsGraph(ont, typeOf, graph)
  {
    hide ReadsBack, Distorted;
    forall i | 0 <= i < |graph| ensures !Misread(ont, typeOf[graph[i].0], typeOf[graph[i].1]) {
      DeclaredPairsSuffice(ont, typeOf[graph[i].0], typeOf[graph[i].1]);
      DeclaredPairsSuffice(ont, typeOf[graph[i].1], typeOf[graph[i].0]);
    }
  }

  /** A projection: the vertices' nodes, the abstract graph and what `map_edges` emits for it. */
  datatype Projection = Projection(nodes: seq<Node>, ids: seq<string>, typeOf: seq<string>, graph: seq<(nat, nat)>,
                                   edges: seq<Edge>) {
    ghost predicate Of(ont: Ontology) {
      && Vertices(nodes, ids, typeOf) && NoDuplicates(ids) && InRange(graph, |typeOf|)
      && Projected(edges, ont.edgeTypes, ids, typeOf, graph)
    }

    ghost predicate Passes(ont: Ontology) { EdgeFindings(ont, TypesById(nodes), edges, |edges|) == [] }
  }

  /** A pair of types that is looked up distorted: every projection of an edge between them fails. */
  lemma {:induction false} DistortedPairFails(ont: Ontology, a: string, b: string, p: Projection)
    requires Distorted(ont, a, b)
    requires p.Of(ont) && p.typeOf == [a, b] && p.graph == [(0, 1)]
    ensures !p.Passes(ont)
  {
    hide Distorted, EdgeFindings, TypesById, Projected;
    ProjectionPassesIff(ont, p.nodes, p.ids, p.typeOf, p.graph, p.edges);
    assert Misread(ont, p.typeOf[p.graph[0].0], p.typeOf[p.graph[0].1]);
  }

  /** And there is one. */
  lemma {:induction false} PairProjected(ont: Ontology, a: string, b: string) returns (p: Projection)
    requires Distorted(ont, a, b)
    ensures p.Of(ont) && p.typeOf == [a, b] && p.graph == [(0, 1)] && !p.Passes(ont)
  {
    hide Distorted, EdgeFindings, TypesById, Ontology.EdgeTypeNamed, Decimal, FirstFit, Projection.Passes;
    DistortedFits(ont, a, b);
    var et := FirstFit(ont.edgeTypes, a, b, |ont.edgeTypes|).value;
    var ids := ["0", "1"];
    assert ids[0][0] != ids[1][0];
    var nodes := [Node("0", a, map[]), Node("1", b, map[])];
    var edges := [Edge(et.name + ":" + Decimal(0), et.name, "0", "1", map[])];
    p := Projection(nodes, ids, [a, b], [(0, 1)], edges);
    assert InRange(p.graph, |p.typeOf|);
    OnePlacement(ont.edgeTypes, ids, p.typeOf, p.graph, et);
    var placed := Placements(ont.edgeTypes, ids, p.typeOf, p.graph, |p.graph|);
    FirstOccurrencesOfDistinct(placed, Identity);
    assert MapSeq(EdgeSignature, edges) == placed;
    assert EdgesNumbered(edges);
    DistortedPairFails(ont, a, b, p);
  }

  lemma DistortedFits(ont: Ontology, a: string, b: string)
    requires Distorted(ont, a, b)
    ensures FirstFit(ont.edgeTypes, a, b, |ont.edgeTypes|).Some?
  {
    hide FirstFit;
  }

  lemma OnePlacement(types: seq<EdgeType>, ids: seq<string>, typeOf: seq<string>, graph: seq<(nat, nat)>, et: EdgeType)
    requires |ids| == |typeOf| == 2 && graph == [(0, 1)]
    requires FirstFit(types, typeOf[0], typeOf[1], |types|) == Some(et)
    ensures Placements(types, ids, typeOf, graph, |graph|) == [Signature(et.name, ids[0], ids[1])]
  {
    hide FirstFit;
    assert Placements(types, ids, typeOf, graph, 0) == [];
    assert Place(types, typeOf, 0, 1) == Some(Placed(et, 0, 1));
  }

  /** Every projection of every graph passes the validator's edge check exactly when the ontology reads back. */
  lemma {:induction false} AlwaysPassesIff(ont: Ontology)
    ensures (forall p: Projection :: p.Of(ont) ==> p.Passes(ont)) <==> ReadsBack(ont)
  {
    hide Distorted, Projection.Passes;
    if ReadsBack(ont) {
      forall p: Projection | p.Of(ont) ensures p.Passes(ont) {
        ReadingProjectionPasses(ont, p);
      }
    } else {
      var i :| 0 <= i < |ont.edgeTypes| && !(
        && !Distorted(ont, ont.edgeTypes[i].sourceType, ont.edgeTypes[i].targetType)
        && (!ont.edgeTypes[i].directed ==> !Distorted(ont, ont.edgeTypes[i].targetType, ont.edgeTypes[i].sourceType)));
      var a, b := ont.edgeTypes[i].sourceType, ont.edgeTypes[i].targetType;
      if Distorted(ont, a, b) {
        var p := PairProjected(ont, a, b);
      } else {
        var p := PairProjected(ont, b, a);
      }
    }
  }

  lemma ReadingProjectionPasses(ont: Ontology, p: Projection)
    requires ReadsBack(ont) && p.Of(ont)
    ensures p.Passes(ont)
  {
    hide ReadsBack, ReadsGraph, EdgeFindings, TypesById, Projected;
    NothingMisread(ont, p.typeOf, p.graph);
    ProjectionPassesIff(ont, p.nodes, p.ids, p.typeOf, p.graph, p.edges);
  }

  /** With unique relation names a pair is misread exactly when it is reversed. */
  lemma {:induction false} UniqueNamesMisreadIff(ont: Ontology, a: string, b: string)
    requires DistinctKeys(ont.edgeTypes, EdgeTypeNameOf)
    ensures Misread(ont, a, b) <==> Reversed(ont.edgeTypes, a, b)
  {
    hide FirstFit, FirstNamed, DistinctKeys;
    NeverShadowed(ont, a, b);
    NeverShadowed(ont, b, a);
    FirstFitFinds(ont.edgeTypes, a, b, |ont.edgeTypes|);
    FirstFitFinds(ont.edgeTypes, b, a, |ont.edgeTypes|);
  }

  lemma NeverShadowed(ont: Ontology, a: string, b: string)
    requires DistinctKeys(ont.edgeTypes, EdgeTypeNameOf)
    ensures !Shadowed(ont, a, b)
  {
    hide FirstFit, FirstNamed;
    if FirstFit(ont.edgeTypes, a, b, |ont.edgeTypes|).Some? {
      var i := FirstFitAt(ont.edgeTypes, a, b, |ont.edgeTypes|);
      FirstNamedOfDistinct(ont.edgeTypes, EdgeTypeNameOf, i);
    }
  }

  // Repeated relation names

  predicate Joins(et: EdgeType, other: EdgeType) {
    et.sourceType == other.sourceType && et.targetType == other.targetType
  }

  predicate AllDirected(ont: Ontology) { forall et :: et in ont.edgeTypes ==> et.directed }

  /** Every relation that is the first to join its types is also the first of its name. */
  ghost predicate FirstsAgree(ont: Ontology) {
    forall h, i :: 0 <= h < i < |ont.edgeTypes| && ont.edgeTypes[h].name == ont.edgeTypes[i].name ==>
      exists j :: 0 <= j < i && Joins(ont.edgeTypes[j], ont.edgeTypes[i])
  }

  lemma RepeatShadows(ont: Ontology, h: nat, i: nat)
    requires AllDirected(ont) && h < i < |ont.edgeTypes| && ont.edgeTypes[h].name == ont.edgeTypes[i].name
    requires forall j :: 0 <= j < i ==> !Joins(ont.edgeTypes[j], ont.edgeTypes[i])
    ensures Shadowed(ont, ont.edgeTypes[i].sourceType, ont.edgeTypes[i].targetType)
  {
    hide FirstFit, FirstNamed;
    var types, et := ont.edgeTypes, ont.edgeTypes[i];
    FirstFitFinds(types, et.sourceType, et.targetType, |types|);
    var f := FirstFitAt(types, et.sourceType, et.targetType, |types|);
    assert types[f] in types && Joins(types[f], et);
    assert !(i < f);
    FirstNamedFinds(types, EdgeTypeNameOf, et.name);
    assert EdgeTypeNameOf(types[h]) == et.name;
    var g := FirstNamedAt(types, EdgeTypeNameOf, et.name);
    assert g <= h && !Joins(types[g], et);
  }

  lemma FirstOfName(ont: Ontology, i: nat)
    requires FirstsAgree(ont) && i < |ont.edgeTypes|
    requires forall j :: 0 <= j < i ==> !Joins(ont.edgeTypes[j], ont.edgeTypes[i])
    ensures forall h :: 0 <= h < i ==> ont.edgeTypes[h].name != ont.edgeTypes[i].name
  {
    hide Joins;
  }

  lemma AgreeingNotDistorted(ont: Ontology, i: nat)
    requires AllDirected(ont) && FirstsAgree(ont) && i < |ont.edgeTypes|
    ensures !Distorted(ont, ont.edgeTypes[i].sourceType, ont.edgeTypes[i].targetType)
  {
    hide FirstFit, FirstNamed, FirstsAgree;
    var types, a, b := ont.edgeTypes, ont.edgeTypes[i].sourceType, ont.edgeTypes[i].targetType;
    FirstFitFinds(types, a, b, |types|);
    var f := FirstFitAt(types, a, b, |types|);
    assert types[f] in types && types[f].directed;
    assert EdgeTypeNameOf(types[f]) == types[f].name;
    FirstNamedFinds(types, EdgeTypeNameOf, types[f].name);
    var g := FirstNamedAt(types, EdgeTypeNameOf, types[f].name);
    forall j | 0 <= j < f ensures !Joins(types[j], types[f]) {
      assert !Fits(types[j], a, b);
    }
    FirstOfName(ont, f);
  }

  /** Over directed relations, as learned from a sample graph, this is exactly when every projection passes. */
  lemma {:induction false} DirectedPassesIff(ont: Ontology)
    requires AllDirected(ont)
    ensures (forall p: Projection :: p.Of(ont) ==> p.Passes(ont)) <==> FirstsAgree(ont)
  {
    hide Distorted, Shadowed, Joins, Projection.Of, Projection.Passes;
    AlwaysPassesIff(ont);
    if FirstsAgree(ont) {
      forall i | 0 <= i < |ont.edgeTypes|
        ensures !Distorted(ont, ont.edgeTypes[i].sourceType, ont.edgeTypes[i].targetType) && ont.edgeTypes[i].directed
      {
        AgreeingNotDistorted(ont, i);
        assert ont.edgeTypes[i] in ont.edgeTypes;
      }
    } else if ReadsBack(ont) {
      var h, i :| 0 <= h < i < |ont.edgeTypes| && ont.edgeTypes[h].name == ont.edgeTypes[i].name
                  && forall j :: 0 <= j < i ==> !Joins(ont.edgeTypes[j], ont.edgeTypes[i]);
      RepeatShadows(ont, h, i);
      ShadowDistorts(ont, ont.edgeTypes[i].sourceType, ont.edgeTypes[i].targetType);
    }
  }

  lemma ShadowDistorts(ont: Ontology, a: string, b: string)
    requires Shadowed(ont, a, b)
    ensures Distorted(ont, a, b)
  {
    hide Shadowed;
  }

  /** For instance two directed relations of one name into one type: nothing is reversed, yet a single edge fails. */
  lemma {:induction false} RepeatedNameFails(ont: Ontology, name: string, a: string, b: string, c: string)
    returns (p: Projection)
    requires |ont.edgeTypes| == 2 && a != b
    requires ont.edgeTypes[0] == EdgeType(name, a, c, true) && ont.edgeTypes[1] == EdgeType(name, b, c, true)
    ensures forall s, t :: !Reversed(ont.edgeTypes, s, t)
    ensures p.typeOf == [b, c] && p.graph == [(0, 1)] && p.Of(ont) && !p.Passes(ont)
  {
    hide Distorted, Reversed, Shadowed, Projection.Of, Projection.Passes;
    forall s, t ensures !Reversed(ont.edgeTypes, s, t) { DirectedNeverReversed(ont.edgeTypes, s, t); }
    RepeatShadows(ont, 0, 1);
    ShadowDistorts(ont, b, c);
    p := PairProjected(ont, b, c);
  }

  /** Relations that are directed or join equal types are never reversed. */
  lemma DirectedNeverReversed(types: seq<EdgeType>, a: string, b: string)
    requires forall et :: et in types ==> et.directed || et.sourceType == et.targetType
    ensures !Reversed(types, a, b)
  {
    hide FirstFit;
    FirstFitFinds(types, a, b, |types|);
  }

  /** With unique names, such an ontology reads back. */
  lemma {:induction false} NeverReversibleReadsBack(ont: Ontology)
    requires DistinctKeys(ont.edgeTypes, EdgeTypeNameOf)
    requires forall et :: et in ont.edgeTypes ==> et.directed || et.sourceType == et.targetType
    ensures ReadsBack(ont)
  {
    hide Reversed, Shadowed, DistinctKeys;
    forall i | 0 <= i < |ont.edgeTypes|
      ensures var et := ont.edgeTypes[i];
              !Distorted(ont, et.sourceType, et.targetType) && !Distorted(ont, et.targetType, et.sourceType)
    {
      var et := ont.edgeTypes[i];
      DirectedNeverReversed(ont.edgeTypes, et.sourceType, et.targetType);
      DirectedNeverReversed(ont.edgeTypes, et.targetType, et.sourceType);
      NeverShadowed(ont, et.sourceType, et.targetType);
      NeverShadowed(ont, et.targetType, et.sourceType);
    }
  }
}

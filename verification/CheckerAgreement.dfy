/** How the structural validator and the ontology judge, written separately, relate. */
module CheckerAgreement {
  import opened Sequences
  import opened Strings
  import opened GraphModels
  import opened Validator
  import opened Judge

  // Edges

  lemma {:induction false} EdgeCounts(ont: Ontology, nodes: seq<Node>, edges: seq<Edge>, k: nat)
    requires k <= |edges|
    ensures |EdgeFindings(ont, TypesById(nodes), edges, k)|
              == EdgesTally(ont, NodesById(nodes), edges, k).edgeViolations
  {
    hide NodesById, TypesById, Ontology.EdgeTypeNamed;
    DictionariesAgree(nodes);
    if k > 0 {
      EdgeCounts(ont, nodes, edges, k - 1);
    }
  }

  lemma EdgeKind(ont: Ontology, typeOf: map<string, string>, e: Edge)
    ensures Kinds(EdgeFinding(ont, typeOf, e))[UnknownNodeType] == 0
  {
    hide Ontology.EdgeTypeNamed, Kinds;
    var vs := EdgeFinding(ont, typeOf, e);
    if |vs| > 0 { KindsOne(vs[0]); } else { KindsNone(); }
  }

  lemma {:induction false} EdgeKinds(ont: Ontology, typeOf: map<string, string>, edges: seq<Edge>, k: nat)
    requires k <= |edges|
    ensures Kinds(EdgeFindings(ont, typeOf, edges, k))[UnknownNodeType] == 0
  {
    hide EdgeFinding, Kinds;
    if k > 0 {
      EdgeKinds(ont, typeOf, edges, k - 1);
      EdgeKind(ont, typeOf, edges[k - 1]);
      KindsAppend(EdgeFindings(ont, typeOf, edges, k - 1), EdgeFinding(ont, typeOf, edges[k - 1]));
    } else {
      KindsNone();
    }
  }

  // Node types

  /** A list without unknown-type violations. */
  ghost predicate Propertied(vs: seq<Violation>) {
    forall i :: 0 <= i < |vs| ==> vs[i].kind != UnknownNodeType
  }

  lemma PropertyKinds(n: Node, p: PropertySpec, parse: Parser)
    ensures PropertyFindings(n, p, parse).Found? ==> Propertied(PropertyFindings(n, p, parse).items)
  {
    hide ValueIn, FloatOf, NumberOf;
  }

  lemma {:induction false} PropertiesKinds(n: Node, ps: seq<PropertySpec>, parse: Parser, k: nat)
    requires k <= |ps|
    ensures PropertiesFindings(n, ps, parse, k).Found? ==> Propertied(PropertiesFindings(n, ps, parse, k).items)
  {
    hide PropertyFindings;
    if k > 0 {
      PropertiesKinds(n, ps, parse, k - 1);
      PropertyKinds(n, ps[k - 1], parse);
    }
  }

  lemma NodeKinds(ont: Ontology, n: Node, parse: Parser)
    requires NodeFindings(ont, n, parse).Found?
    ensures Kinds(NodeFindings(ont, n, parse).items)[UnknownNodeType] == NodeTally(ont, n).nodeTypeViolations
  {
    hide PropertiesFindings, PropertyPasses, Ontology.NodeTypeNamed;
    var nt := ont.NodeTypeNamed(n.typ);
    if nt.Some? {
      PropertiesKinds(n, nt.value.properties, parse, |nt.value.properties|);
      PropertiesBalance(n, nt.value.properties, |nt.value.properties|);
      assert UnknownNodeType !in MapSeq(KindOf, NodeFindings(ont, n, parse).items);
    } else {
      KindsOne(Violation(UnknownNodeType, n.id));
    }
  }

  lemma {:induction false} NodesKinds(ont: Ontology, nodes: seq<Node>, parse: Parser, k: nat)
    requires k <= |nodes| && NodesFindings(ont, nodes, parse, k).Found?
    ensures Kinds(NodesFindings(ont, nodes, parse, k).items)[UnknownNodeType]
              == NodesTally(ont, nodes, k).nodeTypeViolations
  {
    hide NodeFindings, NodeTally, Kinds;
    if k > 0 {
      NodesKinds(ont, nodes, parse, k - 1);
      NodeKinds(ont, nodes[k - 1], parse);
      KindsAppend(NodesFindings(ont, nodes, parse, k - 1).items, NodeFindings(ont, nodes[k - 1], parse).items);
    } else {
      KindsNone();
    }
  }

  /**
   * On every dataset the validator's edge pass reports as many violations as the judge
   * counts bad edges, and its report names as many unknown node types as the judge does.
   */
  lemma CheckersAgree(ds: Dataset, parse: Parser)
    ensures |EdgeFindings(ds.ontology, TypesById(ds.nodes), ds.edges, |ds.edges|)| == DatasetTally(ds).edgeViolations
    ensures StructuralFindings(ds, parse).Found? ==>
      Kinds(StructuralFindings(ds, parse).items)[UnknownNodeType] == DatasetTally(ds).nodeTypeViolations
  {
    hide EdgeFindings, NodesFindings, NodesTally, EdgesTally, NodesById, TypesById, Kinds;
    EdgeCounts(ds.ontology, ds.nodes, ds.edges, |ds.edges|);
    NodesBalance(ds.ontology, ds.nodes, |ds.nodes|);
    EdgesBalance(ds.ontology, NodesById(ds.nodes), ds.edges, |ds.edges|);
    if StructuralFindings(ds, parse).Found? {
      EdgeKinds(ds.ontology, TypesById(ds.nodes), ds.edges, |ds.edges|);
      NodesKinds(ds.ontology, ds.nodes, parse, |ds.nodes|);
      KindsAppend(EdgeFindings(ds.ontology, TypesById(ds.nodes), ds.edges, |ds.edges|),
                  NodesFindings(ds.ontology, ds.nodes, parse, |ds.nodes|).items);
    }
  }

  // Conformance

  /** A bound both checkers can read: absent, or a number. */
  predicate NumericBound(v: Value) { v.Null? || NumberOf(v).Some? }

  ghost predicate NumericBounds(ont: Ontology) {
    forall t, p :: t in ont.nodeTypes && p in t.properties ==>
      NumericBound(Get(p.constraints, "min")) && NumericBound(Get(p.constraints, "max"))
  }

  /** Constraints the validator reads as the judge does: no empty choice list, bounds only on numeric types. */
  predicate ReadAlike(p: PropertySpec) {
    && (Get(p.constraints, "choices").List? ==> |Get(p.constraints, "choices").items| > 0)
    && (p.datatyp !in ["integer", "float"] ==> Get(p.constraints, "min").Null? && Get(p.constraints, "max").Null?)
  }

  ghost predicate AllReadAlike(ont: Ontology) {
    forall t, p :: t in ont.nodeTypes && p in t.properties ==> ReadAlike(p)
  }

  predicate Typed(n: Node, p: PropertySpec) {
    Get(n.properties, p.name).Null? || DatatypeOk(Get(n.properties, p.name), p.datatyp)
  }

  ghost predicate AllTyped(ont: Ontology, n: Node) {
    var nt := ont.NodeTypeNamed(n.typ);
    nt.Some? ==> forall p :: p in nt.value.properties ==> Typed(n, p)
  }

  lemma NumericDatatypes(v: Value, datatyp: string)
    requires datatyp in ["integer", "float"] && DatatypeOk(v, datatyp)
    ensures v.Int? || v.Float?
  {
    assert Lower("integer") == "integer" && Lower("float") == "float";
  }

  lemma PropertyConforms(n: Node, p: PropertySpec, parse: Parser)
    requires NumericBound(Get(p.constraints, "min")) && NumericBound(Get(p.constraints, "max"))
    ensures PropertyPasses(n, p) ==> PropertyFindings(n, p, parse) == Found([])
    ensures PropertyFindings(n, p, parse) == Found([]) && Typed(n, p) && ReadAlike(p) ==> PropertyPasses(n, p)
  {
    hide ValueIn, DatatypeOk;
    var v := Get(n.properties, p.name);
    if !v.Null? && p.datatyp in ["integer", "float"] && DatatypeOk(v, p.datatyp) {
      NumericDatatypes(v, p.datatyp);
      ConformingRange(n.id, p, v, parse);
    }
  }

  lemma ConformingRange(id: string, p: PropertySpec, v: Value, parse: Parser)
    requires NumericBound(Get(p.constraints, "min")) && NumericBound(Get(p.constraints, "max"))
    requires v.Int? || v.Float?
    ensures RangeFindings(id, p, v, parse) == Found([]) <==>
      var lo, hi := NumberOf(Get(p.constraints, "min")), NumberOf(Get(p.constraints, "max"));
      && (lo.Some? ==> NumberOf(v).value >= lo.value)
      && (hi.Some? ==> NumberOf(v).value <= hi.value)
  {
    RangeEmptyIff(id, p, v, parse);
  }

  ghost predicate Comparable(n: Node, ps: seq<PropertySpec>) {
    forall p :: p in ps ==> Typed(n, p) && ReadAlike(p)
  }

  lemma {:induction false} PropertiesConform(n: Node, ps: seq<PropertySpec>, parse: Parser, k: nat)
    requires k <= |ps|
    requires forall p :: p in ps ==> NumericBound(Get(p.constraints, "min")) && NumericBound(Get(p.constraints, "max"))
    ensures PropertiesTally(n, ps, k).propertyViolations == 0 ==> PropertiesFindings(n, ps, parse, k) == Found([])
    ensures PropertiesFindings(n, ps, parse, k) == Found([]) && Comparable(n, ps)
            ==> PropertiesTally(n, ps, k).propertyViolations == 0
  {
    hide PropertyFindings, PropertyPasses, NumericBound, Typed, ReadAlike, Get;
    if k > 0 {
      assert ps[k - 1] in ps;
      PropertiesConform(n, ps, parse, k - 1);
      PropertyConforms(n, ps[k - 1], parse);
      EmptyThen(PropertiesFindings(n, ps, parse, k - 1), PropertyFindings(n, ps[k - 1], parse));
    }
  }

  lemma EmptyThen(a: Outcome, b: Outcome)
    ensures a.Then(b) == Found([]) <==> a == Found([]) && b == Found([])
  {
    if a.Then(b) == Found([]) { assert |a.items + b.items| == 0; }
  }

  lemma NodeConforms(ont: Ontology, n: Node, parse: Parser)
    requires NumericBounds(ont)
    ensures NodeTally(ont, n).nodeTypeViolations == 0 && NodeTally(ont, n).propertyViolations == 0
            ==> NodeFindings(ont, n, parse) == Found([])
    ensures NodeFindings(ont, n, parse) == Found([]) && AllTyped(ont, n) && AllReadAlike(ont)
            ==> NodeTally(ont, n).nodeTypeViolations == 0 && NodeTally(ont, n).propertyViolations == 0
  {
    hide PropertiesFindings, PropertiesTally, NumericBound, Typed, ReadAlike, FirstNamed;
    FirstNamedFinds(ont.nodeTypes, NodeTypeNameOf, n.typ);
    var nt := ont.NodeTypeNamed(n.typ);
    if nt.Some? {
      var ps := nt.value.properties;
      PropertiesConform(n, ps, parse, |ps|);
      PropertiesBalance(n, ps, |ps|);
    }
  }

  lemma {:induction false} NodesConform(ont: Ontology, nodes: seq<Node>, parse: Parser, k: nat)
    requires k <= |nodes| && NumericBounds(ont)
    ensures NodesTally(ont, nodes, k).nodeTypeViolations == 0 && NodesTally(ont, nodes, k).propertyViolations == 0
            ==> NodesFindings(ont, nodes, parse, k) == Found([])
    ensures NodesFindings(ont, nodes, parse, k) == Found([]) && AllReadAlike(ont)
            && (forall i :: 0 <= i < k ==> AllTyped(ont, nodes[i]))
            ==> NodesTally(ont, nodes, k).nodeTypeViolations == 0 && NodesTally(ont, nodes, k).propertyViolations == 0
  {
    hide NodeFindings, NodeTally, NumericBounds, AllTyped, AllReadAlike;
    if k > 0 {
      NodesConform(ont, nodes, parse, k - 1);
      NodeConforms(ont, nodes[k - 1], parse);
      EmptyThen(NodesFindings(ont, nodes, parse, k - 1), NodeFindings(ont, nodes[k - 1], parse));
    }
  }

  /**
   * With numeric bounds, a judge score of 1 implies that `check` (without cardinality) conforms;
   * the converse holds when the constraints are ones both read alike and every value has its declared datatype.
   */
  lemma PerfectScoreConforms(ds: Dataset, parse: Parser)
    requires NumericBounds(ds.ontology)
    ensures Spotless(DatasetTally(ds)) ==> StructuralFindings(ds, parse) == Found([])
    ensures AllReadAlike(ds.ontology) && (forall n :: n in ds.nodes ==> AllTyped(ds.ontology, n)) ==>
      (Spotless(DatasetTally(ds)) <==> StructuralFindings(ds, parse) == Found([]))
  {
    hide NodesFindings, EdgeFindings, NodesTally, EdgesTally, NodesById, TypesById, NumericBounds, AllTyped,
         AllReadAlike;
    EdgeCounts(ds.ontology, ds.nodes, ds.edges, |ds.edges|);
    NodesConform(ds.ontology, ds.nodes, parse, |ds.nodes|);
    NodesBalance(ds.ontology, ds.nodes, |ds.nodes|);
    EdgesBalance(ds.ontology, NodesById(ds.nodes), ds.edges, |ds.edges|);
  }

  /** A present value meets what the judge checks and the validator does not. */
  predicate JudgedAlike(n: Node, p: PropertySpec) {
    var v, choices := Get(n.properties, p.name), Get(p.constraints, "choices");
    var lo, hi := NumberOf(Get(p.constraints, "min")), NumberOf(Get(p.constraints, "max"));
    v.Null? ||
    (&& DatatypeOk(v, p.datatyp)
     && !(choices.List? && |choices.items| == 0)
     && (p.datatyp !in ["integer", "float"] && (v.Int? || v.Float?) ==>
           (lo.Some? ==> NumberOf(v).value >= lo.value) && (hi.Some? ==> NumberOf(v).value <= hi.value)))
  }

  ghost predicate NodeJudgedAlike(ont: Ontology, n: Node) {
    var nt := ont.NodeTypeNamed(n.typ);
    nt.Some? ==> forall j :: 0 <= j < |nt.value.properties| ==> JudgedAlike(n, nt.value.properties[j])
  }

  lemma PropertyJudged(n: Node, p: PropertySpec, parse: Parser)
    requires PropertyFindings(n, p, parse) == Found([])
    ensures PropertyPasses(n, p) <==> JudgedAlike(n, p)
  {
    hide ValueIn, DatatypeOk;
    var v := Get(n.properties, p.name);
    if !v.Null? && p.datatyp in ["integer", "float"] && DatatypeOk(v, p.datatyp) {
      NumericDatatypes(v, p.datatyp);
      RangeEmptyIff(n.id, p, v, parse);
    }
    NothingIn(v);
  }

  lemma NothingIn(v: Value)
    ensures !ValueIn(v, [])
  {
  }

  lemma NextProperty(n: Node, ps: seq<PropertySpec>, parse: Parser, k: nat)
    requires k < |ps|
    ensures PropertiesFindings(n, ps, parse, k + 1) == Found([]) <==>
            PropertiesFindings(n, ps, parse, k) == Found([]) && PropertyFindings(n, ps[k], parse) == Found([])
    ensures PropertiesTally(n, ps, k + 1).propertyViolations == 0 <==>
            PropertiesTally(n, ps, k).propertyViolations == 0 && PropertyPasses(n, ps[k])
  {
    hide PropertyFindings, PropertyPasses;
    EmptyThen(PropertiesFindings(n, ps, parse, k), PropertyFindings(n, ps[k], parse));
  }

  lemma NoneTallied(n: Node, ps: seq<PropertySpec>)
    ensures PropertiesTally(n, ps, 0).propertyViolations == 0
  {
  }

  lemma {:induction false} PropertiesJudged(n: Node, ps: seq<PropertySpec>, parse: Parser, k: nat)
    requires k <= |ps| && PropertiesFindings(n, ps, parse, k) == Found([])
    ensures PropertiesTally(n, ps, k).propertyViolations == 0 <==> forall j :: 0 <= j < k ==> JudgedAlike(n, ps[j])
  {
    hide PropertyFindings, PropertyPasses, JudgedAlike, PropertiesFindings, PropertiesTally;
    if k == 0 {
      NoneTallied(n, ps);
    } else {
      NextProperty(n, ps, parse, k - 1);
      PropertiesJudged(n, ps, parse, k - 1);
      PropertyJudged(n, ps[k - 1], parse);
    }
  }

  lemma NodeJudgedIff(ont: Ontology, n: Node, parse: Parser)
    requires NodeFindings(ont, n, parse) == Found([])
    ensures NodeTally(ont, n).nodeTypeViolations == 0
    ensures NodeTally(ont, n).propertyViolations == 0 <==> NodeJudgedAlike(ont, n)
  {
    hide PropertiesFindings, PropertiesTally, JudgedAlike, Ontology.NodeTypeNamed;
    var nt := ont.NodeTypeNamed(n.typ);
    if nt.Some? {
      var ps := nt.value.properties;
      PropertiesJudged(n, ps, parse, |ps|);
      PropertiesBalance(n, ps, |ps|);
    }
  }

  lemma {:induction false} NodesJudged(ont: Ontology, nodes: seq<Node>, parse: Parser, k: nat)
    requires k <= |nodes| && NodesFindings(ont, nodes, parse, k) == Found([])
    ensures NodesTally(ont, nodes, k).nodeTypeViolations == 0
    ensures NodesTally(ont, nodes, k).propertyViolations == 0 <==>
            forall i :: 0 <= i < k ==> NodeJudgedAlike(ont, nodes[i])
  {
    hide NodeFindings, NodeTally, NodeJudgedAlike;
    if k > 0 {
      EmptyThen(NodesFindings(ont, nodes, parse, k - 1), NodeFindings(ont, nodes[k - 1], parse));
      NodesJudged(ont, nodes, parse, k - 1);
      NodeJudgedIff(ont, nodes[k - 1], parse);
    }
  }

  /**
   * The exact converse, whatever the bounds: a dataset the validator reports nothing on scores 1 exactly when every
   * present value has its declared datatype, none has an empty choice list, and the bounds of non-numeric properties
   * admit the numbers they hold.
   */
  lemma {:induction false} ConformingScoresOneIff(ds: Dataset, parse: Parser)
    requires StructuralFindings(ds, parse) == Found([])
    ensures Spotless(DatasetTally(ds)) <==>
            forall i :: 0 <= i < |ds.nodes| ==> NodeJudgedAlike(ds.ontology, ds.nodes[i])
  {
    hide NodesFindings, EdgeFindings, NodesTally, EdgesTally, NodesById, TypesById, NodeJudgedAlike;
    EdgeCounts(ds.ontology, ds.nodes, ds.edges, |ds.edges|);
    NothingReported(ds, parse);
    NodesBalance(ds.ontology, ds.nodes, |ds.nodes|);
    EdgesBalance(ds.ontology, NodesById(ds.nodes), ds.edges, |ds.edges|);
    NodesJudged(ds.ontology, ds.nodes, parse, |ds.nodes|);
  }

  lemma NothingReported(ds: Dataset, parse: Parser)
    requires StructuralFindings(ds, parse) == Found([])
    ensures EdgeFindings(ds.ontology, TypesById(ds.nodes), ds.edges, |ds.edges|) == []
    ensures NodesFindings(ds.ontology, ds.nodes, parse, |ds.nodes|) == Found([])
  {
    hide NodesFindings, EdgeFindings, TypesById;
    EmptyThen(Found(EdgeFindings(ds.ontology, TypesById(ds.nodes), ds.edges, |ds.edges|)),
              NodesFindings(ds.ontology, ds.nodes, parse, |ds.nodes|));
  }

  // Text bounds

  /** The judge enforces numeric bounds only; the validator converts any other, which must then admit the value. */
  predicate BoundAdmits(v: Value, bound: Value, lower: bool, parse: Parser) {
    || NumericBound(bound)
    || (NumberOf(v).Some? && FloatOf(bound, parse).Some? &&
        if lower then NumberOf(v).value >= FloatOf(bound, parse).value
        else NumberOf(v).value <= FloatOf(bound, parse).value)
  }

  /** The value of a numeric property is admitted by each bound the judge does not read. */
  predicate BoundsAdmit(n: Node, p: PropertySpec, parse: Parser) {
    var v := Get(n.properties, p.name);
    v.Null? || p.datatyp !in ["integer", "float"] ||
    (BoundAdmits(v, Get(p.constraints, "min"), true, parse) && BoundAdmits(v, Get(p.constraints, "max"), false, parse))
  }

  ghost predicate NodeAdmitted(ont: Ontology, n: Node, parse: Parser) {
    var nt := ont.NodeTypeNamed(n.typ);
    nt.Some? ==> forall j :: 0 <= j < |nt.value.properties| ==> BoundsAdmit(n, nt.value.properties[j], parse)
  }

  lemma PropertyAdmitted(n: Node, p: PropertySpec, parse: Parser)
    requires PropertyPasses(n, p)
    ensures PropertyFindings(n, p, parse) == Found([]) <==> BoundsAdmit(n, p, parse)
  {
    hide ValueIn, DatatypeOk;
    var v := Get(n.properties, p.name);
    if !v.Null? && p.datatyp in ["integer", "float"] {
      NumericDatatypes(v, p.datatyp);
      RangeEmptyIff(n.id, p, v, parse);
    }
  }

  lemma {:induction false} PropertiesAdmitted(n: Node, ps: seq<PropertySpec>, parse: Parser, k: nat)
    requires k <= |ps| && PropertiesTally(n, ps, k).propertyViolations == 0
    ensures PropertiesFindings(n, ps, parse, k) == Found([]) <==>
            forall j :: 0 <= j < k ==> BoundsAdmit(n, ps[j], parse)
  {
    hide PropertyFindings, PropertyPasses, BoundsAdmit;
    if k > 0 {
      PropertiesAdmitted(n, ps, parse, k - 1);
      PropertyAdmitted(n, ps[k - 1], parse);
      EmptyThen(PropertiesFindings(n, ps, parse, k - 1), PropertyFindings(n, ps[k - 1], parse));
    }
  }

  lemma NodeAdmittedIff(ont: Ontology, n: Node, parse: Parser)
    ensures NodeTally(ont, n).nodeTypeViolations == 0 && NodeTally(ont, n).propertyViolations == 0 ==>
              (NodeFindings(ont, n, parse) == Found([]) <==> NodeAdmitted(ont, n, parse))
  {
    hide PropertiesFindings, PropertiesTally, BoundsAdmit, Ontology.NodeTypeNamed;
    var nt := ont.NodeTypeNamed(n.typ);
    if nt.Some? {
      var ps := nt.value.properties;
      PropertiesBalance(n, ps, |ps|);
      if PropertiesTally(n, ps, |ps|).propertyViolations == 0 {
        PropertiesAdmitted(n, ps, parse, |ps|);
      }
    }
  }

  lemma {:induction false} NodesAdmitted(ont: Ontology, nodes: seq<Node>, parse: Parser, k: nat)
    requires k <= |nodes|
    requires NodesTally(ont, nodes, k).nodeTypeViolations == 0 && NodesTally(ont, nodes, k).propertyViolations == 0
    ensures NodesFindings(ont, nodes, parse, k) == Found([]) <==>
            forall i :: 0 <= i < k ==> NodeAdmitted(ont, nodes[i], parse)
  {
    hide NodeFindings, NodeTally, NodeAdmitted;
    if k > 0 {
      NodesAdmitted(ont, nodes, parse, k - 1);
      NodeAdmittedIff(ont, nodes[k - 1], parse);
      EmptyThen(NodesFindings(ont, nodes, parse, k - 1), NodeFindings(ont, nodes[k - 1], parse));
    }
  }

  /**
   * Whatever the bounds: on a dataset the judge scores 1, the validator (without cardinality) conforms exactly when
   * each bound that is neither absent nor a number converts and admits every value of its property.
   */
  lemma {:induction false} PerfectScoreConformsIff(ds: Dataset, parse: Parser)
    requires Spotless(DatasetTally(ds))
    ensures StructuralFindings(ds, parse) == Found([]) <==>
            forall i :: 0 <= i < |ds.nodes| ==> NodeAdmitted(ds.ontology, ds.nodes[i], parse)
  {
    hide NodesFindings, EdgeFindings, NodesTally, EdgesTally, NodesById, TypesById, NodeAdmitted;
    EdgeCounts(ds.ontology, ds.nodes, ds.edges, |ds.edges|);
    NodesBalance(ds.ontology, ds.nodes, |ds.nodes|);
    EdgesBalance(ds.ontology, NodesById(ds.nodes), ds.edges, |ds.edges|);
    NodesAdmitted(ds.ontology, ds.nodes, parse, |ds.nodes|);
  }

  const AGE := PropertySpec("age", "integer", false, map["min" := Str("5")])

  lemma TextBound(n: Node, parse: Parser)
    requires Get(n.properties, "age") == Int(3) && parse("5") == Some(5.0)
    ensures PropertyPasses(n, AGE) && PropertyFindings(n, AGE, parse) == Found([Violation(BelowMin, n.id)])
  {
    assert Lower("integer") == "integer";
    assert "min" in AGE.constraints && "max" !in AGE.constraints && "choices" !in AGE.constraints by {
      assert "min"[0] == 'm' && "max"[1] == 'a' && "min"[1] == 'i' && "choices"[0] == 'c';
    }
    assert FloatOf(Str("5"), parse) == Some(5.0);
  }

  lemma OneProperty(n: Node, p: PropertySpec, ps: seq<PropertySpec>, parse: Parser)
    requires |ps| == 1 && ps[0] == p
    ensures PropertiesTally(n, ps, |ps|) == PropertyTally(n, p)
    ensures PropertiesFindings(n, ps, parse, |ps|) == PropertyFindings(n, p, parse)
  {
    hide PropertyFindings, PropertyPasses;
    assert PropertiesTally(n, ps, 0) == ZERO;
    assert PropertiesFindings(n, ps, parse, 0) == Found([]);
    EmptyFirst(PropertyFindings(n, p, parse));
  }

  lemma OneNode(ds: Dataset, n: Node, parse: Parser)
    requires |ds.nodes| == 1 && ds.nodes[0] == n && |ds.edges| == 0
    ensures DatasetTally(ds) == NodeTally(ds.ontology, n)
    ensures StructuralFindings(ds, parse) == NodeFindings(ds.ontology, n, parse)
  {
    hide NodeFindings, NodeTally, NodesById, TypesById;
    assert NodesTally(ds.ontology, ds.nodes, 0) == ZERO;
    assert NodesFindings(ds.ontology, ds.nodes, parse, 0) == Found([]);
    EmptyFirst(NodeFindings(ds.ontology, n, parse));
    EmptyFirst(NodesFindings(ds.ontology, ds.nodes, parse, |ds.nodes|));
  }

  lemma EmptyFirst(a: Outcome)
    ensures Found([]).Then(a) == a
  {
    if a.Found? { assert [] + a.items == a.items; }
  }

  /**
   * Without numeric bounds it fails: the judge skips a bound written as text, the validator converts it.
   * A lone node typed with the single property AGE and holding 3 scores 1 and breaches the minimum "5".
   */
  lemma TextBoundEscapesJudge(ds: Dataset, n: Node, ps: seq<PropertySpec>, parse: Parser)
    requires |ds.nodes| == 1 && ds.nodes[0] == n && |ds.edges| == 0
    requires |ps| == 1 && ps[0] == AGE && ds.ontology.NodeTypeNamed(n.typ) == Some(NodeType(n.typ, ps))
    requires Get(n.properties, "age") == Int(3) && parse("5") == Some(5.0)
    ensures Spotless(DatasetTally(ds))
    ensures StructuralFindings(ds, parse) == Found([Violation(BelowMin, n.id)])
  {
    hide PropertyPasses, PropertyFindings, AGE, Ontology.NodeTypeNamed, DatasetTally, StructuralFindings,
         PropertiesFindings, PropertiesTally, Get;
    TextBound(n, parse);
    OneNode(ds, n, parse);
    OneProperty(n, AGE, ps, parse);
  }
}

/** `OntologyConsistencyGraphJudge`: the scoring checker, written independently of the validator. */
module Judge {
  import opened Strings
  import opened GraphModels

  predicate DatatypeOk(v: Value, datatyp: string) {
    var dt := Lower(datatyp);
    if dt == "boolean" then v.Bool?
    else if dt == "integer" then v.Int?
    else if dt == "float" then v.Int? || v.Float?
    else if dt == "string" || dt == "datetime" then v.Str?
    else true
  }

  /**
   * What each datatype admits, in whatever case it is written: floats are the numbers other than booleans, integers
   * those without a fraction part in their type, dates are strings, and any other name admits everything.
   */
  lemma DatatypeAdmits(v: Value, datatyp: string)
    ensures Lower(datatyp) == "float" ==>
              (DatatypeOk(v, datatyp) <==> NumberOf(v).Some? && v != Bool(true) && v != Bool(false))
    ensures Lower(datatyp) == "integer" ==> (DatatypeOk(v, datatyp) <==> exists i :: v == Int(i))
    ensures Lower(datatyp) == "boolean" ==> (DatatypeOk(v, datatyp) <==> v == Bool(true) || v == Bool(false))
    ensures Lower(datatyp) in ["string", "datetime"] ==> (DatatypeOk(v, datatyp) <==> exists s :: v == Str(s))
    ensures Lower(datatyp) !in ["float", "integer", "boolean", "string", "datetime"] ==> DatatypeOk(v, datatyp)
  {
    hide Lower;
    if v.Int? { assert v == Int(v.i); }
    if v.Str? { assert v == Str(v.s); }
  }

  predicate ConstraintsOk(v: Value, constraints: Properties) {
    var choices := Get(constraints, "choices");
    var lo, hi := NumberOf(Get(constraints, "min")), NumberOf(Get(constraints, "max"));
    && (choices.List? ==> ValueIn(v, choices.items))
    && (v.Int? || v.Float? ==>
          && (lo.Some? ==> NumberOf(v).value >= lo.value)
          && (hi.Some? ==> NumberOf(v).value <= hi.value))
  }

  predicate PropertyPasses(n: Node, p: PropertySpec) {
    var v := Get(n.properties, p.name);
    if v.Null? then p.nullable else DatatypeOk(v, p.datatyp) && ConstraintsOk(v, p.constraints)
  }

  predicate EdgePasses(ont: Ontology, byId: map<string, Node>, e: Edge) {
    var et := ont.EdgeTypeNamed(e.typ);
    && et.Some? && e.source in byId && e.target in byId
    && byId[e.source].typ == et.value.sourceType && byId[e.target].typ == et.value.targetType
  }

  /** The verdicts the judge tallies. */
  datatype Tally = Tally(checks: nat, passed: nat,
                         nodeTypeViolations: nat, propertyViolations: nat, edgeViolations: nat) {
    function Plus(t: Tally): Tally {
      Tally(checks + t.checks, passed + t.passed, nodeTypeViolations + t.nodeTypeViolations,
            propertyViolations + t.propertyViolations, edgeViolations + t.edgeViolations)
    }
  }

  datatype Verdict = NotApplicable | Scored(score: real, tally: Tally)

  const ZERO := Tally(0, 0, 0, 0, 0)

  function PropertyTally(n: Node, p: PropertySpec): Tally {
    if PropertyPasses(n, p) then Tally(1, 1, 0, 0, 0) else Tally(1, 0, 0, 1, 0)
  }

  /** The tally of the first `k` properties; likewise for nodes and edges below. */
  function PropertiesTally(n: Node, ps: seq<PropertySpec>, k: nat): Tally
    requires k <= |ps|
  {
    if k == 0 then ZERO else PropertiesTally(n, ps, k - 1).Plus(PropertyTally(n, ps[k - 1]))
  }

  function NodeTally(ont: Ontology, n: Node): Tally {
    match ont.NodeTypeNamed(n.typ)
    case None => Tally(1, 0, 1, 0, 0)
    case Some(nt) => Tally(1, 1, 0, 0, 0).Plus(PropertiesTally(n, nt.properties, |nt.properties|))
  }

  function NodesTally(ont: Ontology, nodes: seq<Node>, k: nat): Tally
    requires k <= |nodes|
  {
    if k == 0 then ZERO else NodesTally(ont, nodes, k - 1).Plus(NodeTally(ont, nodes[k - 1]))
  }

  function EdgeTally(ont: Ontology, byId: map<string, Node>, e: Edge): Tally {
    if EdgePasses(ont, byId, e) then Tally(1, 1, 0, 0, 0) else Tally(1, 0, 0, 0, 1)
  }

  function EdgesTally(ont: Ontology, byId: map<string, Node>, edges: seq<Edge>, k: nat): Tally
    requires k <= |edges|
  {
    if k == 0 then ZERO else EdgesTally(ont, byId, edges, k - 1).Plus(EdgeTally(ont, byId, edges[k - 1]))
  }

  function DatasetTally(ds: Dataset): Tally {
    NodesTally(ds.ontology, ds.nodes, |ds.nodes|)
    .Plus(EdgesTally(ds.ontology, NodesById(ds.nodes), ds.edges, |ds.edges|))
  }

  lemma PropertiesStep(start: Tally, t: Tally, n: Node, ps: seq<PropertySpec>, j: nat)
    requires j < |ps| && t == start.Plus(PropertiesTally(n, ps, j))
    ensures start.Plus(PropertiesTally(n, ps, j + 1)) ==
            if PropertyPasses(n, ps[j]) then t.(checks := t.checks + 1, passed := t.passed + 1)
            else t.(checks := t.checks + 1, propertyViolations := t.propertyViolations + 1)
  {
    hide PropertyPasses;
  }

  method TallyNode(ont: Ontology, n: Node, start: Tally) returns (t: Tally)
    ensures t == start.Plus(NodeTally(ont, n))
  {
    hide DatatypeOk, ConstraintsOk;
    t := start.(checks := start.checks + 1);
    var nt := ont.NodeTypeNamed(n.typ);
    if nt.None? {
      t := t.(nodeTypeViolations := t.nodeTypeViolations + 1);
      return;
    }
    t := t.(passed := t.passed + 1);
    var ps := nt.value.properties;
    ghost var base := t;
    for j := 0 to |ps|
      invariant t == base.Plus(PropertiesTally(n, ps, j))
    {
      PropertiesStep(base, t, n, ps, j);
      hide PropertiesTally, Tally.Plus;
      t := t.(checks := t.checks + 1);
      var v := Get(n.properties, ps[j].name);
      if v.Null? {
        if ps[j].nullable {
          t := t.(passed := t.passed + 1);
        } else {
          t := t.(propertyViolations := t.propertyViolations + 1);
        }
        continue;
      }
      if DatatypeOk(v, ps[j].datatyp) && ConstraintsOk(v, ps[j].constraints) {
        t := t.(passed := t.passed + 1);
      } else {
        t := t.(propertyViolations := t.propertyViolations + 1);
      }
    }
  }

  lemma TalliesStart(start: Tally, ont: Ontology, byId: map<string, Node>, edges: seq<Edge>)
    ensures start.Plus(EdgesTally(ont, byId, edges, 0)) == start
  {
  }

  lemma TalliesStep(start: Tally, t: Tally, ont: Ontology, byId: map<string, Node>, edges: seq<Edge>, i: nat)
    requires i < |edges| && t == start.Plus(EdgesTally(ont, byId, edges, i))
    ensures start.Plus(EdgesTally(ont, byId, edges, i + 1)) ==
            if EdgePasses(ont, byId, edges[i]) then t.(checks := t.checks + 1, passed := t.passed + 1)
            else t.(checks := t.checks + 1, edgeViolations := t.edgeViolations + 1)
  {
    hide EdgePasses;
  }

  method TallyEdges(ont: Ontology, byId: map<string, Node>, edges: seq<Edge>, start: Tally) returns (t: Tally)
    ensures t == start.Plus(EdgesTally(ont, byId, edges, |edges|))
  {
    hide Ontology.EdgeTypeNamed, Tally.Plus, EdgesTally;
    t := start;
    TalliesStart(start, ont, byId, edges);
    for i := 0 to |edges|
      invariant t == start.Plus(EdgesTally(ont, byId, edges, i))
    {
      var e := edges[i];
      TalliesStep(start, t, ont, byId, edges, i);
      t := t.(checks := t.checks + 1);
      var et := ont.EdgeTypeNamed(e.typ);
      if && et.Some? && e.source in byId && e.target in byId
         && byId[e.source].typ == et.value.sourceType && byId[e.target].typ == et.value.targetType {
        t := t.(passed := t.passed + 1);
      } else {
        t := t.(edgeViolations := t.edgeViolations + 1);
      }
    }
  }

  /** `compute`: the pass fraction, or not applicable to an empty graph. */
  method Compute(ds: Dataset) returns (v: Verdict)
    ensures v.NotApplicable? <==> ds.nodes == [] && ds.edges == []
    ensures v.Scored? ==>
      && v.tally == DatasetTally(ds)
      && v.tally.checks > 0
      && v.score == v.tally.passed as real / v.tally.checks as real
  {
    hide NodeTally, EdgesTally, NodesById;
    var t := ZERO;
    for i := 0 to |ds.nodes|
      invariant t == NodesTally(ds.ontology, ds.nodes, i)
    {
      t := TallyNode(ds.ontology, ds.nodes[i], t);
    }
    t := TallyEdges(ds.ontology, NodesById(ds.nodes), ds.edges, t);
    TallyBalances(ds);
    if t.checks == 0 { return NotApplicable; }
    return Scored(t.passed as real / t.checks as real, t);
  }

  /** Each check passes or is exactly one violation. */
  ghost predicate Balanced(t: Tally) {
    t.passed + t.nodeTypeViolations + t.propertyViolations + t.edgeViolations == t.checks
  }

  ghost predicate Spotless(t: Tally) {
    t.nodeTypeViolations == 0 && t.propertyViolations == 0 && t.edgeViolations == 0
  }

  lemma {:induction false} PropertiesBalance(n: Node, ps: seq<PropertySpec>, k: nat)
    requires k <= |ps|
    ensures var t := PropertiesTally(n, ps, k);
      Balanced(t) && t.checks == k && t.nodeTypeViolations == t.edgeViolations == 0
  {
    hide PropertyPasses;
    if k > 0 { PropertiesBalance(n, ps, k - 1); }
  }

  lemma {:induction false} NodesBalance(ont: Ontology, nodes: seq<Node>, k: nat)
    requires k <= |nodes|
    ensures var t := NodesTally(ont, nodes, k);
      Balanced(t) && t.checks >= k && (k == 0 ==> t.checks == 0) && t.edgeViolations == 0
  {
    hide PropertyPasses;
    if k > 0 {
      NodesBalance(ont, nodes, k - 1);
      var nt := ont.NodeTypeNamed(nodes[k - 1].typ);
      if nt.Some? { PropertiesBalance(nodes[k - 1], nt.value.properties, |nt.value.properties|); }
    }
  }

  lemma {:induction false} EdgesBalance(ont: Ontology, byId: map<string, Node>, edges: seq<Edge>, k: nat)
    requires k <= |edges|
    ensures var t := EdgesTally(ont, byId, edges, k);
      Balanced(t) && t.checks == k && t.nodeTypeViolations == t.propertyViolations == 0
  {
    hide EdgePasses;
    if k > 0 { EdgesBalance(ont, byId, edges, k - 1); }
  }

  lemma TallyBalances(ds: Dataset)
    ensures Balanced(DatasetTally(ds))
    ensures DatasetTally(ds).checks >= |ds.nodes| + |ds.edges|
    ensures DatasetTally(ds).checks == 0 <==> ds.nodes == [] && ds.edges == []
  {
    hide NodesTally, EdgesTally, NodesById;
    NodesBalance(ds.ontology, ds.nodes, |ds.nodes|);
    EdgesBalance(ds.ontology, NodesById(ds.nodes), ds.edges, |ds.edges|);
  }

  /** The score lies in [0,1], and is 1 exactly when nothing is violated. */
  lemma {:induction false} PerfectScore(ds: Dataset)
    requires ds.nodes != [] || ds.edges != []
    ensures var t := DatasetTally(ds);
      && t.checks > 0
      && 0.0 <= t.passed as real / t.checks as real <= 1.0
      && (t.passed as real / t.checks as real == 1.0 <==> Spotless(t))
  {
    hide DatasetTally;
    TallyBalances(ds);
    var t := DatasetTally(ds);
    Fraction(t.passed as real, t.checks as real);
  }

  lemma Fraction(p: real, c: real)
    requires 0.0 <= p <= c && c > 0.0
    ensures 0.0 <= p / c <= 1.0
    ensures p / c == 1.0 <==> p == c
  {
    var q := p / c;
    assert q * c == p;
    assert q < 0.0 ==> q * c < 0.0;
    assert q > 1.0 ==> q * c > c;
  }
}

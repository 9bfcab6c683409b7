/** `OntologyConstraintValidator`: the structural checker that gates generated graphs. */
module Validator {
  import opened Sequences
  import opened Strings
  import opened GraphModels

  datatype Kind =
    | UnknownEdgeType | DanglingEdge | DomainRange
    | UnknownNodeType | MissingRequired | NotInChoices | WrongType | BelowMin | AboveMax
    | OverCardinality

  /** One constraint breach; the human-readable detail string is not kept. */
  datatype Violation = Violation(kind: Kind, subject: string)

  /** What a pass yields: its violations, or the exception that `float(bound)` escapes with. */
  datatype Outcome = Found(items: seq<Violation>) | Raises {
    function Then(next: Outcome): Outcome {
      if Found? && next.Found? then Found(items + next.items) else Raises
    }
  }

  /** `float(text)`: the number a string denotes, if any. */
  type Parser = string -> Option<real>

  function FloatOf(v: Value, parse: Parser): Option<real> {
    if v.Str? then parse(v.s) else NumberOf(v)
  }

  // Edge pass. Each pass returns what it appends to the report.

  function EdgeFinding(ont: Ontology, typeOf: map<string, string>, e: Edge): seq<Violation> {
    match ont.EdgeTypeNamed(e.typ)
    case None => [Violation(UnknownEdgeType, e.id)]
    case Some(et) =>
      if e.source !in typeOf || e.target !in typeOf then [Violation(DanglingEdge, e.id)]
      else if typeOf[e.source] != et.sourceType || typeOf[e.target] != et.targetType then [Violation(DomainRange, e.id)]
      else []
  }

  /** An edge is charged at most once: an unknown type, else a missing endpoint, else an endpoint of another type. */
  lemma EdgeFindingKinds(ont: Ontology, typeOf: map<string, string>, e: Edge)
    ensures var found, named := EdgeFinding(ont, typeOf, e), FirstNamed(ont.edgeTypes, EdgeTypeNameOf, e.typ);
      && (found == [Violation(UnknownEdgeType, e.id)] <==> forall et :: et in ont.edgeTypes ==> et.name != e.typ)
      && (named.Some? ==>
            && (found == [Violation(DanglingEdge, e.id)] <==> !({e.source, e.target} <= typeOf.Keys))
            && ({e.source, e.target} <= typeOf.Keys ==>
                  (found == [Violation(DomainRange, e.id)] <==>
                     (typeOf[e.source], typeOf[e.target]) != (named.value.sourceType, named.value.targetType)))
            && (found == [] <==>
                  && {e.source, e.target} <= typeOf.Keys
                  && (typeOf[e.source], typeOf[e.target]) == (named.value.sourceType, named.value.targetType)))
  {
    hide FirstNamed;
    FirstNamedFinds(ont.edgeTypes, EdgeTypeNameOf, e.typ);
    assert forall et :: et in ont.edgeTypes ==> EdgeTypeNameOf(et) == et.name;
  }

  /** The findings of the first `k` edges. */
  function EdgeFindings(ont: Ontology, typeOf: map<string, string>, edges: seq<Edge>, k: nat): seq<Violation>
    requires k <= |edges|
  {
    if k == 0 then [] else EdgeFindings(ont, typeOf, edges, k - 1) + EdgeFinding(ont, typeOf, edges[k - 1])
  }

  method CheckEdges(ds: Dataset, typeOf: map<string, string>) returns (found: seq<Violation>)
    ensures found == EdgeFindings(ds.ontology, typeOf, ds.edges, |ds.edges|)
  {
    hide Ontology.EdgeTypeNamed;
    found := [];
    for i := 0 to |ds.edges|
      invariant found == EdgeFindings(ds.ontology, typeOf, ds.edges, i)
    {
      var e := ds.edges[i];
      var et := ds.ontology.EdgeTypeNamed(e.typ);
      if et.None? {
        found := found + [Violation(UnknownEdgeType, e.id)];
        continue;
      }
      if e.source !in typeOf || e.target !in typeOf {
        found := found + [Violation(DanglingEdge, e.id)];
        continue;
      }
      if typeOf[e.source] != et.value.sourceType || typeOf[e.target] != et.value.targetType {
        found := found + [Violation(DomainRange, e.id)];
      }
    }
  }

  // Property pass

  function RangeFindings(id: string, p: PropertySpec, v: Value, parse: Parser): Outcome {
    match FloatOf(v, parse)
    case None => Found([Violation(WrongType, id)])
    case Some(num) =>
      var lo, hi := Get(p.constraints, "min"), Get(p.constraints, "max");
      if (!lo.Null? && FloatOf(lo, parse).None?) || (!hi.Null? && FloatOf(hi, parse).None?) then Raises
      else Found((if !lo.Null? && num < FloatOf(lo, parse).value then [Violation(BelowMin, id)] else []) +
                 (if !hi.Null? && num > FloatOf(hi, parse).value then [Violation(AboveMax, id)] else []))
  }

  function ChoiceFindings(id: string, p: PropertySpec, v: Value): seq<Violation> {
    var choices := Get(p.constraints, "choices");
    if choices.List? && |choices.items| > 0 && !ValueIn(v, choices.items) then [Violation(NotInChoices, id)] else []
  }

  function PropertyFindings(n: Node, p: PropertySpec, parse: Parser): Outcome {
    var v := Get(n.properties, p.name);
    if v.Null? then Found(if p.nullable then [] else [Violation(MissingRequired, n.id)])
    else
      var choice := Found(ChoiceFindings(n.id, p, v));
      if p.datatyp in ["integer", "float"] then choice.Then(RangeFindings(n.id, p, v, parse)) else choice
  }

  /**
   * What a property is charged with: a null exactly when it is required; a value outside a non-empty choice list; and,
   * for the two numeric datatypes, what the range check finds.
   */
  lemma PropertyFindingKinds(n: Node, p: PropertySpec, parse: Parser)
    ensures var v, found := Get(n.properties, p.name), PropertyFindings(n, p, parse);
      && (v == Null ==> found == Found(if p.nullable then [] else [Violation(MissingRequired, n.id)]))
      && (v != Null && p.datatyp != "integer" && p.datatyp != "float" ==>
            found == Found(if OutsideChoices(v, p) then [Violation(NotInChoices, n.id)] else []))
      && (v != Null && (p.datatyp == "integer" || p.datatyp == "float") ==>
            var range := RangeFindings(n.id, p, v, parse);
            && (found.Raises? <==> range.Raises?)
            && (range.Found? ==>
                  found.items == (if OutsideChoices(v, p) then [Violation(NotInChoices, n.id)] else []) + range.items))
  {
    hide RangeFindings, ValueIn;
    var choices := Get(p.constraints, "choices");
    if choices.List? { assert choices.items != [] <==> |choices.items| > 0; }
    ValueInExact(Get(n.properties, p.name), if choices.List? then choices.items else []);
  }

  /** The property lists choices and none of them equals the value. */
  ghost predicate OutsideChoices(v: Value, p: PropertySpec) {
    exists items :: Get(p.constraints, "choices") == List(items) && items != []
                    && forall w :: w in items ==> !ValueEq(v, w)
  }

  function PropertiesFindings(n: Node, ps: seq<PropertySpec>, parse: Parser, k: nat): Outcome
    requires k <= |ps|
  {
    if k == 0 then Found([])
    else PropertiesFindings(n, ps, parse, k - 1).Then(PropertyFindings(n, ps[k - 1], parse))
  }

  function NodeFindings(ont: Ontology, n: Node, parse: Parser): Outcome {
    match ont.NodeTypeNamed(n.typ)
    case None => Found([Violation(UnknownNodeType, n.id)])
    case Some(nt) => PropertiesFindings(n, nt.properties, parse, |nt.properties|)
  }

  function NodesFindings(ont: Ontology, nodes: seq<Node>, parse: Parser, k: nat): Outcome
    requires k <= |nodes|
  {
    if k == 0 then Found([])
    else NodesFindings(ont, nodes, parse, k - 1).Then(NodeFindings(ont, nodes[k - 1], parse))
  }

  /** A bound is absent, or converts to a number on the right side of the value. */
  ghost predicate Respects(num: real, bound: Value, lower: bool, parse: Parser) {
    bound.Null? ||
    (FloatOf(bound, parse).Some? &&
     if lower then num >= FloatOf(bound, parse).value else num <= FloatOf(bound, parse).value)
  }

  /** Nothing is reported exactly when the value is numeric and respects both bounds. */
  lemma RangeEmptyIff(id: string, p: PropertySpec, v: Value, parse: Parser)
    ensures RangeFindings(id, p, v, parse) == Found([]) <==>
            && FloatOf(v, parse).Some?
            && Respects(FloatOf(v, parse).value, Get(p.constraints, "min"), true, parse)
            && Respects(FloatOf(v, parse).value, Get(p.constraints, "max"), false, parse)
  {
    hide Get;
    var items := RangeFindings(id, p, v, parse);
    assert items.Found? && items.items == [] ==> |items.items| == 0;
  }

  /**
   * Range check of one value.  It raises exactly when the value is numeric and a bound is present that is not; it
   * reports a wrong type exactly when the value is not numeric, and each bound exactly when the value is beyond it.
   */
  method CheckNumericRange(id: string, p: PropertySpec, v: Value, parse: Parser) returns (found: Outcome)
    ensures found == RangeFindings(id, p, v, parse)
    ensures var num, lo, hi := FloatOf(v, parse), Get(p.constraints, "min"), Get(p.constraints, "max");
            && (found.Raises? <==>
                  num.Some? && ((!lo.Null? && FloatOf(lo, parse).None?) || (!hi.Null? && FloatOf(hi, parse).None?)))
            && (found.Found? ==>
                  && (forall x :: x in found.items ==> x.subject == id)
                  && (Violation(WrongType, id) in found.items <==> num.None?)
                  && (Violation(BelowMin, id) in found.items <==> num.Some? && !Respects(num.value, lo, true, parse))
                  && (Violation(AboveMax, id) in found.items <==> num.Some? && !Respects(num.value, hi, false, parse)))
  {
    var num := FloatOf(v, parse);
    if num.None? { return Found([Violation(WrongType, id)]); }
    var items: seq<Violation> := [];
    var lo, hi := Get(p.constraints, "min"), Get(p.constraints, "max");
    if !lo.Null? {
      var bound := FloatOf(lo, parse);
      if bound.None? { return Raises; }
      if num.value < bound.value { items := items + [Violation(BelowMin, id)]; }
    }
    if !hi.Null? {
      var bound := FloatOf(hi, parse);
      if bound.None? { return Raises; }
      if num.value > bound.value { items := items + [Violation(AboveMax, id)]; }
    }
    return Found(items);
  }

  /** The checks of one property: presence, then choices, then range. */
  method CheckProperty(n: Node, p: PropertySpec, parse: Parser) returns (found: Outcome)
    ensures found == PropertyFindings(n, p, parse)
  {
    hide RangeFindings, ValueIn, Respects;
    var v := Get(n.properties, p.name);
    if v.Null? {
      return Found(if p.nullable then [] else [Violation(MissingRequired, n.id)]);
    }
    var items: seq<Violation> := [];
    var choices := Get(p.constraints, "choices");
    if choices.List? && |choices.items| > 0 && !ValueIn(v, choices.items) {
      items := items + [Violation(NotInChoices, n.id)];
    }
    if p.datatyp in ["integer", "float"] {
      var range := CheckNumericRange(n.id, p, v, parse);
      if range.Raises? { return Raises; }
      items := items + range.items;
    }
    return Found(items);
  }

  method CheckNodeProperties(n: Node, ps: seq<PropertySpec>, parse: Parser) returns (found: Outcome)
    ensures found == PropertiesFindings(n, ps, parse, |ps|)
  {
    hide PropertyFindings;
    found := Found([]);
    for j := 0 to |ps|
      invariant found.Found? && found == PropertiesFindings(n, ps, parse, j)
    {
      var own := CheckProperty(n, ps[j], parse);
      if own.Raises? {
        PropertiesRaise(n, ps, j + 1, parse, |ps|);
        return Raises;
      }
      found := Found(found.items + own.items);
    }
  }

  /** An exception in a prefix of the list is an exception in the whole. */
  lemma {:induction false} PropertiesRaise(n: Node, ps: seq<PropertySpec>, j: nat, parse: Parser, k: nat)
    requires j <= k <= |ps| && PropertiesFindings(n, ps, parse, j).Raises?
    ensures PropertiesFindings(n, ps, parse, k).Raises?
  {
    hide PropertyFindings;
    if j < k { PropertiesRaise(n, ps, j, parse, k - 1); }
  }

  lemma {:induction false} NodesRaise(ont: Ontology, nodes: seq<Node>, j: nat, parse: Parser, k: nat)
    requires j <= k <= |nodes| && NodesFindings(ont, nodes, parse, j).Raises?
    ensures NodesFindings(ont, nodes, parse, k).Raises?
  {
    hide NodeFindings;
    if j < k { NodesRaise(ont, nodes, j, parse, k - 1); }
  }

  method CheckProperties(ds: Dataset, parse: Parser) returns (found: Outcome)
    ensures found == NodesFindings(ds.ontology, ds.nodes, parse, |ds.nodes|)
  {
    hide PropertiesFindings, Ontology.NodeTypeNamed;
    found := Found([]);
    for i := 0 to |ds.nodes|
      invariant found.Found? && found == NodesFindings(ds.ontology, ds.nodes, parse, i)
    {
      var n := ds.nodes[i];
      var nt := ds.ontology.NodeTypeNamed(n.typ);
      if nt.None? {
        found := Found(found.items + [Violation(UnknownNodeType, n.id)]);
        continue;
      }
      var own := CheckNodeProperties(n, nt.value.properties, parse);
      if own.Raises? {
        NodesRaise(ds.ontology, ds.nodes, i + 1, parse, |ds.nodes|);
        return Raises;
      }
      found := Found(found.items + own.items);
    }
  }

  // Cardinality pass

  /** The sources of the first `k` edges that have the given type. */
  function SourcesOf(edges: seq<Edge>, etype: string, k: nat): seq<string>
    requires k <= |edges|
  {
    if k == 0 then []
    else if edges[k - 1].typ == etype then SourcesOf(edges, etype, k - 1) + [edges[k - 1].source]
    else SourcesOf(edges, etype, k - 1)
  }

  /** The edges of the type that leave the source, among the first `k`. */
  ghost function Leaving(edges: seq<Edge>, etype: string, k: nat, source: string): set<nat>
    requires k <= |edges|
  {
    set i | 0 <= i < k && edges[i].typ == etype && edges[i].source == source
  }

  lemma LeavingNext(edges: seq<Edge>, etype: string, k: nat, source: string)
    requires k < |edges|
    ensures |Leaving(edges, etype, k + 1, source)|
         == |Leaving(edges, etype, k, source)| + if edges[k].typ == etype && edges[k].source == source then 1 else 0
    ensures |Leaving(edges, etype, 0, source)| == 0
  {
    var before := Leaving(edges, etype, k, source);
    assert Leaving(edges, etype, k + 1, source)
        == if edges[k].typ == etype && edges[k].source == source then before + {k} else before;
    assert Leaving(edges, etype, 0, source) == {};
  }

  /** A source occurs once for each edge of the type that leaves it. */
  lemma {:induction false} SourcesCounted(edges: seq<Edge>, etype: string, k: nat, source: string)
    requires k <= |edges|
    ensures multiset(SourcesOf(edges, etype, k))[source] == |Leaving(edges, etype, k, source)|
  {
    if k > 0 {
      SourcesCounted(edges, etype, k - 1, source);
      LeavingNext(edges, etype, k - 1, source);
    } else {
      assert Leaving(edges, etype, 0, source) == {};
    }
  }

  /** `counts` is the tally of `sources`, and `order` lists its keys in insertion order. */
  ghost predicate Tallies(counts: map<string, nat>, order: seq<string>, sources: seq<string>) {
    && NoDuplicates(order)
    && (forall s :: s in order <==> s in sources)
    && (forall s :: s in order <==> s in counts)
    && (forall s :: s in counts ==> counts[s] == multiset(sources)[s])
  }

  method CountOne(counts: map<string, nat>, order: seq<string>, s: string, ghost sources: seq<string>)
    returns (counts': map<string, nat>, order': seq<string>)
    requires Tallies(counts, order, sources)
    ensures Tallies(counts', order', sources + [s])
  {
    order' := if s in counts then order else order + [s];
    counts' := counts[s := (if s in counts then counts[s] else 0) + 1];
  }

  /** The out-degree counter over the edges of one type. */
  method CountSources(edges: seq<Edge>, etype: string) returns (counts: map<string, nat>, order: seq<string>)
    ensures Tallies(counts, order, SourcesOf(edges, etype, |edges|))
  {
    counts, order := map[], [];
    assert Tallies(counts, order, []);
    for i := 0 to |edges|
      invariant Tallies(counts, order, SourcesOf(edges, etype, i))
    {
      hide Tallies;
      if edges[i].typ == etype {
        counts, order := CountOne(counts, order, edges[i].source, SourcesOf(edges, etype, i));
      }
    }
  }

  /** One relation's rule reports exactly the sources whose out-degree exceeds the limit, once each. */
  method CheckCardinality(edges: seq<Edge>, etype: string, limit: int) returns (found: seq<Violation>)
    ensures NoDuplicates(found)
    ensures forall v :: v in found <==>
      && v.kind == OverCardinality
      && v.subject in SourcesOf(edges, etype, |edges|)
      && multiset(SourcesOf(edges, etype, |edges|))[v.subject] > limit
  {
    hide SourcesOf;
    var counts, order := CountSources(edges, etype);
    found := [];
    for j := 0 to |order|
      invariant NoDuplicates(found)
      invariant forall v :: v in found <==>
        v.kind == OverCardinality && v.subject in order[..j] && counts[v.subject] > limit
    {
      var src := order[j];
      assert order[..j + 1] == order[..j] + [src];
      if counts[src] > limit {
        found := found + [Violation(OverCardinality, src)];
      }
    }
    assert order[..|order|] == order;
  }

  /** `int(text)`: the integer a string denotes, if any. */
  type IntParser = string -> Option<int>

  /** `int(v)`, which truncates; lists and dictionaries have none. */
  function IntOf(v: Value, parseInt: IntParser): Option<int> {
    match v
    case Bool(b) => Some(if b then 1 else 0)
    case Int(i) => Some(i)
    case Float(x) => Some(if x >= 0.0 then x.Floor else -(-x).Floor)
    case Str(s) => parseInt(s)
    case _ => None
  }

  /** Conversion drops the fraction part: the integer nearest to zero within one of the number, on its side of zero. */
  lemma IntTruncates(x: real, b: bool, parseInt: IntParser)
    ensures var i := IntOf(Float(x), parseInt);
      && i.Some? && -1.0 < i.value as real - x < 1.0
      && (x >= 0.0 ==> 0.0 <= i.value as real <= x) && (x <= 0.0 ==> x <= i.value as real <= 0.0)
    ensures NumberOf(Bool(b)) == Some(IntOf(Bool(b), parseInt).value as real)
  {
  }

  /** A cardinality rule: ignored, a limit, or a limit whose conversion raises. */
  datatype Rule = Ignored | Unreadable | Limit(max: int)

  function RuleOf(rule: Value, parseInt: IntParser): Rule {
    if !rule.Dict? || Get(rule.entries, "max_out_per_source").Null? then Ignored
    else
      match IntOf(Get(rule.entries, "max_out_per_source"), parseInt)
      case None => Unreadable
      case Some(max) => Limit(max)
  }

  /** A rule sets a limit exactly when it is an object whose "max_out_per_source" is there, not null, and converts. */
  lemma RuleRead(rule: Value, parseInt: IntParser)
    ensures forall d, v :: rule == Dict(d) && "max_out_per_source" in d && d["max_out_per_source"] == v && v != Null ==>
      if IntOf(v, parseInt).Some? then RuleOf(rule, parseInt) == Limit(IntOf(v, parseInt).value)
      else RuleOf(rule, parseInt) == Unreadable
    ensures forall d :: rule == Dict(d) && ("max_out_per_source" !in d || d["max_out_per_source"] == Null) ==>
      RuleOf(rule, parseInt) == Ignored
    ensures !rule.Dict? ==> RuleOf(rule, parseInt) == Ignored
  {
    hide IntOf;
  }

  /** The limit is converted only when some edge has the type. */
  ghost predicate RuleRaises(edges: seq<Edge>, etype: string, rule: Rule) {
    rule.Unreadable? && SourcesOf(edges, etype, |edges|) != []
  }

  /** Exactly the sources over the limit, once each. */
  ghost predicate RuleReported(found: seq<Violation>, edges: seq<Edge>, etype: string, rule: Rule) {
    && NoDuplicates(found)
    && forall v :: v in found <==>
         && rule.Limit?
         && v.kind == OverCardinality
         && v.subject in SourcesOf(edges, etype, |edges|)
         && multiset(SourcesOf(edges, etype, |edges|))[v.subject] > rule.max
  }

  method CheckRule(edges: seq<Edge>, etype: string, rule: Value, parseInt: IntParser) returns (found: Outcome)
    ensures found.Raises? <==> RuleRaises(edges, etype, RuleOf(rule, parseInt))
    ensures found.Found? ==> RuleReported(found.items, edges, etype, RuleOf(rule, parseInt))
  {
    hide SourcesOf, IntOf;
    if !rule.Dict? { return Found([]); }
    var maxOut := Get(rule.entries, "max_out_per_source");
    if maxOut.Null? { return Found([]); }
    var limit := IntOf(maxOut, parseInt);
    if limit.None? {
      var _, order := CountSources(edges, etype);
      var sources := SourcesOf(edges, etype, |edges|);
      assert sources != [] ==> sources[0] in order;
      assert order != [] ==> order[0] in sources;
      return if order == [] then Found([]) else Raises;
    }
    var items := CheckCardinality(edges, etype, limit.value);
    return Found(items);
  }

  // The whole check

  /** The violations of the edge and property passes, in report order. */
  function StructuralFindings(ds: Dataset, parse: Parser): Outcome {
    Found(EdgeFindings(ds.ontology, TypesById(ds.nodes), ds.edges, |ds.edges|)).Then(
      NodesFindings(ds.ontology, ds.nodes, parse, |ds.nodes|))
  }

  /** The report of `check`: the structural findings, then those of each cardinality rule in turn. */
  method Check(ds: Dataset, parse: Parser, rules: seq<(string, Value)>, parseInt: IntParser)
    returns (found: Outcome, ghost perRule: seq<seq<Violation>>)
    ensures found.Raises? <==>
            || StructuralFindings(ds, parse).Raises?
            || exists r :: 0 <= r < |rules| && RuleRaises(ds.edges, rules[r].0, RuleOf(rules[r].1, parseInt))
    ensures found.Found? ==>
              && |perRule| == |rules|
              && found.items == StructuralFindings(ds, parse).items + Concat(perRule)
              && forall r :: 0 <= r < |rules| ==>
                   RuleReported(perRule[r], ds.edges, rules[r].0, RuleOf(rules[r].1, parseInt))
  {
    hide EdgeFindings, NodesFindings, TypesById, SourcesOf, RuleOf, RuleReported;
    perRule := [];
    var edgeItems := CheckEdges(ds, TypesById(ds.nodes));
    found := CheckProperties(ds, parse);
    if found.Raises? { return; }
    found := Found(edgeItems + found.items);
    ghost var structural := found.items;
    for r := 0 to |rules|
      invariant |perRule| == r
      invariant found.Found? && found.items == structural + Concat(perRule)
      invariant forall q :: 0 <= q < r ==>
                  && !RuleRaises(ds.edges, rules[q].0, RuleOf(rules[q].1, parseInt))
                  && RuleReported(perRule[q], ds.edges, rules[q].0, RuleOf(rules[q].1, parseInt))
    {
      var own := CheckRule(ds.edges, rules[r].0, rules[r].1, parseInt);
      if own.Raises? {
        assert RuleRaises(ds.edges, rules[r].0, RuleOf(rules[r].1, parseInt));
        return Raises, perRule;
      }
      ConcatPush(perRule, own.items);
      found := Found(found.items + own.items);
      perRule := perRule + [own.items];
    }
  }

  lemma ConcatPush<T>(xss: seq<seq<T>>, xs: seq<T>)
    ensures Concat(xss + [xs]) == Concat(xss) + xs
  {
    assert (xss + [xs])[..|xss|] == xss;
  }

  function KindOf(v: Violation): Kind { v.kind }

  /** How often each kind of violation occurs in a report. */
  function Kinds(vs: seq<Violation>): multiset<Kind> {
    multiset(MapSeq(KindOf, vs))
  }

  lemma KindsAppend(us: seq<Violation>, vs: seq<Violation>)
    ensures Kinds(us + vs) == Kinds(us) + Kinds(vs)
  {
    assert MapSeq(KindOf, us + vs) == MapSeq(KindOf, us) + MapSeq(KindOf, vs);
  }

  lemma KindsNone()
    ensures Kinds([]) == multiset{}
  {
    assert MapSeq(KindOf, []) == [];
  }

  lemma KindsOne(v: Violation)
    ensures Kinds([v]) == multiset{v.kind}
  {
    assert MapSeq(KindOf, [v]) == [v.kind];
  }

  // Deliberate violations

  function MissingTarget(i: nat): string { "__missing__:" + Decimal(i) }

  /** The i-th injected edge, copying the type and source of a drawn template. */
  function InjectedEdge(edges: seq<Edge>, i: nat, draw: nat): Edge
    requires |edges| > 0
  {
    var template := edges[draw % |edges|];
    Edge("__violation__:" + Decimal(i), template.typ, template.source, MissingTarget(i), map[])
  }

  /** An injected edge repeats some given edge's type and source, with its own id and target; any may be drawn. */
  lemma InjectedCopies(edges: seq<Edge>, i: nat, draw: nat, j: nat)
    requires j < |edges|
    ensures var e := InjectedEdge(edges, i, draw);
      && (exists t :: t in edges && e.typ == t.typ && e.source == t.source)
      && e.id == "__violation__:" + Decimal(i) && e.target == "__missing__:" + Decimal(i) && e.properties == map[]
    ensures InjectedEdge(edges, i, j).typ == edges[j].typ && InjectedEdge(edges, i, j).source == edges[j].source
  {
    hide Decimal;
    assert edges[draw % |edges|] in edges;
    assert j % |edges| == j;
  }

  /** `inject_violations`; `draws(i)` is the raw random word behind the i-th template choice. */
  method InjectViolations(ds: Dataset, n: int, draws: nat -> nat) returns (out: Dataset)
    ensures out.ontology == ds.ontology && out.nodes == ds.nodes && ds.edges <= out.edges
    ensures |out.edges| == |ds.edges| + (if n <= 0 || ds.edges == [] then 0 else n)
    ensures forall i :: |ds.edges| <= i < |out.edges| ==>
      out.edges[i] == InjectedEdge(ds.edges, i - |ds.edges|, draws(i - |ds.edges|))
  {
    if n <= 0 || ds.edges == [] { return ds; }
    var extra: seq<Edge> := [];
    for i := 0 to n
      invariant |extra| == i
      invariant forall k :: 0 <= k < i ==> extra[k] == InjectedEdge(ds.edges, k, draws(k))
    {
      extra := extra + [InjectedEdge(ds.edges, i, draws(i))];
    }
    return ds.(edges := ds.edges + extra);
  }

  lemma {:induction false} EdgeFindingsPrefix(ont: Ontology, typeOf: map<string, string>, es: seq<Edge>, fs: seq<Edge>,
                                              k: nat)
    requires k <= |es| && es <= fs
    ensures EdgeFindings(ont, typeOf, fs, k) == EdgeFindings(ont, typeOf, es, k)
  {
    hide EdgeFinding;
    if k > 0 { EdgeFindingsPrefix(ont, typeOf, es, fs, k - 1); }
  }

  /** Each edge with an absent target adds exactly one violation, whatever its type. */
  lemma {:induction false} AbsentTargets(ont: Ontology, typeOf: map<string, string>, es: seq<Edge>, from: nat, k: nat)
    requires from <= k <= |es|
    requires forall i :: from <= i < k ==> es[i].target !in typeOf
    ensures |EdgeFindings(ont, typeOf, es, k)| == |EdgeFindings(ont, typeOf, es, from)| + k - from
  {
    hide Ontology.EdgeTypeNamed;
    if k > from { AbsentTargets(ont, typeOf, es, from, k - 1); }
  }

  /**
   * Injection raises the violation count by exactly the number of edges it adds,
   * as long as no node already uses one of the `__missing__` ids.
   */
  lemma InjectionExact(ds: Dataset, out: Dataset, draws: nat -> nat, parse: Parser)
    requires out.ontology == ds.ontology && out.nodes == ds.nodes && ds.edges <= out.edges && |ds.edges| > 0
    requires forall i :: |ds.edges| <= i < |out.edges| ==>
      out.edges[i] == InjectedEdge(ds.edges, i - |ds.edges|, draws(i - |ds.edges|))
    requires forall i: nat :: i < |out.edges| - |ds.edges| ==> !HasId(ds.nodes, MissingTarget(i))
    ensures StructuralFindings(ds, parse).Raises? <==> StructuralFindings(out, parse).Raises?
    ensures StructuralFindings(ds, parse).Found? ==>
      |StructuralFindings(out, parse).items| == |StructuralFindings(ds, parse).items| + |out.edges| - |ds.edges|
  {
    hide EdgeFindings, NodesFindings, Decimal, NodesById, TypesById;
    DictionariesAgree(ds.nodes);
    var typeOf := TypesById(ds.nodes);
    forall i | |ds.edges| <= i < |out.edges| ensures out.edges[i].target !in typeOf {
      assert out.edges[i].target == MissingTarget(i - |ds.edges|);
    }
    EdgeFindingsPrefix(ds.ontology, typeOf, ds.edges, out.edges, |ds.edges|);
    AbsentTargets(ds.ontology, typeOf, out.edges, |ds.edges|, |out.edges|);
  }
}

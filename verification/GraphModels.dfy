/** The labelled property graph: ontology, instances and the JSON-like values they carry. */
module GraphModels {
  import opened Sequences
  import opened Strings

  /** A property value as `json.loads` can produce it. */
  datatype Value =
    | Null
    | Bool(b: bool)
    | Int(i: int)
    | Float(x: real)
    | Str(s: string)
    | List(items: seq<Value>)
    | Dict(entries: map<string, Value>)

  type Properties = map<string, Value>

  /** `d.get(k)`: an absent key reads as null. */
  function Get(d: Properties, k: string): Value {
    if k in d then d[k] else Null
  }

  /** Booleans are integers in Python, so they have a numeric value too. */
  function NumberOf(v: Value): Option<real> {
    match v
    case Bool(b) => Some(if b then 1.0 else 0.0)
    case Int(i) => Some(i as real)
    case Float(x) => Some(x)
    case _ => None
  }

  /** `==` between values: numbers compare by magnitude whatever their type. */
  predicate ValueEq(a: Value, b: Value)
    decreases a
  {
    if NumberOf(a).Some? || NumberOf(b).Some? then NumberOf(a) == NumberOf(b)
    else
      match (a, b)
      case (Null, Null) => true
      case (Str(s), Str(t)) => s == t
      case (List(xs), List(ys)) => |xs| == |ys| && forall i :: 0 <= i < |xs| ==> ValueEq(xs[i], ys[i])
      case (Dict(m), Dict(n)) => m.Keys == n.Keys && forall k :: k in m.Keys ==> ValueEq(m[k], n[k])
      case _ => false
  }

  /** Numbers of equal magnitude are equal, whatever their types; a number equals nothing else. */
  lemma {:induction false} NumbersCompare(a: Value, b: Value, x: real)
    requires NumberOf(a) == Some(x)
    ensures ValueEq(a, b) <==> b == Float(x) || (exists i: int :: b == Int(i) && i as real == x)
                               || (b == Bool(true) && x == 1.0) || (b == Bool(false) && x == 0.0)
  {
    if b.Int? && b.i as real == x { assert b == Int(b.i); }
  }

  /** Equality of values is an equivalence. */
  lemma {:induction false} ValueEqReflexive(a: Value)
    ensures ValueEq(a, a)
  {
    if a.List? {
      forall i | 0 <= i < |a.items| ensures ValueEq(a.items[i], a.items[i]) { ValueEqReflexive(a.items[i]); }
    } else if a.Dict? {
      forall k | k in a.entries ensures ValueEq(a.entries[k], a.entries[k]) { ValueEqReflexive(a.entries[k]); }
    }
  }

  lemma {:induction false} ValueEqSymmetric(a: Value, b: Value)
    requires ValueEq(a, b)
    ensures ValueEq(b, a)
    decreases a
  {
    if a.List? {
      forall i | 0 <= i < |a.items| ensures ValueEq(b.items[i], a.items[i]) {
        ValueEqSymmetric(a.items[i], b.items[i]);
      }
    } else if a.Dict? {
      forall k | k in a.entries ensures ValueEq(b.entries[k], a.entries[k]) {
        ValueEqSymmetric(a.entries[k], b.entries[k]);
      }
    }
  }

  lemma {:induction false} ValueEqTransitive(a: Value, b: Value, c: Value)
    requires ValueEq(a, b) && ValueEq(b, c)
    ensures ValueEq(a, c)
    decreases a
  {
    if a.List? {
      forall i | 0 <= i < |a.items| ensures ValueEq(a.items[i], c.items[i]) {
        ValueEqTransitive(a.items[i], b.items[i], c.items[i]);
      }
    } else if a.Dict? {
      forall k | k in a.entries ensures ValueEq(a.entries[k], c.entries[k]) {
        ValueEqTransitive(a.entries[k], b.entries[k], c.entries[k]);
      }
    }
  }

  predicate ValueIn(v: Value, items: seq<Value>) {
    exists i :: 0 <= i < |items| && ValueEq(v, items[i])
  }

  /** `bool(v)`. */
  predicate Truthy(v: Value) {
    match v
    case Null => false
    case Bool(b) => b
    case Int(i) => i != 0
    case Float(x) => x != 0.0
    case Str(s) => s != ""
    case List(xs) => |xs| > 0
    case Dict(m) => |m| > 0
  }

  /** What `bool` calls false: null, zero of any number type, and whatever is empty. */
  lemma FalsyExactly(v: Value)
    ensures !Truthy(v) <==> v == Null || NumberOf(v) == Some(0.0) || v == Str("") || v == List([]) || v == Dict(map[])
  {
    if v.Str? { assert |v.s| == 0 <==> v.s == ""; }
    if v.List? { assert |v.items| == 0 <==> v.items == []; }
    if v.Dict? { assert |v.entries| == 0 <==> v.entries == map[]; }
  }

  /** A list holds a value exactly when some item of it is equal to the value. */
  lemma ValueInExact(v: Value, items: seq<Value>)
    ensures ValueIn(v, items) <==> exists w :: w in items && ValueEq(v, w)
    ensures v in items ==> ValueIn(v, items)
  {
    hide ValueEq;
    if w :| w in items && ValueEq(v, w) {
      var i :| 0 <= i < |items| && items[i] == w;
      assert ValueEq(v, items[i]);
    }
    ValueEqReflexive(v);
  }

  datatype PropertySpec = PropertySpec(name: string, datatyp: string, nullable: bool, constraints: Properties)

  /** Substrings of a property name that mark its value as personal data. */
  const PII_KEYWORDS := ["name", "email", "phone", "address", "ssn", "credit_card", "dob", "birth"]

  predicate IsPii(p: PropertySpec) {
    Truthy(Get(p.constraints, "pii")) || exists i :: 0 <= i < |PII_KEYWORDS| && Contains(Lower(p.name), PII_KEYWORDS[i])
  }

  /**
   * Personal data: properties flagged as such, and those whose name holds one of the keywords, in any case and at any
   * place; no others.
   */
  lemma PiiExactly(p: PropertySpec)
    ensures IsPii(p) <==>
      || ("pii" in p.constraints && Truthy(p.constraints["pii"]))
      || exists word, before, after :: word in PII_KEYWORDS && Lower(p.name) == before + word + after
  {
    hide Truthy, Lower, Contains;
    var name := Lower(p.name);
    if word, before, after :| word in PII_KEYWORDS && name == before + word + after {
      var i :| 0 <= i < |PII_KEYWORDS| && PII_KEYWORDS[i] == word;
      ContainsAt(before, word, after);
    }
    if i :| 0 <= i < |PII_KEYWORDS| && Contains(name, PII_KEYWORDS[i]) {
      var before, after := ContainsSplits(name, PII_KEYWORDS[i]);
      assert PII_KEYWORDS[i] in PII_KEYWORDS;
    }
    NullIsFalsy();
  }

  lemma NullIsFalsy()
    ensures !Truthy(Null)
  {
  }

  datatype NodeType = NodeType(name: string, properties: seq<PropertySpec>)

  datatype EdgeType = EdgeType(name: string, sourceType: string, targetType: string, directed: bool)

  datatype Node = Node(id: string, typ: string, properties: Properties)

  datatype Edge = Edge(id: string, typ: string, source: string, target: string, properties: Properties)

  datatype Dataset = Dataset(ontology: Ontology, nodes: seq<Node>, edges: seq<Edge>)

  datatype Ontology = Ontology(nodeTypes: seq<NodeType>, edgeTypes: seq<EdgeType>) {
    /** `next((t for t in types if t.name == name), None)`. */
    function NodeTypeNamed(name: string): Option<NodeType> {
      FirstNamed(nodeTypes, NodeTypeNameOf, name)
    }

    function EdgeTypeNamed(name: string): Option<EdgeType> {
      FirstNamed(edgeTypes, EdgeTypeNameOf, name)
    }
  }

  /** The first element bearing a name. */
  function FirstNamed<T>(xs: seq<T>, nameOf: T -> string, name: string): Option<T> {
    if |xs| == 0 then None
    else if nameOf(xs[0]) == name then Some(xs[0])
    else FirstNamed(xs[1..], nameOf, name)
  }

  lemma {:induction false} FirstNamedFinds<T>(xs: seq<T>, nameOf: T -> string, name: string)
    ensures var r := FirstNamed(xs, nameOf, name);
      && (r.None? <==> forall x :: x in xs ==> nameOf(x) != name)
      && (r.Some? ==> r.value in xs && nameOf(r.value) == name)
  {
    if |xs| > 0 {
      FirstNamedFinds(xs[1..], nameOf, name);
      assert xs == [xs[0]] + xs[1..];
    }
  }

  /** What is found has no bearer of its name before it. */
  lemma {:induction false} FirstNamedAt<T>(xs: seq<T>, nameOf: T -> string, name: string) returns (i: nat)
    requires FirstNamed(xs, nameOf, name).Some?
    ensures i < |xs| && xs[i] == FirstNamed(xs, nameOf, name).value && nameOf(xs[i]) == name
    ensures forall j :: 0 <= j < i ==> nameOf(xs[j]) != name
  {
    if nameOf(xs[0]) == name {
      i := 0;
    } else {
      i := FirstNamedAt(xs[1..], nameOf, name);
      i := i + 1;
      assert forall j :: 1 <= j < i ==> xs[j] == xs[1..][j - 1];
    }
  }

  /** When names are distinct, an element is found under its own name. */
  lemma {:induction false} FirstNamedOfDistinct<T(!new)>(xs: seq<T>, nameOf: T -> string, i: nat)
    requires DistinctKeys(xs, nameOf) && i < |xs|
    ensures FirstNamed(xs, nameOf, nameOf(xs[i])) == Some(xs[i])
  {
    if i > 0 {
      assert nameOf(xs[0]) != nameOf(xs[i]);
      FirstNamedOfDistinct(xs[1..], nameOf, i - 1);
    }
  }

  function NodeId(n: Node): string { n.id }

  function NodeTypeName(n: Node): string { n.typ }

  function EdgeId(e: Edge): string { e.id }

  function EdgeSource(e: Edge): string { e.source }

  function EdgeTarget(e: Edge): string { e.target }

  function NodeTypeNameOf(t: NodeType): string { t.name }

  function EdgeTypeNameOf(t: EdgeType): string { t.name }

  function PropertyName(p: PropertySpec): string { p.name }

  ghost predicate UniqueIds(nodes: seq<Node>) { DistinctKeys(nodes, NodeId) }

  ghost predicate HasId(nodes: seq<Node>, id: string) {
    id in KeySet(nodes, NodeId)
  }

  /** Every edge joins nodes of the list. */
  ghost predicate Closed(nodes: seq<Node>, edges: seq<Edge>) {
    forall e :: e in edges ==> HasId(nodes, e.source) && HasId(nodes, e.target)
  }

  function NodeIds(nodes: seq<Node>): (ids: seq<string>)
    ensures |ids| == |nodes|
  {
    MapSeq(NodeId, nodes)
  }

  /** The first `k` edges with both endpoints among the kept ids. */
  function Joined(edges: seq<Edge>, kept: set<string>, k: nat): seq<Edge>
    requires k <= |edges|
  {
    if k == 0 then []
    else Joined(edges, kept, k - 1) +
         (if edges[k - 1].source in kept && edges[k - 1].target in kept then [edges[k - 1]] else [])
  }

  lemma {:induction false} JoinedMember(edges: seq<Edge>, kept: set<string>, k: nat, e: Edge)
    requires k <= |edges|
    ensures e in Joined(edges, kept, k) <==> e in edges[..k] && e.source in kept && e.target in kept
  {
    if k > 0 {
      JoinedMember(edges, kept, k - 1, e);
      assert edges[..k] == edges[..k - 1] + [edges[k - 1]];
    }
  }

  /** `{n.id: n for n in nodes}`: a later node replaces an earlier one with the same id. */
  function NodesById(nodes: seq<Node>): map<string, Node> {
    if |nodes| == 0 then map[]
    else NodesById(nodes[..|nodes| - 1])[nodes[|nodes| - 1].id := nodes[|nodes| - 1]]
  }

  /** `{n.id: n.type for n in nodes}`. */
  function TypesById(nodes: seq<Node>): map<string, string> {
    if |nodes| == 0 then map[]
    else TypesById(nodes[..|nodes| - 1])[nodes[|nodes| - 1].id := nodes[|nodes| - 1].typ]
  }

  lemma {:induction false} DictionariesAgree(nodes: seq<Node>)
    ensures NodesById(nodes).Keys == TypesById(nodes).Keys == KeySet(nodes, NodeId)
    ensures forall id :: id in NodesById(nodes) ==>
      NodesById(nodes)[id].typ == TypesById(nodes)[id] && NodesById(nodes)[id].id == id && NodesById(nodes)[id] in nodes
  {
    if |nodes| > 0 {
      DictionariesAgree(nodes[..|nodes| - 1]);
      KeySetLast(nodes, NodeId);
    }
  }

  lemma {:induction false} LookupOfUnique(nodes: seq<Node>, i: nat)
    requires UniqueIds(nodes) && i < |nodes|
    ensures nodes[i].id in NodesById(nodes) && NodesById(nodes)[nodes[i].id] == nodes[i]
  {
    var n := |nodes| - 1;
    if i < n {
      LookupOfUnique(nodes[..n], i);
      assert NodeId(nodes[i]) != NodeId(nodes[n]);
    }
  }

  /** How many elements carry each type name, as `compute_metrics` records it. */
  method CountByType(nodes: seq<Node>) returns (counts: map<string, nat>)
    ensures forall t :: (t in counts <==> t in MapSeq(NodeTypeName, nodes))
    ensures forall t :: t in counts ==> counts[t] == multiset(MapSeq(NodeTypeName, nodes))[t]
  {
    counts := map[];
    for i := 0 to |nodes|
      invariant forall t :: t in counts <==> t in MapSeq(NodeTypeName, nodes[..i])
      invariant forall t :: t in counts ==> counts[t] == multiset(MapSeq(NodeTypeName, nodes[..i]))[t]
    {
      var t := nodes[i].typ;
      assert MapSeq(NodeTypeName, nodes[..i + 1]) == MapSeq(NodeTypeName, nodes[..i]) + [t];
      counts := counts[t := (if t in counts then counts[t] else 0) + 1];
    }
    assert nodes[..|nodes|] == nodes;
  }
}

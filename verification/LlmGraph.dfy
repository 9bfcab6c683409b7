/** `LLMGraphGenerator`: filtering arbitrary model output into a shard that fits the ontology. */
module LlmGraph {
  import opened Sequences
  import opened Strings
  import opened GraphModels
  import opened Validator
  import opened Topology

  /**
   * Where property values come from: Faker, the seeded generator, and datatype coercion of a model
   * value. The two streams are indexed by the position of the draw (node, property).
   */
  datatype Sources = Sources(
    fake: (PropertySpec, nat, nat) -> Value,
    synthesize: (PropertySpec, nat, nat) -> Value,
    coerce: (Value, string) -> Value,
    show: Value -> string)

  /** `str(key)`. */
  function KeyText(src: Sources, v: Value): string {
    if v.Str? then v.s else src.show(v)
  }

  // Properties

  function PropertyValue(p: PropertySpec, given: Properties, src: Sources, n: nat, j: nat): Value {
    if IsPii(p) then src.fake(p, n, j)
    else if !Get(given, p.name).Null? then src.coerce(Get(given, p.name), p.datatyp)
    else src.synthesize(p, n, j)
  }

  function Filled(ps: seq<PropertySpec>, given: Properties, src: Sources, n: nat, k: nat): Properties
    requires k <= |ps|
  {
    if k == 0 then map[]
    else Filled(ps, given, src, n, k - 1)[ps[k - 1].name := PropertyValue(ps[k - 1], given, src, n, k - 1)]
  }

  function GivenProperties(raw: Value): Properties {
    if raw.Dict? then raw.entries else map[]
  }

  method NodeProperties(nt: NodeType, raw: Value, src: Sources, n: nat) returns (props: Properties)
    ensures props == Filled(nt.properties, GivenProperties(raw), src, n, |nt.properties|)
  {
    hide IsPii;
    var given := if raw.Dict? then raw.entries else map[];
    props := map[];
    for j := 0 to |nt.properties|
      invariant props == Filled(nt.properties, given, src, n, j)
    {
      var p := nt.properties[j];
      if IsPii(p) {
        props := props[p.name := src.fake(p, n, j)];
      } else if p.name in given && !given[p.name].Null? {
        props := props[p.name := src.coerce(given[p.name], p.datatyp)];
      } else {
        props := props[p.name := src.synthesize(p, n, j)];
      }
    }
  }

  /** A node carries exactly the property names its type declares. */
  lemma {:induction false} FilledNames(ps: seq<PropertySpec>, given: Properties, src: Sources, n: nat, k: nat)
    requires k <= |ps|
    ensures Filled(ps, given, src, n, k).Keys == set i | 0 <= i < k :: ps[i].name
  {
    hide PropertyValue;
    if k > 0 { FilledNames(ps, given, src, n, k - 1); }
  }

  /** A personal-data property is always faked: its value is the same whatever the model supplied. */
  lemma {:induction false} PiiNeverTrusted(ps: seq<PropertySpec>, given: Properties, src: Sources, n: nat, i: nat,
                                           k: nat)
    requires i < k <= |ps| && IsPii(ps[i])
    requires forall j :: i < j < k ==> ps[j].name != ps[i].name
    ensures ps[i].name in Filled(ps, given, src, n, k)
    ensures Filled(ps, given, src, n, k)[ps[i].name] == src.fake(ps[i], n, i)
  {
    hide IsPii;
    if i < k - 1 { PiiNeverTrusted(ps, given, src, n, i, k - 1); }
  }

  /**
   * What the last property of its name holds: personal data is faked; otherwise the model's value, coerced, when it
   * supplied one that is not null, and a synthesized one exactly when it did not.
   */
  ghost predicate Sourced(ps: seq<PropertySpec>, given: Properties, src: Sources, n: nat, i: nat, props: Properties)
    requires i < |ps|
  {
    var p := ps[i];
    && p.name in props
    && (IsPii(p) ==> props[p.name] == src.fake(p, n, i))
    && (!IsPii(p) && p.name in given && !given[p.name].Null? ==> props[p.name] == src.coerce(given[p.name], p.datatyp))
    && (!IsPii(p) && (p.name !in given || given[p.name].Null?) ==> props[p.name] == src.synthesize(p, n, i))
  }

  ghost predicate LastOfItsName(ps: seq<PropertySpec>, i: nat, k: nat)
    requires k <= |ps|
  {
    i < k && forall j :: i < j < k ==> ps[j].name != ps[i].name
  }

  lemma {:induction false} PropertySourced(ps: seq<PropertySpec>, given: Properties, src: Sources, n: nat, i: nat,
                                           k: nat)
    requires k <= |ps| && LastOfItsName(ps, i, k)
    ensures Sourced(ps, given, src, n, i, Filled(ps, given, src, n, k))
  {
    hide IsPii;
    if i < k - 1 { PropertySourced(ps, given, src, n, i, k - 1); }
  }

  // Nodes

  /** Nodes so far, with the `(type, key) -> id` dictionary and its keys in insertion order. */
  datatype Built = Built(nodes: seq<Node>, keys: seq<(string, string)>, idOf: map<(string, string), string>)

  const NOTHING := Built([], [], map[])

  /** The declared type an item names. */
  function ItemType(ont: Ontology, item: Value): Option<NodeType> {
    if item.Dict? && Get(item.entries, "type").Str? then ont.NodeTypeNamed(Get(item.entries, "type").s) else None
  }

  /** The item's natural key, or the running count when it has none. */
  function ItemKey(src: Sources, item: Value, soFar: nat): string
    requires item.Dict?
  {
    var key := Get(item.entries, "key");
    if key.Null? then Decimal(soFar) else KeyText(src, key)
  }

  function AddNode(src: Sources, b: Built, nt: NodeType, key: string, raw: Value): (r: Built)
    ensures |r.nodes| == |b.nodes| + 1 && r.nodes[..|b.nodes|] == b.nodes
  {
    var id := nt.name + ":" + key;
    Built(b.nodes + [Node(id, nt.name, Filled(nt.properties, GivenProperties(raw), src, |b.nodes|, |nt.properties|))],
          b.keys + [(nt.name, key)], b.idOf[(nt.name, key) := id])
  }

  function NodeStep(ont: Ontology, src: Sources, count: int, b: Built, item: Value): Built {
    var nt := ItemType(ont, item);
    if |b.nodes| >= count || nt.None? then b
    else
      var key := ItemKey(src, item, |b.nodes|);
      if (nt.value.name, key) in b.idOf then b
      else AddNode(src, b, nt.value, key, Get(item.entries, "properties"))
  }

  /** The state after the first `k` items. */
  function NodesAfter(ont: Ontology, src: Sources, count: int, items: seq<Value>, k: nat): Built
    requires k <= |items|
  {
    if k == 0 then NOTHING else NodeStep(ont, src, count, NodesAfter(ont, src, count, items, k - 1), items[k - 1])
  }

  lemma {:induction false} FullStays(ont: Ontology, src: Sources, count: int, items: seq<Value>, i: nat, k: nat)
    requires i <= k <= |items| && |NodesAfter(ont, src, count, items, i).nodes| >= count
    ensures NodesAfter(ont, src, count, items, k) == NodesAfter(ont, src, count, items, i)
  {
    hide AddNode, ItemType, ItemKey;
    if i < k { FullStays(ont, src, count, items, i, k - 1); }
  }

  method BuildNodes(ont: Ontology, src: Sources, rawNodes: Value, count: int) returns (b: Built)
    ensures b == if rawNodes.List? then NodesAfter(ont, src, count, rawNodes.items, |rawNodes.items|) else NOTHING
  {
    hide Ontology.NodeTypeNamed, Decimal, Filled;
    b := NOTHING;
    if !rawNodes.List? { return; }
    var items := rawNodes.items;
    for i := 0 to |items|
      invariant b == NodesAfter(ont, src, count, items, i)
    {
      if |b.nodes| >= count {
        FullStays(ont, src, count, items, i, |items|);
        break;
      }
      var item := items[i];
      if !item.Dict? { continue; }
      var typ := Get(item.entries, "type");
      var nt := if typ.Str? then ont.NodeTypeNamed(typ.s) else None;
      if nt.None? { continue; }
      var raw := Get(item.entries, "key");
      var key := if raw.Null? then Decimal(|b.nodes|) else KeyText(src, raw);
      if (nt.value.name, key) in b.idOf { continue; }
      var id := nt.value.name + ":" + key;
      var props := NodeProperties(nt.value, Get(item.entries, "properties"), src, |b.nodes|);
      b := Built(b.nodes + [Node(id, nt.value.name, props)], b.keys + [(nt.value.name, key)],
                 b.idOf[(nt.value.name, key) := id]);
    }
  }

  /** A node fits its declared type: exactly the declared property names. */
  ghost predicate NodeFits(ont: Ontology, n: Node) {
    var nt := ont.NodeTypeNamed(n.typ);
    nt.Some? && n.properties.Keys == set i | 0 <= i < |nt.value.properties| :: nt.value.properties[i].name
  }

  /** The dictionary lists the nodes, under pairwise different keys. */
  ghost predicate Consistent(b: Built) {
    && |b.keys| == |b.nodes|
    && NoDuplicates(b.keys)
    && (forall k :: k in b.idOf <==> k in b.keys)
    && (forall i :: 0 <= i < |b.keys| ==>
          && b.nodes[i].typ == b.keys[i].0
          && b.nodes[i].id == b.keys[i].0 + ":" + b.keys[i].1
          && b.idOf[b.keys[i]] == b.nodes[i].id)
  }

  lemma TypeFound(ont: Ontology, name: string)
    ensures ont.NodeTypeNamed(name).Some? ==> ont.NodeTypeNamed(name).value.name == name
    ensures ont.NodeTypeNamed(name).Some? <==> exists t :: t in ont.nodeTypes && t.name == name
  {
    hide FirstNamed;
    FirstNamedFinds(ont.nodeTypes, NodeTypeNameOf, name);
  }

  lemma AddedNode(ont: Ontology, src: Sources, b: Built, nt: NodeType, key: string, raw: Value)
    requires Consistent(b) && (nt.name, key) !in b.idOf && ont.NodeTypeNamed(nt.name) == Some(nt)
    ensures Consistent(AddNode(src, b, nt, key, raw))
    ensures var nodes := AddNode(src, b, nt, key, raw).nodes; NodeFits(ont, nodes[|nodes| - 1])
  {
    hide Filled, Ontology.NodeTypeNamed;
    FilledNames(nt.properties, GivenProperties(raw), src, |b.nodes|, |nt.properties|);
  }

  ghost predicate Sound(ont: Ontology, count: int, b: Built) {
    && Consistent(b)
    && |b.nodes| <= (if count < 0 then 0 else count)
    && forall i :: 0 <= i < |b.nodes| ==> NodeFits(ont, b.nodes[i])
  }

  lemma StepSound(ont: Ontology, src: Sources, count: int, b: Built, item: Value)
    requires Sound(ont, count, b)
    ensures Sound(ont, count, NodeStep(ont, src, count, b, item))
  {
    hide NodeFits, Consistent, Ontology.NodeTypeNamed, ItemKey, Get, AddNode;
    var nt := ItemType(ont, item);
    if nt.Some? {
      TypeFound(ont, Get(item.entries, "type").s);
      var key := ItemKey(src, item, |b.nodes|);
      if (nt.value.name, key) !in b.idOf {
        AddedNode(ont, src, b, nt.value, key, Get(item.entries, "properties"));
      }
    }
  }

  /** Whatever the model returns: at most `count` nodes, all of declared types with their declared properties. */
  lemma {:induction false} NodesSound(ont: Ontology, src: Sources, count: int, items: seq<Value>, k: nat)
    requires k <= |items|
    ensures Sound(ont, count, NodesAfter(ont, src, count, items, k))
  {
    hide NodeStep, NodeFits;
    if k > 0 {
      NodesSound(ont, src, count, items, k - 1);
      StepSound(ont, src, count, NodesAfter(ont, src, count, items, k - 1), items[k - 1]);
    }
  }

  /** Nothing usable is lost: a typed, keyed item is in the shard unless the shard is full. */
  lemma {:induction false} NodesComplete(ont: Ontology, src: Sources, count: int, items: seq<Value>, i: nat, k: nat)
    requires i < k <= |items|
    requires ItemType(ont, items[i]).Some? && !Get(items[i].entries, "key").Null?
    ensures var b := NodesAfter(ont, src, count, items, k);
      |b.nodes| >= count ||
      (ItemType(ont, items[i]).value.name, KeyText(src, Get(items[i].entries, "key"))) in b.idOf
  {
    hide ItemType, Get, Filled;
    if i < k - 1 { NodesComplete(ont, src, count, items, i, k - 1); }
  }

  /** The properties fill the type's, from the given ones where there are any. */
  ghost predicate FilledFrom(nt: NodeType, given: Properties, src: Sources, i: nat, props: Properties) {
    && props.Keys == (set q | 0 <= q < |nt.properties| :: nt.properties[q].name)
    && forall q :: 0 <= q < |nt.properties| && LastOfItsName(nt.properties, q, |nt.properties|) ==>
         Sourced(nt.properties, given, src, i, q, props)
  }

  /**
   * The item names the node's type; its key, or the number of nodes before it when it has none, makes the node's id;
   * and its properties, when they are an object, fill the node's.
   */
  ghost predicate FromItem(ont: Ontology, src: Sources, item: Value, i: nat, n: Node) {
    && item.Dict? && Get(item.entries, "type") == Str(n.typ) && ont.NodeTypeNamed(n.typ).Some?
    && var nt, key, given := ont.NodeTypeNamed(n.typ).value, Get(item.entries, "key"), Get(item.entries, "properties");
       && (key == Null ==> n.id == n.typ + ":" + Decimal(i))
       && (forall s :: key == Str(s) ==> n.id == n.typ + ":" + s)
       && (!key.Null? && !key.Str? ==> n.id == n.typ + ":" + src.show(key))
       && (forall d :: given == Dict(d) ==> FilledFrom(nt, d, src, i, n.properties))
       && (!given.Dict? ==> FilledFrom(nt, map[], src, i, n.properties))
  }

  lemma FilledFills(nt: NodeType, given: Properties, src: Sources, i: nat)
    ensures FilledFrom(nt, given, src, i, Filled(nt.properties, given, src, i, |nt.properties|))
  {
    hide Filled, Sourced, LastOfItsName;
    FilledNames(nt.properties, given, src, i, |nt.properties|);
    forall q | 0 <= q < |nt.properties| && LastOfItsName(nt.properties, q, |nt.properties|)
      ensures Sourced(nt.properties, given, src, i, q, Filled(nt.properties, given, src, i, |nt.properties|))
    {
      PropertySourced(nt.properties, given, src, i, q, |nt.properties|);
    }
  }

  lemma AddedFromItem(ont: Ontology, src: Sources, count: int, b: Built, item: Value)
    requires |NodeStep(ont, src, count, b, item).nodes| > |b.nodes|
    ensures FromItem(ont, src, item, |b.nodes|, NodeStep(ont, src, count, b, item).nodes[|b.nodes|])
  {
    hide Filled, FilledFrom, Ontology.NodeTypeNamed, Get;
    TypeFound(ont, Get(item.entries, "type").s);
    var nt := ItemType(ont, item).value;
    FilledFills(nt, GivenProperties(Get(item.entries, "properties")), src, |b.nodes|);
  }

  /** A step keeps the nodes there are and adds at most one. */
  lemma StepExtends(ont: Ontology, src: Sources, count: int, b: Built, item: Value)
    ensures var r := NodeStep(ont, src, count, b, item); |b.nodes| <= |r.nodes| <= |b.nodes| + 1
    ensures forall i :: 0 <= i < |b.nodes| ==> NodeStep(ont, src, count, b, item).nodes[i] == b.nodes[i]
  {
    hide Filled, ItemType, ItemKey;
  }

  /** The item at which a node was added. */
  lemma {:induction false} NodeOrigin(ont: Ontology, src: Sources, count: int, items: seq<Value>, k: nat, i: nat)
    returns (j: nat)
    requires k <= |items| && i < |NodesAfter(ont, src, count, items, k).nodes|
    ensures j < k
    ensures |NodesAfter(ont, src, count, items, j).nodes| == i < |NodesAfter(ont, src, count, items, j + 1).nodes|
    ensures NodesAfter(ont, src, count, items, j + 1).nodes[i] == NodesAfter(ont, src, count, items, k).nodes[i]
  {
    hide NodeStep;
    StepExtends(ont, src, count, NodesAfter(ont, src, count, items, k - 1), items[k - 1]);
    if i < |NodesAfter(ont, src, count, items, k - 1).nodes| {
      j := NodeOrigin(ont, src, count, items, k - 1, i);
    } else {
      j := k - 1;
    }
  }

  /** A node is added only while there is room, and under a new type and key. */
  lemma AddedIsNew(ont: Ontology, src: Sources, count: int, b: Built, item: Value)
    requires |NodeStep(ont, src, count, b, item).nodes| > |b.nodes|
    ensures |b.nodes| < count && ItemType(ont, item).Some?
    ensures (ItemType(ont, item).value.name, ItemKey(src, item, |b.nodes|)) !in b.idOf
  {
    hide AddNode, ItemKey, Ontology.NodeTypeNamed;
  }

  /** An earlier item has the node's type and key. */
  ghost predicate Anticipates(ont: Ontology, src: Sources, item: Value, typ: string, key: string) {
    && ItemType(ont, item).Some? && !Get(item.entries, "key").Null?
    && ItemType(ont, item).value.name == typ && KeyText(src, Get(item.entries, "key")) == key
  }

  /**
   * Every node comes from an item: the first of its type and key, whose values fill it, personal data and missing
   * values apart.
   */
  lemma {:induction false} FirstItemWins(ont: Ontology, src: Sources, count: int, items: seq<Value>, i: nat)
    returns (j: nat)
    requires i < |NodesAfter(ont, src, count, items, |items|).nodes|
    ensures j < |items| && FromItem(ont, src, items[j], i, NodesAfter(ont, src, count, items, |items|).nodes[i])
    ensures forall h :: 0 <= h < j ==>
      !Anticipates(ont, src, items[h], ItemType(ont, items[j]).value.name, ItemKey(src, items[j], i))
  {
    hide FromItem, Ontology.NodeTypeNamed, ItemKey, Get, KeyText, NodeStep;
    j := NodeOrigin(ont, src, count, items, |items|, i);
    var b := NodesAfter(ont, src, count, items, j);
    AddedFromItem(ont, src, count, b, items[j]);
    AddedIsNew(ont, src, count, b, items[j]);
    forall h | 0 <= h < j
      ensures !Anticipates(ont, src, items[h], ItemType(ont, items[j]).value.name, ItemKey(src, items[j], i))
    {
      if ItemType(ont, items[h]).Some? && !Get(items[h].entries, "key").Null? {
        NodesComplete(ont, src, count, items, h, j);
      }
    }
  }

  // Distinct ids

  /** One declared type name, followed by a colon, starts another. */
  ghost predicate Ambiguous(ont: Ontology) {
    exists s, t :: s in ont.nodeTypes && t in ont.nodeTypes && s.name + ":" <= t.name
  }

  /** A node's id is its type, a colon and its key. */
  predicate Typed(n: Node) { n.typ + ":" <= n.id }

  lemma ConsistentTyped(b: Built)
    requires Consistent(b)
    ensures forall i :: 0 <= i < |b.nodes| ==> Typed(b.nodes[i])
  {
  }

  /** One name, followed by a colon, starts the other: nodes of the two types can share an id. */
  predicate Confusable(s: string, t: string) { s + ":" <= t || t + ":" <= s }

  lemma SharedId(s: string, t: string) returns (x: string, y: string)
    requires Confusable(s, t)
    ensures s + ":" + x == t + ":" + y && s != t
  {
    if s + ":" <= t {
      x, y := t[|s| + 1..] + ":", "";
      assert t == s + ":" + t[|s| + 1..];
    } else {
      x, y := "", s[|t| + 1..] + ":";
      assert s == t + ":" + s[|t| + 1..];
    }
  }

  /** Nodes of declared types that share an id share their type unless the two names can be confused. */
  lemma TypesOfEqualIds(ont: Ontology, m: Node, n: Node)
    requires NodeFits(ont, m) && NodeFits(ont, n) && Typed(m) && Typed(n) && m.id == n.id
    ensures m.typ == n.typ || Confusable(m.typ, n.typ)
    ensures m.typ == n.typ || Ambiguous(ont)
  {
    hide Ontology.NodeTypeNamed;
    TypeFound(ont, m.typ);
    TypeFound(ont, n.typ);
    var a, b := m.id[|m.typ| + 1..], n.id[|n.typ| + 1..];
    assert m.id == m.typ + ":" + a && n.id == n.typ + ":" + b;
    KeysOfEqualIds(m.typ, a, n.typ, b);
  }

  lemma KeysOfEqualIds(s: string, a: string, t: string, b: string)
    requires s + ":" + a == t + ":" + b
    ensures s == t ==> a == b
    ensures s == t || s + ":" <= t || t + ":" <= s
  {
    var w := s + ":" + a;
    assert a == w[|s| + 1..] && b == w[|t| + 1..];
    assert s + ":" == w[..|s| + 1] && t + ":" == w[..|t| + 1];
    assert t == w[..|t|] && s == w[..|s|];
    if |s| < |t| {
      assert w[..|t|][..|s| + 1] == w[..|s| + 1];
    } else if |t| < |s| {
      assert w[..|s|][..|t| + 1] == w[..|t| + 1];
    }
  }

  /** Node ids never collide unless type names are ambiguous; in particular not when none contains a colon. */
  lemma UnambiguousIdsUnique(ont: Ontology, b: Built)
    requires Consistent(b) && (forall i :: 0 <= i < |b.nodes| ==> NodeFits(ont, b.nodes[i]))
    requires !Ambiguous(ont)
    ensures UniqueIds(b.nodes)
  {
    hide Ontology.NodeTypeNamed;
    forall i, j | 0 <= i < j < |b.nodes| ensures NodeId(b.nodes[i]) != NodeId(b.nodes[j]) {
      var (s, x) := b.keys[i];
      var (t, y) := b.keys[j];
      TypeFound(ont, s);
      TypeFound(ont, t);
      if b.nodes[i].id == b.nodes[j].id {
        KeysOfEqualIds(s, x, t, y);
      }
    }
  }

  lemma ColonInside(s: string, t: string)
    ensures s + ":" <= t ==> ':' in t
  {
    if s + ":" <= t {
      assert t[|s|] == (s + ":")[|s|];
    }
  }

  lemma ColonFreeUnambiguous(ont: Ontology)
    requires forall t :: t in ont.nodeTypes ==> ':' !in t.name
    ensures !Ambiguous(ont)
  {
    forall s, t | s in ont.nodeTypes && t in ont.nodeTypes ensures !(s.name + ":" <= t.name) {
      ColonInside(s.name, t.name);
    }
  }

  /** Conversely, any ambiguous ontology admits a two-item output whose node ids collide. */
  lemma AmbiguousIdsCollide(ont: Ontology, src: Sources, count: int, s: NodeType, t: NodeType, items: seq<Value>,
                            x: string)
    requires ont.NodeTypeNamed(s.name) == Some(s) && ont.NodeTypeNamed(t.name) == Some(t)
    requires s.name + ":" <= t.name && count >= 2
    requires |items| == 2 && items[0].Dict? && items[1].Dict?
    requires Get(items[0].entries, "type") == Str(s.name)
    requires Get(items[0].entries, "key") == Str(t.name[|s.name| + 1..] + ":" + x)
    requires Get(items[1].entries, "type") == Str(t.name) && Get(items[1].entries, "key") == Str(x)
    ensures !UniqueIds(NodesAfter(ont, src, count, items, |items|).nodes)
  {
    hide Ontology.NodeTypeNamed, Get, Filled, Decimal;
    var b0 := NodesAfter(ont, src, count, items, 0);
    var b1 := NodesAfter(ont, src, count, items, 1);
    var b2 := NodesAfter(ont, src, count, items, |items|);
    assert s.name != t.name;
    assert |b1.nodes| == 1 && b1.idOf.Keys == {(s.name, t.name[|s.name| + 1..] + ":" + x)};
    assert |b2.nodes| == 2;
    assert t.name == s.name + ":" + t.name[|s.name| + 1..];
    assert b2.nodes[0].id == s.name + ":" + (t.name[|s.name| + 1..] + ":" + x);
    assert b2.nodes[1].id == t.name + ":" + x;
    assert b2.nodes[0].id == b2.nodes[1].id;
    assert NodeId(b2.nodes[0]) == NodeId(b2.nodes[1]);
  }

  // Edges

  function Resolve(src: Sources, key: Value, expected: string, idOf: map<(string, string), string>): Option<string> {
    if key.Null? || (expected, KeyText(src, key)) !in idOf then None else Some(idOf[(expected, KeyText(src, key))])
  }

  /** The relation and endpoints a raw edge resolves to, when it passes the domain/range check. */
  function ResolvedEdge(ont: Ontology, src: Sources, typeOf: map<string, string>, idOf: map<(string, string), string>,
                        item: Value): Option<Signature> {
    if !item.Dict? || !Get(item.entries, "type").Str? then None
    else
      var et := ont.EdgeTypeNamed(Get(item.entries, "type").s);
      if et.None? then None
      else
        var s := Resolve(src, Get(item.entries, "source"), et.value.sourceType, idOf);
        var t := Resolve(src, Get(item.entries, "target"), et.value.targetType, idOf);
        if s.None? || t.None? then None
        else if s.value !in typeOf || typeOf[s.value] != et.value.sourceType
             || t.value !in typeOf || typeOf[t.value] != et.value.targetType then None
        else Some(Signature(et.value.name, s.value, t.value))
  }

  /** The resolved signatures of the first `k` raw edges. */
  function Resolved(ont: Ontology, src: Sources, typeOf: map<string, string>, idOf: map<(string, string), string>,
                    items: seq<Value>, k: nat): seq<Signature>
    requires k <= |items|
  {
    if k == 0 then []
    else
      var before := Resolved(ont, src, typeOf, idOf, items, k - 1);
      match ResolvedEdge(ont, src, typeOf, idOf, items[k - 1])
      case None => before
      case Some(sig) => before + [sig]
  }

  method BuildEdges(ont: Ontology, src: Sources, rawEdges: Value, b: Built) returns (edges: seq<Edge>)
    ensures rawEdges.List? ==>
      MapSeq(EdgeSignature, edges) ==
      FirstOccurrences(Resolved(ont, src, TypesById(b.nodes), b.idOf, rawEdges.items, |rawEdges.items|), Identity)
    ensures !rawEdges.List? ==> edges == []
    ensures forall k :: 0 <= k < |edges| ==> edges[k].id == edges[k].typ + ":" + Decimal(k)
  {
    hide Ontology.EdgeTypeNamed, Decimal, TypesById, FirstOccurrences, KeySet;
    edges := [];
    if !rawEdges.List? { return; }
    var items, typeOf := rawEdges.items, TypesById(b.nodes);
    var seen: set<Signature> := {};
    ghost var resolved: seq<Signature> := [];
    NoneYet(edges);
    for i := 0 to |items|
      invariant resolved == Resolved(ont, src, typeOf, b.idOf, items, i)
      invariant seen == KeySet(resolved, Identity)
      invariant MapSeq(EdgeSignature, edges) == FirstOccurrences(resolved, Identity)
      invariant forall k :: 0 <= k < |edges| ==> edges[k].id == edges[k].typ + ":" + Decimal(k)
    {
      var sig := ResolvedEdge(ont, src, typeOf, b.idOf, items[i]);
      if sig.None? { continue; }
      hide ResolvedEdge;
      FirstOccurrencesPush(resolved, sig.value);
      resolved := resolved + [sig.value];
      if sig.value in seen { continue; }
      seen := seen + {sig.value};
      var e := Edge(sig.value.typ + ":" + Decimal(|edges|), sig.value.typ, sig.value.source, sig.value.target,
                    GivenProperties(Get(items[i].entries, "properties")));
      PushEdge(edges, e);
      edges := edges + [e];
    }
  }

  lemma NoneYet(edges: seq<Edge>)
    requires |edges| == 0
    ensures KeySet([], Identity<Signature>) == {}
    ensures MapSeq(EdgeSignature, edges) == FirstOccurrences([], Identity<Signature>)
  {
  }

  lemma {:induction false} ResolvedFrom(ont: Ontology, src: Sources, typeOf: map<string, string>,
                                        idOf: map<(string, string), string>, items: seq<Value>, k: nat, sig: Signature)
    requires k <= |items|
    ensures sig in Resolved(ont, src, typeOf, idOf, items, k) <==>
      exists i :: 0 <= i < k && ResolvedEdge(ont, src, typeOf, idOf, items[i]) == Some(sig)
  {
    hide ResolvedEdge;
    if k > 0 { ResolvedFrom(ont, src, typeOf, idOf, items, k - 1, sig); }
  }

  lemma ResolvedPasses(ont: Ontology, src: Sources, typeOf: map<string, string>, idOf: map<(string, string), string>,
                       item: Value, e: Edge)
    requires ResolvedEdge(ont, src, typeOf, idOf, item) == Some(EdgeSignature(e))
    ensures EdgeFinding(ont, typeOf, e) == []
  {
    hide FirstNamed, Get;
    FirstNamedFinds(ont.edgeTypes, EdgeTypeNameOf, Get(item.entries, "type").s);
  }

  /**
   * For every parsed output the shard's edges carry distinct signatures and ids, and the validator
   * finds no unknown, dangling or domain/range-violating edge among them.
   */
  lemma {:induction false} EdgesSound(ont: Ontology, src: Sources, b: Built, items: seq<Value>, edges: seq<Edge>)
    requires MapSeq(EdgeSignature, edges)
               == FirstOccurrences(Resolved(ont, src, TypesById(b.nodes), b.idOf, items, |items|), Identity)
    requires forall k :: 0 <= k < |edges| ==> edges[k].id == edges[k].typ + ":" + Decimal(k)
    ensures DistinctKeys(edges, EdgeSignature) && DistinctKeys(edges, EdgeId)
    ensures EdgeFindings(ont, TypesById(b.nodes), edges, |edges|) == []
  {
    hide TypesById, FirstOccurrences, Resolved, ResolvedEdge, EdgeFinding, Decimal, KeySet;
    var typeOf := TypesById(b.nodes);
    var resolved := Resolved(ont, src, typeOf, b.idOf, items, |items|);
    var sigs := FirstOccurrences(resolved, Identity);
    FirstOccurrencesKeys(resolved, Identity);
    forall i, j | 0 <= i < j < |edges|
      ensures EdgeSignature(edges[i]) != EdgeSignature(edges[j]) && EdgeId(edges[i]) != EdgeId(edges[j])
    {
      assert Identity(sigs[i]) != Identity(sigs[j]);
      DecimalRoundTrip(i);
      DecimalRoundTrip(j);
      if edges[i].id == edges[j].id { LastColonSplits(edges[i].typ, Decimal(i), edges[j].typ, Decimal(j)); }
    }
    NoFindings(ont, typeOf, edges, |edges|);
    forall k | 0 <= k < |edges| ensures EdgeFinding(ont, typeOf, edges[k]) == [] {
      assert sigs[k] == EdgeSignature(edges[k]);
      FirstOccurrencesMember(resolved, Identity, sigs[k]);
      ResolvedFrom(ont, src, typeOf, b.idOf, items, |items|, sigs[k]);
      var i :| 0 <= i < |items| && ResolvedEdge(ont, src, typeOf, b.idOf, items[i]) == Some(sigs[k]);
      ResolvedPasses(ont, src, typeOf, b.idOf, items[i], edges[k]);
    }
  }

  /** With unique node ids the domain/range re-check never fires: every edge whose endpoints resolve is kept. */
  lemma EdgesComplete(ont: Ontology, src: Sources, b: Built, item: Value, et: EdgeType)
    requires Consistent(b) && UniqueIds(b.nodes)
    requires item.Dict? && Get(item.entries, "type").Str? && ont.EdgeTypeNamed(Get(item.entries, "type").s) == Some(et)
    ensures ResolvedEdge(ont, src, TypesById(b.nodes), b.idOf, item).Some? <==>
      && Resolve(src, Get(item.entries, "source"), et.sourceType, b.idOf).Some?
      && Resolve(src, Get(item.entries, "target"), et.targetType, b.idOf).Some?
  {
    hide TypesById, NodesById, Ontology.EdgeTypeNamed, Get;
    var s := Resolve(src, Get(item.entries, "source"), et.sourceType, b.idOf);
    var t := Resolve(src, Get(item.entries, "target"), et.targetType, b.idOf);
    if s.Some? && t.Some? {
      ResolvedType(b, (et.sourceType, KeyText(src, Get(item.entries, "source"))));
      ResolvedType(b, (et.targetType, KeyText(src, Get(item.entries, "target"))));
    }
  }

  lemma ResolvedType(b: Built, key: (string, string))
    requires Consistent(b) && UniqueIds(b.nodes) && key in b.idOf
    ensures b.idOf[key] in TypesById(b.nodes) && TypesById(b.nodes)[b.idOf[key]] == key.0
  {
    hide TypesById, NodesById;
    var i :| 0 <= i < |b.keys| && b.keys[i] == key;
    LookupOfUnique(b.nodes, i);
    DictionariesAgree(b.nodes);
  }

  ghost predicate AllUntyped(ont: Ontology, items: seq<Value>) {
    forall i :: 0 <= i < |items| ==> ItemType(ont, items[i]).None?
  }

  lemma {:induction false} NothingBuilt(ont: Ontology, src: Sources, count: int, items: seq<Value>, k: nat)
    requires k <= |items| && count > 0
    ensures |NodesAfter(ont, src, count, items, k).nodes| == 0 <==> AllUntyped(ont, items[..k])
  {
    hide ItemType, ItemKey, NodeFits, Filled;
    if k > 0 {
      NothingBuilt(ont, src, count, items, k - 1);
      NodesSound(ont, src, count, items, k - 1);
      assert items[..k] == items[..k - 1] + [items[k - 1]];
    }
  }

  /** The shard holds the nodes and edges the fold over the parsed object keeps. */
  ghost predicate Generated(ont: Ontology, src: Sources, data: Properties, count: int, shard: Dataset) {
    var nodes, edges := Get(data, "nodes"), Get(data, "edges");
    && shard.ontology == ont && nodes.List?
    && var b := NodesAfter(ont, src, count, nodes.items, |nodes.items|);
       && shard.nodes == b.nodes
       && (forall k :: 0 <= k < |shard.edges| ==> shard.edges[k].id == shard.edges[k].typ + ":" + Decimal(k))
       && (!edges.List? ==> shard.edges == [])
       && (edges.List? ==>
             MapSeq(EdgeSignature, shard.edges)
               == FirstOccurrences(Resolved(ont, src, TypesById(b.nodes), b.idOf, edges.items, |edges.items|),
                                   Identity))
  }

  lemma GeneratedNodes(ont: Ontology, src: Sources, data: Properties, count: int, shard: Dataset)
    requires Generated(ont, src, data, count, shard)
    ensures |shard.nodes| <= (if count < 0 then 0 else count)
    ensures forall i :: 0 <= i < |shard.nodes| ==> NodeFits(ont, shard.nodes[i]) && Typed(shard.nodes[i])
    ensures !Ambiguous(ont) ==> UniqueIds(shard.nodes)
  {
    hide NodesAfter, NodeFits, TypesById, Ambiguous, Resolved, FirstOccurrences, Consistent, Decimal, Typed, Get;
    var items := Get(data, "nodes").items;
    var b := NodesAfter(ont, src, count, items, |items|);
    NodesSound(ont, src, count, items, |items|);
    ConsistentTyped(b);
    if !Ambiguous(ont) { UnambiguousIdsUnique(ont, b); }
  }

  lemma GeneratedEdges(ont: Ontology, src: Sources, data: Properties, count: int, shard: Dataset)
    requires Generated(ont, src, data, count, shard)
    ensures DistinctKeys(shard.edges, EdgeSignature) && DistinctKeys(shard.edges, EdgeId)
    ensures EdgeFindings(ont, TypesById(shard.nodes), shard.edges, |shard.edges|) == []
  {
    hide NodesAfter, EdgeFindings, TypesById, Resolved, FirstOccurrences, Decimal, KeySet, Get;
    var items, edges := Get(data, "nodes").items, Get(data, "edges");
    var b := NodesAfter(ont, src, count, items, |items|);
    if edges.List? {
      EdgesSound(ont, src, b, edges.items, shard.edges);
    } else {
      NoFindings(ont, TypesById(b.nodes), shard.edges, |shard.edges|);
    }
  }

  /** Hence every node of a generated shard carries the values of the first item of its type and key. */
  lemma {:induction false} ShardValues(ont: Ontology, src: Sources, data: Properties, count: int, shard: Dataset,
                                       i: nat)
    returns (j: nat)
    requires Generated(ont, src, data, count, shard) && i < |shard.nodes|
    ensures var items := Get(data, "nodes").items;
            && j < |items| && FromItem(ont, src, items[j], i, shard.nodes[i])
            && forall h :: 0 <= h < j ==>
                 !Anticipates(ont, src, items[h], ItemType(ont, items[j]).value.name, ItemKey(src, items[j], i))
  {
    hide NodesAfter, FromItem, Anticipates, TypesById, Resolved, FirstOccurrences;
    j := FirstItemWins(ont, src, count, Get(data, "nodes").items, i);
  }

  /** `generate` on a parsed object; None when no valid node can be produced. */
  method Generate(ont: Ontology, src: Sources, data: Properties, count: int) returns (shard: Option<Dataset>)
    ensures shard.Some? ==>
      && Generated(ont, src, data, count, shard.value) && shard.value.ontology == ont
      && 0 < |shard.value.nodes| <= count
      && (forall i :: 0 <= i < |shard.value.nodes| ==> NodeFits(ont, shard.value.nodes[i]))
      && DistinctKeys(shard.value.edges, EdgeSignature) && DistinctKeys(shard.value.edges, EdgeId)
      && EdgeFindings(ont, TypesById(shard.value.nodes), shard.value.edges, |shard.value.edges|) == []
      && (!Ambiguous(ont) ==> UniqueIds(shard.value.nodes))
      && (forall i :: 0 <= i < |shard.value.nodes| ==> Typed(shard.value.nodes[i]))
    ensures shard.None? <==> (!Get(data, "nodes").List? || count <= 0 || AllUntyped(ont, Get(data, "nodes").items))
  {
    hide NodesAfter, NodeFits, EdgeFindings, TypesById, Ambiguous, Resolved, FirstOccurrences, ItemType, Decimal,
         KeySet, Typed, DistinctKeys;
    var raw, rawEdges := Get(data, "nodes"), Get(data, "edges");
    var b := BuildNodes(ont, src, raw, count);
    if raw.List? && count > 0 {
      NothingBuilt(ont, src, count, raw.items, |raw.items|);
      assert raw.items[..|raw.items|] == raw.items;
    } else if raw.List? {
      NodesSound(ont, src, count, raw.items, |raw.items|);
    }
    if |b.nodes| == 0 { return None; }
    var edges := BuildEdges(ont, src, rawEdges, b);
    var ds := Dataset(ont, b.nodes, edges);
    GeneratedNodes(ont, src, data, count, ds);
    GeneratedEdges(ont, src, data, count, ds);
    return Some(ds);
  }
}
